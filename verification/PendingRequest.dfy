/** What `handle_pending_request` does up to the point where the request is passed to its
    handler. */
module PendingRequest {
  import opened Text
  import opened Numbers
  import opened ChunkedBody
  import opened HttpRequest

  const TRANSFER_ENCODING := "Transfer-Encoding"
  const CONTENT_LENGTH := "Content-Length"

  /** How the head of a request says its body travels. */
  datatype Framing = Refused | NoBody | Unsupported | Chunked | Length(n: nat)

  /** Waiting for bytes, Ignored for good, Rejected and closed, or Ready for the handler. */
  datatype Answer = Waiting | Ignored | Rejected | Ready

  datatype Session = Session(answer: Answer, buffer: string, body: string)

  predicate HasBody(m: Method) {
    m == PUT || m == PATCH || m == DELETE || m == POST
  }

  function FramingOf(m: Method, headers: Headers): Framing {
    if m == InvalidMethod then Unsupported  // never parsed; left alone
    else if !HasBody(m) then
      if CONTENT_LENGTH in headers || TRANSFER_ENCODING in headers then Refused else NoBody
    else if TRANSFER_ENCODING in headers then
      if headers[TRANSFER_ENCODING] == "chunked" then Chunked else Unsupported
    else if CONTENT_LENGTH in headers then
      match Leading(headers[CONTENT_LENGTH], 10) case None => NoBody case Some(n) => Length(n)
    else NoBody
  }

  /** One call, on the bytes buffered so far and the body collected so far. */
  function Handle(f: Framing, buffer: string, body: string): Session {
    match f
    case Refused => Session(Rejected, buffer, body)
    case NoBody => Session(Ready, buffer, body)
    case Unsupported => Session(Ignored, buffer, body)
    case Length(n) =>
      if |buffer| < n then Session(Waiting, buffer, body) else Session(Ready, buffer[n..], body + buffer[..n])
    case Chunked =>
      var p := Decode(buffer, body);
      Session(match p.verdict case NeedMore => Waiting case Bad => Rejected case Done => Ready, p.buffer, p.body)
  }

  //// The storage behind the buffer

  /** Erasing n bytes at the front of a vector moves the rest down and leaves the last n bytes
      of the storage as they were; this is what follows the new end. */
  function LeftBehind(buffer: string, n: nat, behind: string): string
    requires n <= |buffer|
  {
    buffer[|buffer| - n..] + behind
  }

  /** Byte by byte: what is kept moves down by n, and nothing behind it is touched. */
  lemma {:induction false} ErasingMovesDown(buffer: string, n: nat, behind: string, i: nat)
    requires n <= |buffer| && i < |buffer| + |behind|
    ensures var (before, after) := (buffer + behind, buffer[n..] + LeftBehind(buffer, n, behind));
      |after| == |before| && after[i] == if i < |buffer| - n then before[i + n] else before[i]
  {
  }

  function BehindChunks(buffer: string, behind: string): (r: string)
    ensures |Decode(buffer, "").buffer| + |r| == |buffer| + |behind|
    decreases |buffer|
  {
    match TurnOf(buffer)
    case Take(data, next) =>
      var left := LeftBehind(buffer, |buffer| - |next|, behind);
      if data == "" then left
      else
        BodyDoesNotMatter(next, "", "" + data);
        BehindChunks(next, left)
    case _ => behind
  }

  /** One turn of the chunked loop, on the buffer and what is behind it. */
  lemma {:induction false} BehindTurn(buffer: string, behind: string)
    ensures BehindChunks(buffer, behind) ==
      match TurnOf(buffer)
      case Take(data, next) =>
        var left := LeftBehind(buffer, |buffer| - |next|, behind);
        if data == "" then left else BehindChunks(next, left)
      case _ => behind
  {
  }

  lemma {:induction false} BodyDoesNotMatter(buffer: string, body: string, body': string)
    ensures Decode(buffer, body).buffer == Decode(buffer, body').buffer
    ensures Decode(buffer, body).verdict == Decode(buffer, body').verdict
    decreases |buffer|
  {
    var t := TurnOf(buffer);
    if t.Take? && t.data != "" {
      BodyDoesNotMatter(t.next, body + t.data, body' + t.data);
    }
  }

  /** What one call leaves behind the buffer. */
  function Behind(f: Framing, buffer: string, behind: string): string {
    match f
    case Length(n) => if |buffer| < n then behind else LeftBehind(buffer, n, behind)
    case Chunked => BehindChunks(buffer, behind)
    case _ => behind
  }

  lemma {:induction false} StorageIsKept(f: Framing, buffer: string, body: string, behind: string)
    ensures |Handle(f, buffer, body).buffer| + |Behind(f, buffer, behind)| == |buffer| + |behind|
  {
    if f.Chunked? {
      BodyDoesNotMatter(buffer, "", body);
    }
  }

  //// Read boundaries

  /** More bytes arrive: a waiting request is handled again, any other is left alone. */
  function Feed(f: Framing, s: Session, part: string): Session {
    if s.answer == Waiting then Handle(f, s.buffer + part, s.body) else s.(buffer := s.buffer + part)
  }

  function FeedAll(f: Framing, s: Session, parts: seq<string>): Session
    decreases |parts|
  {
    if parts == [] then s else FeedAll(f, Feed(f, s, parts[0]), parts[1..])
  }

  const START := Session(Waiting, "", "")

  lemma FeedTwice(f: Framing, s: Session, a: string, b: string)
    ensures Feed(f, Feed(f, s, a), b) == Feed(f, s, a + b)
  {
    Regroup(s.buffer, a, b);
    if s.answer == Waiting {
      HandleResumes(f, s.buffer + a, b, s.body);
    }
  }

  lemma HandleResumes(f: Framing, buffer: string, more: string, body: string)
    ensures Feed(f, Handle(f, buffer, body), more) == Handle(f, buffer + more, body)
  {
    match f
    case Chunked =>
      DecodeResumes(buffer, more, body);
    case Length(n) =>
      if |buffer| >= n {
        assert (buffer + more)[..n] == buffer[..n];
        assert (buffer + more)[n..] == buffer[n..] + more;
      }
    case _ =>
  }

  lemma {:induction false} FeedAllIsFeed(f: Framing, s: Session, parts: seq<string>)
    requires parts != []
    ensures FeedAll(f, s, parts) == Feed(f, s, Concat(parts))
    decreases |parts|
  {
    if |parts| == 1 {
      assert Concat(parts) == parts[0];
    } else {
      FeedAllIsFeed(f, Feed(f, s, parts[0]), parts[1..]);
      FeedTwice(f, s, parts[0], Concat(parts[1..]));
    }
  }

  /** However the bytes after the head are divided among repeated calls, the verdict, the body
      and what is left for the next request are those of one call on the whole. */
  lemma {:induction false} ReadBoundariesDoNotMatter(f: Framing, parts: seq<string>, parts': seq<string>)
    requires parts != [] && parts' != [] && Concat(parts) == Concat(parts')
    ensures FeedAll(f, START, parts) == FeedAll(f, START, parts')
  {
    FeedAllIsFeed(f, START, parts);
    FeedAllIsFeed(f, START, parts');
  }
}
