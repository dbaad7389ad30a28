/** `ClientInfo`, and what a worker does to it when bytes of its client have been read. */
module ClientConnection {
  import opened Text
  import opened Numbers
  import opened ChunkedBody
  import opened HttpRequest
  import opened PendingRequest

  /** A client between two reads: whether a request is pending, how its body travels, the
      buffer, the body so far, and how far the search for the end of a head has come. */
  datatype Client = Client(pending: bool, framing: Framing, buffer: string, body: string, seen: nat)

  /** What becomes of a client: closed, or still open, or bytes behind the end of its buffer
      would have to be erased. */
  datatype Fate = Closed | Astray | Open(client: Client)

  predicate IsCapital(c: char) {
    'A' <= c <= 'Z'
  }

  function FirstCapital(s: string): (i: nat)
    ensures i <= |s|
    ensures i < |s| ==> IsCapital(s[i])
    ensures forall j :: 0 <= j < i ==> !IsCapital(s[j])
  {
    if s == "" || IsCapital(s[0]) then 0 else 1 + FirstCapital(s[1..])
  }

  /** What handling a request needs of its head. */
  datatype Head = Head(method_: Method, headers: Headers)

  /** A reader of heads. What follows holds for any; HeadIn is the one of the server. */
  type Parser = string -> Option<Head>

  function HeadOf(text: string): Parsed {
    ParseHead(text, '\0', Version(1, 1), map[])
  }

  /** What `parse` makes of a chunk of storage, from its first capital letter on. */
  function HeadIn(chunk: string): Option<Head> {
    var i := FirstCapital(chunk);
    if i == |chunk| || HeadOf(chunk[i..]).Failed? then None
    else Some(Head(HeadOf(chunk[i..]).line.method_, HeadOf(chunk[i..]).headers))
  }

  /** A new request is handled with the bytes behind its head. */
  function Begin(f: Framing, bytes: string): Fate {
    var s := Handle(f, bytes, "");
    if s.answer == Rejected then Closed else Open(Client(s.answer != Ready, f, s.buffer, s.body, 0))
  }

  /** What follows when the search has found the end of a head at pos in the storage, of
      which the first size bytes are the buffer; head is what the parser makes of it. */
  function StartRequest(head: Option<Head>, storage: string, size: nat, pos: nat): Fate
    requires pos <= |storage| && size <= |storage|
  {
    if head.None? then Closed
    else if pos > size then Astray
    else Begin(FramingOf(head.value.method_, head.value.headers), storage[pos..size])
  }

  /** The pending request, if there is one, is handled with the new bytes. */
  function HandleMore(c: Client, part: string): Session {
    if c.pending then Handle(c.framing, c.buffer + part, c.body) else Session(Ready, c.buffer + part, c.body)
  }

  /** The storage of the buffer after that: the buffer, and what was left behind it. */
  function Storage(c: Client, part: string): string {
    HandleMore(c, part).buffer + if c.pending then Behind(c.framing, c.buffer + part, "") else ""
  }

  lemma {:induction false} StorageSize(c: Client, part: string)
    ensures |Storage(c, part)| == |c.buffer + part|
  {
    if c.pending {
      StorageIsKept(c.framing, c.buffer + part, c.body, "");
    }
  }

  /** The text that is searched: its bounds were fixed before the request was handled. */
  function Searched(c: Client, part: string): string
    requires c.seen <= |c.buffer|
  {
    StorageSize(c, part);
    Storage(c, part)[c.seen..]
  }

  /** Where the search of the storage from seen on ends. */
  function HeadEndFrom(storage: string, seen: nat): (pos: nat)
    requires seen <= |storage|
    ensures pos == |storage| || pos + 4 <= |storage|
    ensures pos == |storage| <==> NoHeadEnd(storage[seen..])
  {
    seen + FindHeadEnd(storage[seen..])
  }

  /** What follows when the search has stopped at pos. */
  function Continue(f: Framing, s: Session, storage: string, pos: nat, parse: Parser): Fate
    requires |s.buffer| <= |storage| && (pos == |storage| || pos + 4 <= |storage|)
  {
    if pos == |storage| then Open(Client(s.answer != Ready, f, s.buffer, s.body, |s.buffer|))
    else StartRequest(parse(storage[..pos + 4]), storage, |s.buffer|, pos + 4)
  }

  /** `handle_client` with the bytes it has read. */
  function OnRead(c: Client, part: string, parse: Parser): Fate
    requires c.seen <= |c.buffer|
  {
    var s := HandleMore(c, part);
    StorageSize(c, part);
    if s.answer == Rejected then Closed
    else Continue(c.framing, s, Storage(c, part), HeadEndFrom(Storage(c, part), c.seen), parse)
  }

  class ClientInfo {
    var buffer: string
    /** The storage behind the end of the buffer, as far as it still holds older bytes. */
    var behind: string
    var findLastPos: nat
    /** Method, headers and data of the pending request. */
    var method_: Method
    var headers: Headers
    var body: string
    var pending: bool
    const parse: Parser

    function Framing(): Framing
      reads this
    {
      FramingOf(method_, headers)
    }

    function Value(): Client
      reads this
    {
      Client(pending, Framing(), buffer, body, findLastPos)
    }

    constructor ()
      ensures buffer == "" && behind == "" && findLastPos == 0 && !pending && parse == HeadIn
    {
      buffer, behind, findLastPos, pending := "", "", 0, false;
      method_, headers, body, parse := InvalidMethod, map[], "", HeadIn;
    }

    /** `handle_client`, from where all there is to read has been read. */
    method HandleClient(part: string) returns (fate: Fate)
      requires findLastPos <= |buffer|
      modifies this
      ensures fate == OnRead(old(Value()), part, parse)
      ensures fate.Open? ==> Value() == fate.client && findLastPos <= |buffer|
    {
      StorageSize(Value(), part);
      var answer := TakeBytes(part);
      if answer == Rejected { return Closed; }
      fate := Proceed(answer, buffer + behind, HeadEndFrom(buffer + behind, findLastPos));
    }

    /** The search for the end of a head has stopped at pos. */
    method Proceed(answer: Answer, storage: string, pos: nat) returns (fate: Fate)
      requires storage == buffer + behind && pending == (answer != Ready)
      requires pos == |storage| || pos + 4 <= |storage|
      modifies this
      ensures fate == Continue(old(Framing()), Session(answer, old(buffer), old(body)), storage, pos, parse)
      ensures fate.Open? ==> Value() == fate.client && findLastPos <= |buffer|
    {
      if pos == |storage| {
        fate := KeepSearched();
      } else {
        fate := TakeHead(parse(storage[..pos + 4]), storage, pos + 4);
      }
    }

    /** All of the buffer has been searched. */
    method KeepSearched() returns (fate: Fate)
      modifies this`findLastPos
      ensures fate == Open(Client(pending, Framing(), buffer, body, |buffer|)) && fate.client == Value()
      ensures Framing() == old(Framing())
    {
      findLastPos := |buffer|;
      fate := Open(Value());
    }

    /** The new bytes go to the buffer, and a pending request is handled. */
    method TakeBytes(part: string) returns (answer: Answer)
      modifies this`buffer, this`behind, this`body, this`pending
      ensures Session(answer, buffer, body) == HandleMore(old(Value()), part)
      ensures buffer + behind == Storage(old(Value()), part)
      ensures pending == (answer != Ready)
    {
      buffer, behind := buffer + part, "";
      if pending {
        answer := HandlePendingRequest();
      } else {
        answer := Ready;
      }
    }

    /** The head that ends at pos becomes the pending request. */
    method TakeHead(head: Option<Head>, storage: string, pos: nat) returns (fate: Fate)
      requires storage == buffer + behind && pos <= |storage|
      modifies this
      ensures fate == StartRequest(head, storage, old(|buffer|), pos)
      ensures fate.Open? ==> Value() == fate.client && findLastPos <= |buffer|
    {
      if head.None? { return Closed; }
      method_, headers, body := head.value.method_, head.value.headers, "";
      if pos > |buffer| { return Astray; }
      assert storage[pos..|buffer|] == buffer[pos..];
      fate := BeginRequest(pos);
    }

    method BeginRequest(pos: nat) returns (fate: Fate)
      requires pos <= |buffer| && body == ""
      modifies this`buffer, this`behind, this`body, this`pending, this`findLastPos
      ensures fate == Begin(Framing(), old(buffer)[pos..])
      ensures fate.Open? ==> Value() == fate.client && findLastPos <= |buffer|
    {
      Erase(pos);
      findLastPos, pending := 0, true;
      var answer := HandlePendingRequest();
      fate := if answer == Rejected then Closed else Open(Value());
    }

    method Erase(n: nat)
      requires n <= |buffer|
      modifies this`buffer, this`behind
      ensures buffer == old(buffer)[n..] && behind == LeftBehind(old(buffer), n, old(behind))
    {
      buffer, behind := buffer[n..], buffer[|buffer| - n..] + behind;
    }

    method HandlePendingRequest() returns (answer: Answer)
      modifies this`buffer, this`behind, this`body, this`pending
      ensures Session(answer, buffer, body) == Handle(Framing(), old(buffer), old(body))
      ensures behind == Behind(Framing(), old(buffer), old(behind))
      ensures pending == (old(pending) && answer != Ready)
    {
      if method_ == InvalidMethod { return Ignored; }
      if !HasBody(method_) {
        if CONTENT_LENGTH in headers || TRANSFER_ENCODING in headers { return Rejected; }
        pending := false;
        return Ready;
      }
      if TRANSFER_ENCODING in headers {
        if headers[TRANSFER_ENCODING] != "chunked" { return Ignored; }
        answer := ReadChunks();
        if answer == Ready { pending := false; }
        return;
      }
      if CONTENT_LENGTH in headers {
        var length := Leading(headers[CONTENT_LENGTH], 10);
        if length.Some? {
          if |buffer| < length.value { return Waiting; }
          body := body + buffer[..length.value];
          Erase(length.value);
        }
      }
      pending := false;
      return Ready;
    }

    /** The chunked loop. */
    method ReadChunks() returns (answer: Answer)
      modifies this`buffer, this`behind, this`body
      ensures Session(answer, buffer, body) == Handle(Chunked, old(buffer), old(body))
      ensures behind == BehindChunks(old(buffer), old(behind))
    {
      ghost var goal, left := Decode(buffer, body), BehindChunks(buffer, behind);
      while true
        invariant goal == Decode(buffer, body) && left == BehindChunks(buffer, behind)
        decreases |buffer|
      {
        BehindTurn(buffer, behind);
        assert body + "" == body;
        var turn := ReadChunk();
        if turn.Short? { return Waiting; }
        if turn.NoSize? || turn.NoEnd? { return Rejected; }
        if turn.data == "" { return Ready; }
      }
    }

    /** One turn: takes a size line, its data and two CR LF off the buffer. Data that does not
        end with CR LF is in the body already when that is noticed. */
    method ReadChunk() returns (turn: Turn)
      modifies this`buffer, this`behind, this`body
      ensures turn == TurnOf(old(buffer))
      ensures buffer == if turn.Take? then turn.next else old(buffer)
      ensures behind == if turn.Take? then LeftBehind(old(buffer), |old(buffer)| - |turn.next|, old(behind)) else old(behind)
      ensures body == if turn.Take? || turn.NoEnd? then old(body) + turn.data else old(body)
    {
      var pos := FindCrlf(buffer);
      if pos == |buffer| { return Short; }
      var size := Leading(buffer[..pos], 16);
      if size.None? { return NoSize; }
      var count := size.value;
      if |buffer| - 4 - count - pos < 0 { return Short; }
      var data := buffer[pos + 2..pos + 2 + count];
      body := body + data;
      if buffer[pos + 2 + count..pos + 4 + count] != CRLF { return NoEnd(data); }
      Erase(pos + 4 + count);
      return Take(data, buffer);
    }

    /** The chunked loop as it is compiled; None if it reads behind the buffer. */
    method ReadChunksCompiled() returns (answer: Option<Answer>)
      modifies this`buffer, this`behind, this`body
      ensures match DecodeCompiled(old(buffer), old(body))
              case Outside => answer == None
              case Inside(p) =>
                && answer == Some(match p.verdict case NeedMore => Waiting case Bad => Rejected case Done => Ready)
                && buffer == p.buffer && body == p.body
    {
      ghost var goal := DecodeCompiled(buffer, body);
      while true
        invariant goal == DecodeCompiled(buffer, body)
        decreases |buffer|
      {
        assert body + "" == body;
        var turn := ReadChunkCompiled();
        if turn.None? { return None; }
        if turn.value.Short? { return Some(Waiting); }
        if turn.value.NoSize? || turn.value.NoEnd? { return Some(Rejected); }
        if turn.value.data == "" { return Some(Ready); }
      }
    }

    /** One turn, with the guard on 64 bits without sign. */
    method ReadChunkCompiled() returns (turn: Option<Turn>)
      modifies this`buffer, this`behind, this`body
      ensures turn == CompiledTurn(old(buffer))
      ensures turn.Some? ==> buffer == if turn.value.Take? then turn.value.next else old(buffer)
      ensures turn.Some? ==>
                body == if turn.value.Take? || turn.value.NoEnd? then old(body) + turn.value.data else old(body)
    {
      var pos := FindCrlf(buffer);
      if pos == |buffer| { return Some(Short); }
      var size := Leading(buffer[..pos], 16);
      if size.None? { return Some(NoSize); }
      var count := size.value;
      if (|buffer| - 4 - count - pos) % 0x1_0000_0000_0000_0000 < 0 { return Some(Short); }
      var end := pos + 2 + count;
      if count != 0 {
        if |buffer| < end { return None; }
        body := body + buffer[pos + 2..end];
      }
      assert |buffer| >= end ==> old(body) + buffer[pos + 2..end] == body;
      if |buffer| <= end { return None; }
      if buffer[end] != '\r' { return Some(NoEnd(buffer[pos + 2..end])); }
      if |buffer| == end + 1 { return None; }
      if buffer[end + 1] != '\n' { return Some(NoEnd(buffer[pos + 2..end])); }
      var data := buffer[pos + 2..end];
      Erase(end + 2);
      return Some(Take(data, buffer));
    }
  }

  /** The reader of heads is `parse` on a new request. */
  method ReadHead(dataChunk: string, beyond: char) returns (request: HTTPRequest, ok: bool)
    ensures ok <==> HeadIn(dataChunk).Some?
    ensures ok ==> Some(Head(request.method_, request.headers)) == HeadIn(dataChunk)
  {
    request := new HTTPRequest();
    var i := FirstCapital(dataChunk);
    if i == |dataChunk| { return request, false; }
    var code := request.Parse(dataChunk[i..], beyond);
    ByteBehindHead(dataChunk[i..], beyond);
    ok := code == Success;
  }

  /** The byte behind a head matters to the decoding of its URL only. */
  lemma ByteBehindHead(text: string, beyond: char)
    ensures var (p, q) := (ParseHead(text, beyond, Version(1, 1), map[]), HeadOf(text));
      && (p.Failed? <==> q.Failed?)
      && (p.Parsed? ==> p.line.method_ == q.line.method_ && p.headers == q.headers)
  {
    ByteBehindLine(text, beyond);
  }

  lemma ByteBehindLine(text: string, beyond: char)
    ensures var (p, q) := (ParseRequestLine(text, beyond, Version(1, 1)), ParseRequestLine(text, '\0', Version(1, 1)));
      if p.BadRequest? then p == q else q.RequestLine? && p.(behind := '\0') == q.(behind := '\0')
  {
  }
}
