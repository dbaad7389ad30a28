/** What becomes of a request from its first byte to the handler. */
module RequestServing {
  import opened Text
  import opened Numbers
  import opened ChunkedBody
  import opened HttpRequest
  import opened HttpReading
  import opened PendingRequest
  import opened ClientConnection
  import opened ClientReads

  //// Which answer a request gets

  /** Methods whose requests have no body: either header that would announce one is refused. */
  lemma BodilessAnswer(m: Method, h: Headers, buffer: string, body: string)
    requires m in {GET, HEAD, OPTIONS, CONNECT, TRACE}
    ensures Handle(FramingOf(m, h), buffer, body) ==
      Session(if "Transfer-Encoding" in h || "Content-Length" in h then Rejected else Ready, buffer, body)
  {
  }

  /** Methods with a body: a transfer coding counts before a length; only "chunked" is
      supported, any other leaves the request for ever. Without either header there is nothing
      to wait for. */
  lemma CodedAnswer(m: Method, h: Headers, buffer: string, body: string)
    requires m in {PUT, PATCH, DELETE, POST}
    ensures "Transfer-Encoding" in h && h["Transfer-Encoding"] == "chunked" ==>
      var p := Decode(buffer, body);
      Handle(FramingOf(m, h), buffer, body) ==
        Session(match p.verdict case NeedMore => Waiting case Bad => Rejected case Done => Ready, p.buffer, p.body)
    ensures "Transfer-Encoding" in h && h["Transfer-Encoding"] != "chunked" ==>
      Handle(FramingOf(m, h), buffer, body) == Session(Ignored, buffer, body)
    ensures "Transfer-Encoding" !in h && "Content-Length" !in h ==>
      Handle(FramingOf(m, h), buffer, body) == Session(Ready, buffer, body)
  {
  }

  /** A length is the number its text starts with; exactly that many bytes are taken. */
  lemma LengthAnswer(m: Method, h: Headers, digits: string, tail: string, n: nat, buffer: string, body: string)
    requires m in {PUT, PATCH, DELETE, POST} && "Transfer-Encoding" !in h
    requires "Content-Length" in h && h["Content-Length"] == digits + tail
    requires Spells(digits, n, 10) && (tail == "" || IsNoDigit(tail[0], 10))
    ensures Handle(FramingOf(m, h), buffer, body) ==
      if |buffer| < n then Session(Waiting, buffer, body) else Session(Ready, buffer[n..], body + buffer[..n])
  {
    LeadingIsSpelled(digits, tail, n, 10);
  }

  /** A length that does not start with a digit is as good as none. */
  lemma NoLengthAnswer(m: Method, h: Headers, buffer: string, body: string)
    requires m in {PUT, PATCH, DELETE, POST} && "Transfer-Encoding" !in h && "Content-Length" in h
    requires h["Content-Length"] == "" || IsNoDigit(h["Content-Length"][0], 10)
    ensures Handle(FramingOf(m, h), buffer, body) == Session(Ready, buffer, body)
  {
    if h["Content-Length"] != "" { NoDigitIsRead(h["Content-Length"][0], 10); }
  }

  //// Where a head ends

  lemma HeadEndShift(front: string, s: string, i: nat)
    ensures HeadEndAt(front + s, |front| + i) <==> HeadEndAt(s, i)
  {
    assert forall j :: 0 <= j < |s| ==> (front + s)[|front| + j] == s[j];
  }

  lemma FindHeadEndIs(s: string, i: nat)
    requires i <= |s| && (i < |s| ==> HeadEndAt(s, i)) && forall j: nat :: j < i ==> !HeadEndAt(s, j)
    ensures FindHeadEnd(s) == i
  {
  }

  lemma {:induction false} NoneInLine(line: string, rest: string, j: nat)
    requires NoCrlf(line) && HeadEndAt(line + CRLF + rest, j)
    ensures j >= |line| && (j == |line| ==> CrlfAt(rest, 0)) && j != |line| + 1
  {
    var s := line + CRLF + rest;
    FindCrlfAfterLine(line, rest);
    assert CrlfAt(s, j) && s[|line|] == '\r' && s[|line| + 1] == '\n';
    if j == |line| {
      assert s[j + 2] == rest[0] && s[j + 3] == rest[1];
    }
  }

  /** The head ends at a line that another CR LF follows, and else behind it. */
  lemma {:induction false} HeadEndAfterLine(line: string, rest: string)
    requires NoCrlf(line)
    ensures FindHeadEnd(line + CRLF + rest) == if CrlfAt(rest, 0) then |line| else |line| + 2 + FindHeadEnd(rest)
  {
    var s := line + CRLF + rest;
    if CrlfAt(rest, 0) {
      assert s[|line|] == '\r' && s[|line| + 1] == '\n' && s[|line| + 2] == rest[0] && s[|line| + 3] == rest[1];
      forall j: nat | j < |line| ensures !HeadEndAt(s, j) {
        if HeadEndAt(s, j) { NoneInLine(line, rest, j); }
      }
      FindHeadEndIs(s, |line|);
    } else {
      forall j: nat | j < |line| + 2 + FindHeadEnd(rest) ensures !HeadEndAt(s, j) {
        if HeadEndAt(s, j) {
          NoneInLine(line, rest, j);
          HeadEndShift(line + CRLF, rest, j - |line| - 2);
        }
      }
      HeadEndShift(line + CRLF, rest, FindHeadEnd(rest));
      FindHeadEndIs(s, |line| + 2 + FindHeadEnd(rest));
    }
  }

  lemma {:induction false} HeadEndAfterLines(line: string, fs: seq<FieldLine>, bytes: string)
    requires NoCrlf(line) && AreWritten(fs)
    ensures FindHeadEnd(line + CRLF + (LinesText(fs) + (CRLF + bytes))) == |line| + |LinesText(fs)|
    decreases |fs|
  {
    if fs == [] {
      assert LinesText(fs) + (CRLF + bytes) == CRLF + bytes;
      assert CrlfAt(CRLF + bytes, 0);
      HeadEndAfterLine(line, CRLF + bytes);
    } else {
      var l := LineText(fs[0]);
      var rest := LinesText(fs[1..]) + (CRLF + bytes);
      LineIsRead(fs[0]);
      HeadEndAfterLines(l, fs[1..], bytes);
      Regroup(l + CRLF, LinesText(fs[1..]), CRLF + bytes);
      LineStarts(l, rest);
      HeadEndAfterLine(line, l + CRLF + rest);
    }
  }

  lemma LineStarts(line: string, rest: string)
    requires line != "" && NoCrlf(line)
    ensures !CrlfAt(line + CRLF + rest, 0)
  {
    FindCrlfAfterLine(line, rest);
  }

  lemma {:induction false} NoCrlfAround(a: string, c: char, b: string)
    requires NoCrlf(a) && NoCrlf(b) && c != '\r' && c != '\n'
    ensures NoCrlf(a + [c] + b)
  {
    var s := a + [c] + b;
    forall i: nat | i < |s| ensures !CrlfAt(s, i) {
      if i <= |a| {
        assert !CrlfAt(a, i);
        assert i < |a| ==> s[i] == a[i] && s[i + 1] == if i + 1 < |a| then a[i + 1] else c;
        assert s[|a|] == c;
      } else {
        assert !CrlfAt(b, i - |a| - 1);
        assert s[i] == b[i - |a| - 1] && (i + 1 < |s| ==> s[i + 1] == b[i - |a|]);
      }
    }
    FindCrlfIs(s, |s|);
  }

  lemma NoCrlfWithoutCr(s: string)
    requires '\r' !in s
    ensures NoCrlf(s)
  {
    forall i: nat ensures !CrlfAt(s, i) {
    }
    FindCrlfIs(s, |s|);
  }

  //// A request on its connection

  /** A request head as a client writes it; major and minor spell n and k. */
  datatype WrittenHead = WrittenHead(
    method_: Method, target: string, major: string, n: nat, minor: Option<string>, k: nat, fields: seq<FieldLine>)

  ghost predicate IsHead(x: WrittenHead) {
    && ' ' !in x.target && NoCrlf(x.target) && AreWritten(x.fields)
    && Spells(x.major, x.n, 10) && (x.minor.Some? ==> Spells(x.minor.value, x.k, 10))
  }

  function HeadText(x: WrittenHead): string {
    RequestText(x.method_, x.target, VersionLine(x.major, x.minor), x.fields)
  }

  /** The heads that `parse` takes. */
  predicate IsTaken(x: WrittenHead) {
    x.method_ != TRACE && x.method_ != InvalidMethod && !SomeGapTooWide(x.fields)
  }

  /** Bytes that may stand in front of a head: no capital letter and no CR. */
  predicate IsLeading(junk: string) {
    forall i :: 0 <= i < |junk| ==> !('A' <= junk[i] <= 'Z') && junk[i] != '\r'
  }

  lemma CapitalLetters(c: char)
    ensures IsCapital(c) <==> c in "ABCDEFGHIJKLMNOPQRSTUVWXYZ"
  {
    LettersAndDigits(c);
  }

  function FirstLine(x: WrittenHead): string {
    MethodString(x.method_) + " " + (x.target + " " + VersionLine(x.major, x.minor))
  }

  lemma {:induction false} VersionHasNoCr(major: string, n: nat, minor: Option<string>, k: nat)
    requires Spells(major, n, 10) && (minor.Some? ==> Spells(minor.value, k, 10))
    ensures '\r' !in VersionLine(major, minor)
  {
    SpelledValue(major, n, 10);
    if minor.Some? { SpelledValue(minor.value, k, 10); }
    assert '\r' !in major && (minor.Some? ==> '\r' !in minor.value);
  }

  lemma {:induction false} FirstLineIsLine(junk: string, x: WrittenHead)
    requires IsHead(x) && IsLeading(junk)
    ensures NoCrlf(junk + FirstLine(x))
  {
    var version := VersionLine(x.major, x.minor);
    VersionHasNoCr(x.major, x.n, x.minor, x.k);
    NoCrlfWithoutCr(version);
    NoCrlfAround(x.target, ' ', version);
    var front := junk + MethodString(x.method_);
    assert '\r' !in MethodString(x.method_);
    NoCrlfWithoutCr(front);
    NoCrlfAround(front, ' ', x.target + " " + version);
    assert junk + FirstLine(x) == front + " " + (x.target + " " + version);
  }

  lemma HeadInLines(x: WrittenHead)
    ensures HeadText(x) == FirstLine(x) + CRLF + (LinesText(x.fields) + CRLF)
  {
    var version, end := VersionLine(x.major, x.minor), CRLF + (LinesText(x.fields) + CRLF);
    Regroup(x.target + " ", version, end);
    Regroup(MethodString(x.method_) + " ", x.target + " " + version, end);
    Regroup(FirstLine(x), CRLF, LinesText(x.fields) + CRLF);
  }

  lemma {:induction false} HeadEndsAtItsEnd(junk: string, x: WrittenHead, bytes: string)
    requires IsHead(x) && IsLeading(junk)
    ensures FindHeadEnd(junk + HeadText(x) + bytes) + 4 == |junk + HeadText(x)|
  {
    FirstLineIsLine(junk, x);
    HeadEndAfterLines(junk + FirstLine(x), x.fields, bytes);
    HeadInAll(junk, x, bytes);
  }

  lemma HeadInAll(junk: string, x: WrittenHead, bytes: string)
    ensures junk + HeadText(x) + bytes == (junk + FirstLine(x)) + CRLF + (LinesText(x.fields) + (CRLF + bytes))
    ensures |junk + HeadText(x)| == |junk + FirstLine(x)| + |LinesText(x.fields)| + 4
  {
    var line, fields := junk + FirstLine(x), LinesText(x.fields);
    HeadInLines(x);
    Regroup(junk, FirstLine(x) + CRLF, fields + CRLF);
    Regroup(junk, FirstLine(x), CRLF);
    Regroup(line + CRLF, fields + CRLF, bytes);
    Regroup(fields, CRLF, bytes);
  }

  lemma HeadEndBehind(s: string, seen: nat, i: nat)
    requires seen <= |s|
    ensures HeadEndAt(s[seen..], i) <==> HeadEndAt(s, seen + i)
  {
  }

  lemma {:induction false} SearchFinds(s: string, seen: nat)
    requires FindHeadEnd(s) < |s| && seen <= FindHeadEnd(s)
    ensures HeadEndFrom(s, seen) == FindHeadEnd(s)
  {
    var p, t := FindHeadEnd(s), s[seen..];
    HeadEndBehind(s, seen, p - seen);
    forall j: nat | j < p - seen ensures !HeadEndAt(t, j) {
      HeadEndBehind(s, seen, j);
    }
    FindHeadEndIs(t, p - seen);
  }

  lemma {:induction false} CapitalBehind(junk: string, text: string)
    requires IsLeading(junk) && text != "" && IsCapital(text[0])
    ensures FirstCapital(junk + text) == |junk| && (junk + text)[|junk|..] == text
    decreases |junk|
  {
    if junk == "" {
      assert junk + text == text;
    } else {
      assert (junk + text)[1..] == junk[1..] + text;
      CapitalBehind(junk[1..], text);
    }
  }

  lemma {:induction false} HeadIsRead(junk: string, x: WrittenHead)
    requires IsHead(x) && IsLeading(junk)
    ensures HeadIn(junk + HeadText(x)) ==
      if IsTaken(x) then Some(Head(x.method_, HeadersOf(x.fields))) else None
  {
    assert IsCapital(MethodString(x.method_)[0]) && HeadText(x)[0] == MethodString(x.method_)[0];
    CapitalBehind(junk, HeadText(x));
    WrittenIsParsed(x.method_, x.target, x.major, x.n, x.minor, x.k, x.fields, Version(1, 1), '\0');
  }

  /** An idle client has bytes in its buffer whose search has not come past the end of x. */
  predicate Receives(c: Client, part: string, junk: string, x: WrittenHead, bytes: string) {
    && !c.pending && c.seen <= |c.buffer| && IsLeading(junk)
    && c.buffer + part == junk + HeadText(x) + bytes
    && c.seen + 4 <= |junk + HeadText(x)|
  }

  /** Main result: when a read completes a head, the client is closed if it cannot be parsed;
      otherwise its request is handled with exactly the bytes behind it. */
  lemma {:induction false} HeadIsHandled(c: Client, part: string, junk: string, x: WrittenHead, bytes: string)
    requires IsHead(x) && Receives(c, part, junk, x, bytes)
    ensures OnRead(c, part, HeadIn) ==
      if IsTaken(x) then Begin(FramingOf(x.method_, HeadersOf(x.fields)), bytes) else Closed
  {
    var storage, pos := junk + HeadText(x) + bytes, |junk + HeadText(x)|;
    HeadEndsAtItsEnd(junk, x, bytes);
    SearchFinds(storage, c.seen);
    assert storage[..pos] == junk + HeadText(x) && storage[pos..|storage|] == bytes;
    HeadIsRead(junk, x);
    StartsWithBytes(c, part, storage, pos, junk + HeadText(x), bytes, HeadIn);
  }

  lemma {:induction false} StartsWithBytes(
    c: Client, part: string, storage: string, pos: nat, chunk: string, bytes: string, parse: Parser)
    requires !c.pending && c.seen <= |c.buffer| && storage == c.buffer + part
    requires 4 <= pos <= |storage| && HeadEndFrom(storage, c.seen) == pos - 4
    requires storage[..pos] == chunk && storage[pos..|storage|] == bytes
    ensures OnRead(c, part, parse) ==
      match parse(chunk) case None => Closed case Some(head) => Begin(FramingOf(head.method_, head.headers), bytes)
  {
    IdleRead(c, part, parse);
    FoundHead(c.framing, Session(Ready, storage, c.body), storage, pos, parse);
  }

  lemma {:induction false} IdleRead(c: Client, part: string, parse: Parser)
    requires !c.pending && c.seen <= |c.buffer|
    ensures var storage := c.buffer + part;
      OnRead(c, part, parse) ==
        Continue(c.framing, Session(Ready, storage, c.body), storage, HeadEndFrom(storage, c.seen), parse)
  {
    IdleStorage(c, part);
  }

  lemma IdleStorage(c: Client, part: string)
    requires !c.pending
    ensures Storage(c, part) == c.buffer + part && HandleMore(c, part) == Session(Ready, c.buffer + part, c.body)
  {
  }

  lemma {:induction false} FoundHead(f: Framing, s: Session, storage: string, pos: nat, parse: Parser)
    requires s.buffer == storage && 4 <= pos <= |storage|
    ensures Continue(f, s, storage, pos - 4, parse) ==
      match parse(storage[..pos])
      case None => Closed
      case Some(head) => Begin(FramingOf(head.method_, head.headers), storage[pos..|storage|])
  {
  }

  //// Served, or waiting

  /** The handler gets its request with this body, and these bytes are left. */
  predicate IsServed(r: Fate, body: string, rest: string) {
    r.Open? && !r.client.pending && r.client.body == body && r.client.buffer == rest
  }

  /** The request waits, with this much of its body and these bytes unread. */
  predicate IsWaiting(r: Fate, body: string, bytes: string) {
    r.Open? && r.client.pending && r.client.body == body && r.client.buffer == bytes
  }

  ghost predicate StatesLength(h: Headers, n: nat) {
    && "Transfer-Encoding" !in h && "Content-Length" in h
    && Spells(h["Content-Length"], n, 10)
  }

  /** A request with a length is served with exactly that many bytes, and leaves the rest; with
      fewer it waits for more and loses none. */
  lemma {:induction false} LengthIsServed(c: Client, part: string, junk: string, x: WrittenHead, n: nat, bytes: string)
    requires IsHead(x) && IsTaken(x) && Receives(c, part, junk, x, bytes)
    requires x.method_ in {PUT, PATCH, DELETE, POST} && StatesLength(HeadersOf(x.fields), n)
    ensures var r := OnRead(c, part, HeadIn);
      if |bytes| < n then IsWaiting(r, "", bytes) && r.client.framing == Length(n) else IsServed(r, bytes[..n], bytes[n..])
  {
    var h := HeadersOf(x.fields);
    HeadIsHandled(c, part, junk, x, bytes);
    assert h["Content-Length"] + "" == h["Content-Length"];
    LengthAnswer(x.method_, h, h["Content-Length"], "", n, bytes, "");
    LeadingIsSpelled(h["Content-Length"], "", n, 10);
    assert |bytes| >= n ==> "" + bytes[..n] == bytes[..n];
  }

  predicate IsChunkedRequest(h: Headers) {
    "Transfer-Encoding" in h && h["Transfer-Encoding"] == "chunked"
  }

  /** A chunked request is served with the data of its chunks, and leaves the rest. */
  lemma {:induction false} ChunksAreServed(
    c: Client, part: string, junk: string, x: WrittenHead, parts: seq<string>, lines: seq<string>, end: string, rest: string)
    requires AreSized(parts, lines) && SizeLine(end, 0)
    requires IsHead(x) && IsTaken(x)
    requires Receives(c, part, junk, x, Wire(Encode(parts, lines)) + (end + CRLF + CRLF + rest))
    requires x.method_ in {PUT, PATCH, DELETE, POST} && IsChunkedRequest(HeadersOf(x.fields))
    ensures IsServed(OnRead(c, part, HeadIn), Concat(parts), rest)
  {
    var bytes := Wire(Encode(parts, lines)) + (end + CRLF + CRLF + rest);
    HeadIsHandled(c, part, junk, x, bytes);
    CodedAnswer(x.method_, HeadersOf(x.fields), bytes, "");
    DecodeUndoesEncode(parts, lines, end, rest);
  }

  /** Cut inside a size line, it waits with the data of the whole chunks. */
  lemma {:induction false} CutChunksWait(
    c: Client, part: string, junk: string, x: WrittenHead, parts: seq<string>, lines: seq<string>, line: string)
    requires AreSized(parts, lines) && NoCrlf(line)
    requires IsHead(x) && IsTaken(x) && Receives(c, part, junk, x, Wire(Encode(parts, lines)) + line)
    requires x.method_ in {PUT, PATCH, DELETE, POST} && IsChunkedRequest(HeadersOf(x.fields))
    ensures IsWaiting(OnRead(c, part, HeadIn), Concat(parts), line)
  {
    var bytes := Wire(Encode(parts, lines)) + line;
    HeadIsHandled(c, part, junk, x, bytes);
    CodedAnswer(x.method_, HeadersOf(x.fields), bytes, "");
    CutChunks(parts, lines, line);
  }

  lemma {:induction false} CutChunks(parts: seq<string>, lines: seq<string>, line: string)
    requires AreSized(parts, lines) && NoCrlf(line)
    ensures Decode(Wire(Encode(parts, lines)) + line, "") == Progress(NeedMore, line, Concat(parts))
  {
    var chunks := Encode(parts, lines);
    forall i | 0 <= i < |chunks| ensures chunks[i].data != "" && IsChunk(chunks[i]) {
      ChunkIsSized(chunks[i]);
    }
    ChunksAreDecoded(chunks, line, "");
    EncodedData(parts, lines);
    assert "" + Concat(parts) == Concat(parts);
    assert TurnOf(line).Short?;
  }

  /** A request without a body is served at once, whatever follows it; one that announces a
      body although its method has none closes the client. */
  lemma {:induction false} BodilessIsServed(c: Client, part: string, junk: string, x: WrittenHead, rest: string)
    requires IsHead(x) && IsTaken(x) && Receives(c, part, junk, x, rest)
    requires x.method_ in {GET, HEAD, OPTIONS, CONNECT}
    ensures var h := HeadersOf(x.fields);
      if "Transfer-Encoding" in h || "Content-Length" in h then OnRead(c, part, HeadIn) == Closed
      else IsServed(OnRead(c, part, HeadIn), "", rest)
  {
    HeadIsHandled(c, part, junk, x, rest);
    BodilessAnswer(x.method_, HeadersOf(x.fields), rest, "");
  }

  //// The body may come in further reads

  lemma {:induction false} FollowedFrom(c: Client, parts: seq<string>, parse: Parser)
    requires c.seen <= |c.buffer| && c.pending && parts != [] && Undisturbed(c, parts)
    ensures Reads(Open(c), parts, parse) == FateOf(c.framing, FeedAll(c.framing, SessionOf(c), parts))
  {
    ReadIsFeed(c, parts[0], parse);
    var s := Fed(c, parts[0]);
    if s.answer == Rejected {
      RejectedStays(c.framing, s, parts[1..]);
    } else {
      FollowedTo(c.framing, s, parts[1..], parse);
    }
  }

  /** A waiting request is served with its n bytes when the reads that bring them disturb
      nothing, however they are cut. */
  lemma {:induction false} RestOfBodyIsServed(c: Client, n: nat, parts: seq<string>, body: string, rest: string)
    requires c.seen <= |c.buffer| && c.pending && c.framing == Length(n) && c.body == ""
    requires |body| == n && parts != [] && c.buffer + Concat(parts) == body + rest && Undisturbed(c, parts)
    ensures IsServed(Reads(Open(c), parts, HeadIn), body, rest)
  {
    FollowedFrom(c, parts, HeadIn);
    FeedAllIsFeed(c.framing, SessionOf(c), parts);
    assert (body + rest)[..n] == body && (body + rest)[n..] == rest && "" + body == body;
  }
}
