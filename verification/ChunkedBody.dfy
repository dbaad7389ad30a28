/** Reading the body of a pending request: `handle_pending_request` on the connection buffer,
    which may stop at any byte and go on when more bytes have arrived. */
module ChunkedBody {
  import opened Text
  import opened Numbers

  datatype Verdict = NeedMore | Bad | Done

  /** Where decoding stands: what is left of the buffer, and the body so far. */
  datatype Progress = Progress(verdict: Verdict, buffer: string, body: string)

  /** What one turn of the loop meets: too few bytes, no size, data that does not end with
      CR LF, or a chunk and the bytes behind it. */
  datatype Turn = Short | NoSize | NoEnd(data: string) | Take(data: string, next: string)

  /** The turn, when the first line of the buffer ends at pos and gives this size. */
  function TurnAt(buffer: string, pos: nat, size: Option<nat>): (t: Turn)
    requires pos + 2 <= |buffer|
    ensures t.Take? ==> |t.next| + |t.data| + 4 <= |buffer|
  {
    match size
    case None => NoSize
    case Some(count) =>
      if |buffer| < pos + 4 + count then Short
      else if buffer[pos + 2 + count..pos + 4 + count] != CRLF then NoEnd(buffer[pos + 2..pos + 2 + count])
      else Take(buffer[pos + 2..pos + 2 + count], buffer[pos + 4 + count..])
  }

  function TurnOf(buffer: string): (t: Turn)
    ensures t.Take? ==> |t.next| + |t.data| + 4 <= |buffer|
  {
    var pos := FindCrlf(buffer);
    if pos == |buffer| then Short else TurnAt(buffer, pos, Leading(buffer[..pos], 16))
  }

  /** The effect of the chunked loop on a buffer and a body. */
  function Decode(buffer: string, body: string): Progress
    decreases |buffer|
  {
    match TurnOf(buffer)
    case Short => Progress(NeedMore, buffer, body)
    case NoSize => Progress(Bad, buffer, body)
    case NoEnd(data) => Progress(Bad, buffer, body + data)
    case Take(data, next) => if data == "" then Progress(Done, next, body) else Decode(next, body + data)
  }

  //// Read boundaries

  lemma TurnAtWithMore(buffer: string, more: string, pos: nat, size: Option<nat>)
    requires pos + 2 <= |buffer| && !TurnAt(buffer, pos, size).Short?
    ensures TurnAt(buffer + more, pos, size) ==
      match TurnAt(buffer, pos, size) case Take(data, next) => Take(data, next + more) case t => t
  {
    if size.Some? {
      var all, count := buffer + more, size.value;
      assert all[pos + 2..pos + 2 + count] == buffer[pos + 2..pos + 2 + count];
      assert all[pos + 2 + count..pos + 4 + count] == buffer[pos + 2 + count..pos + 4 + count];
      assert all[pos + 4 + count..] == buffer[pos + 4 + count..] + more;
    }
  }

  lemma TurnWithMore(buffer: string, more: string)
    requires !TurnOf(buffer).Short?
    ensures TurnOf(buffer + more) ==
      match TurnOf(buffer) case Take(data, next) => Take(data, next + more) case t => t
  {
    var pos := FindCrlf(buffer);
    FindCrlfPrefix(buffer, more);
    assert (buffer + more)[..pos] == buffer[..pos];
    TurnAtWithMore(buffer, more, pos, Leading(buffer[..pos], 16));
  }

  /** Decoding goes on with more bytes exactly as if they had been there from the start. */
  lemma {:induction false} DecodeResumes(buffer: string, more: string, body: string)
    ensures var p := Decode(buffer, body);
      Decode(buffer + more, body) ==
        if p.verdict == NeedMore then Decode(p.buffer + more, p.body)
        else p.(buffer := p.buffer + more)
    decreases |buffer|
  {
    var t := TurnOf(buffer);
    if !t.Short? {
      TurnWithMore(buffer, more);
      if t.Take? && t.data != "" {
        DecodeResumes(t.next, more, body + t.data);
      }
    }
  }

  //// What is decoded

  /** A chunk as it travels: the size line, possibly with an extension, and the data. */
  datatype Chunk = Chunk(line: string, data: string)

  predicate IsChunk(c: Chunk) {
    NoCrlf(c.line) && Leading(c.line, 16) == Some(|c.data|)
  }

  predicate AreChunks(chunks: seq<Chunk>) {
    forall i :: 0 <= i < |chunks| ==> chunks[i].data != "" && IsChunk(chunks[i])
  }

  predicate IsLast(c: Chunk) {
    c.data == "" && IsChunk(c)
  }

  function Frame(c: Chunk): string {
    c.line + CRLF + c.data + CRLF
  }

  function Wire(chunks: seq<Chunk>): string {
    if chunks == [] then "" else Frame(chunks[0]) + Wire(chunks[1..])
  }

  function Data(chunks: seq<Chunk>): string {
    if chunks == [] then "" else chunks[0].data + Data(chunks[1..])
  }

  lemma FrameIsTaken(c: Chunk, rest: string)
    ensures TurnAt(Frame(c) + rest, |c.line|, Some(|c.data|)) == Take(c.data, rest)
  {
    var buffer := Frame(c) + rest;
    var pos, count := |c.line|, |c.data|;
    assert buffer[pos + 2..pos + 2 + count] == c.data;
    assert buffer[pos + 2 + count..pos + 4 + count] == CRLF;
    assert buffer[pos + 4 + count..] == rest;
  }

  lemma FirstChunk(c: Chunk, rest: string)
    requires IsChunk(c)
    ensures TurnOf(Frame(c) + rest) == Take(c.data, rest)
  {
    FrameIsTaken(c, rest);
    assert Frame(c) + rest == c.line + CRLF + (c.data + CRLF + rest);
    FindCrlfAfterLine(c.line, c.data + CRLF + rest);
    assert (Frame(c) + rest)[..|c.line|] == c.line;
  }

  lemma TakenFrame(buffer: string, pos: nat, size: Option<nat>) returns (c: Chunk)
    requires pos + 2 <= |buffer| && buffer[pos..pos + 2] == CRLF && TurnAt(buffer, pos, size).Take?
    ensures c.line == buffer[..pos] && c.data == TurnAt(buffer, pos, size).data && Some(|c.data|) == size
    ensures buffer == Frame(c) + TurnAt(buffer, pos, size).next
  {
    c := Chunk(buffer[..pos], TurnAt(buffer, pos, size).data);
  }

  lemma TakenChunk(buffer: string) returns (c: Chunk)
    requires TurnOf(buffer).Take?
    ensures c.data == TurnOf(buffer).data && IsChunk(c)
    ensures buffer == Frame(c) + TurnOf(buffer).next
  {
    var pos := FindCrlf(buffer);
    FindCrlfPrefix(buffer, "");
    assert buffer[pos..pos + 2] == CRLF;
    c := TakenFrame(buffer, pos, Leading(buffer[..pos], 16));
  }

  /** Whole chunks in front of a buffer are decoded away. */
  lemma {:induction false} ChunksAreDecoded(chunks: seq<Chunk>, rest: string, body: string)
    requires AreChunks(chunks)
    ensures Decode(Wire(chunks) + rest, body) == Decode(rest, body + Data(chunks))
    decreases |chunks|
  {
    if chunks == [] {
      assert Wire(chunks) + rest == rest && body + Data(chunks) == body;
    } else {
      var c, more := chunks[0], chunks[1..];
      Regroup(Frame(c), Wire(more), rest);
      FirstChunk(c, Wire(more) + rest);
      ChunksAreDecoded(more, rest, body + c.data);
      Regroup(body, c.data, Data(more));
    }
  }

  /** What a run of the decoder took off the buffer: nothing received is lost. */
  ghost predicate Accounts(buffer: string, body: string, p: Progress, chunks: seq<Chunk>, last: Chunk) {
    && AreChunks(chunks) && (p.verdict == Done ==> IsLast(last))
    && buffer == Wire(chunks) + (if p.verdict == Done then Frame(last) + p.buffer else p.buffer)
    && if p.verdict == Bad then body + Data(chunks) <= p.body else p.body == body + Data(chunks)
  }

  lemma {:induction false} AccountsOneMore(c: Chunk, next: string, body: string, p: Progress, chunks: seq<Chunk>, last: Chunk)
    requires c.data != "" && IsChunk(c) && Accounts(next, body + c.data, p, chunks, last)
    ensures Accounts(Frame(c) + next, body, p, [c] + chunks, last)
  {
    var all := [c] + chunks;
    assert all[1..] == chunks;
    Regroup(body, c.data, Data(chunks));
    Regroup(Frame(c), Wire(chunks), if p.verdict == Done then Frame(last) + p.buffer else p.buffer);
  }

  /** However a run of the decoder ends, what it received is the wire form of the chunks it
      took (and of a last chunk when it is done) and what it left in the buffer. */
  lemma {:induction false} DecodedChunks(buffer: string, body: string) returns (chunks: seq<Chunk>, last: Chunk)
    ensures Accounts(buffer, body, Decode(buffer, body), chunks, last)
    decreases |buffer|
  {
    chunks, last := [], Chunk("", "");
    var t := TurnOf(buffer);
    if t.Take? {
      var c := TakenChunk(buffer);
      if t.data == "" {
        last := c;
        AccountsLast(c, t.next, body);
      } else {
        chunks, last := DecodedChunks(t.next, body + t.data);
        AccountsOneMore(c, t.next, body, Decode(t.next, body + t.data), chunks, last);
        chunks := [c] + chunks;
      }
    } else {
      AccountsStop(buffer, body, last);
    }
  }

  lemma {:induction false} StopShape(buffer: string, body: string)
    requires !TurnOf(buffer).Take?
    ensures var p := Decode(buffer, body);
      p.verdict != Done && p.buffer == buffer && body <= p.body && (p.verdict == NeedMore ==> p.body == body)
  {
  }

  lemma {:induction false} AccountsStop(buffer: string, body: string, last: Chunk)
    requires !TurnOf(buffer).Take?
    ensures Accounts(buffer, body, Decode(buffer, body), [], last)
  {
    StopShape(buffer, body);
    AccountsNothing(buffer, body, Decode(buffer, body), last);
  }

  lemma {:induction false} AccountsNothing(buffer: string, body: string, p: Progress, last: Chunk)
    requires p.verdict != Done && p.buffer == buffer && body <= p.body && (p.verdict == NeedMore ==> p.body == body)
    ensures Accounts(buffer, body, p, [], last)
  {
    assert Wire([]) + buffer == buffer;
    assert body + Data([]) == body;
  }

  lemma {:induction false} AccountsLast(c: Chunk, next: string, body: string)
    requires IsLast(c)
    ensures Accounts(Frame(c) + next, body, Progress(Done, next, body), [], c)
  {
    assert Wire([]) + (Frame(c) + next) == Frame(c) + next;
    assert body + Data([]) == body;
  }

  /** data and rest are what the wire form of some chunks, a last chunk and more bytes carry. */
  ghost predicate Carries(buffer: string, data: string, rest: string, chunks: seq<Chunk>, last: Chunk) {
    AreChunks(chunks) && IsLast(last) && data == Data(chunks) && buffer == Wire(chunks) + (Frame(last) + rest)
  }

  lemma {:induction false} CarriedIsDecoded(buffer: string, data: string, rest: string, chunks: seq<Chunk>, last: Chunk)
    requires Carries(buffer, data, rest, chunks, last)
    ensures Decode(buffer, "") == Progress(Done, rest, data)
  {
    ChunksAreDecoded(chunks, Frame(last) + rest, "");
    EmptyFront(data);
    LastIsDecoded(last, rest, data);
  }

  lemma EmptyFront(s: string)
    ensures "" + s == s
  {
  }

  lemma LastIsDecoded(last: Chunk, rest: string, body: string)
    requires IsLast(last)
    ensures Decode(Frame(last) + rest, body) == Progress(Done, rest, body)
  {
    FirstChunk(last, rest);
  }

  lemma {:induction false} DecodedIsCarried(buffer: string, data: string, rest: string)
    returns (chunks: seq<Chunk>, last: Chunk)
    requires Decode(buffer, "") == Progress(Done, rest, data)
    ensures Carries(buffer, data, rest, chunks, last)
  {
    chunks, last := DecodedChunks(buffer, "");
    assert "" + Data(chunks) == Data(chunks);
  }

  /** Main result: decoding is done with body data and leftover rest exactly on the wire form
      of some chunks that carry data, a last chunk, and rest. */
  lemma {:induction false} DecodeIsExact(buffer: string, data: string, rest: string)
    ensures Decode(buffer, "") == Progress(Done, rest, data) <==>
      exists chunks, last :: Carries(buffer, data, rest, chunks, last)
  {
    if Decode(buffer, "") == Progress(Done, rest, data) {
      var chunks, last := DecodedIsCarried(buffer, data, rest);
    }
    forall chunks, last | Carries(buffer, data, rest, chunks, last)
      ensures Decode(buffer, "") == Progress(Done, rest, data)
    {
      CarriedIsDecoded(buffer, data, rest, chunks, last);
    }
  }

  /** A line that states the size n in hexadecimal digits of either case, perhaps with an
      extension behind them. */
  ghost predicate SizeLine(line: string, n: nat) {
    NoCrlf(line) &&
    exists k :: 0 < k <= |line| && Spells(line[..k], n, 16) && (k == |line| || IsNoDigit(line[k], 16))
  }

  lemma {:induction false} ChunkIsSized(c: Chunk)
    ensures IsChunk(c) <==> SizeLine(c.line, |c.data|)
  {
    LeadingIsExact(c.line, |c.data|, 16);
  }

  /** The size as it is usually written. */
  lemma {:induction false} PlainSizeLine(n: nat)
    ensures SizeLine(Show(n, 16), n)
  {
    var line := Show(n, 16);
    ShowSpells(n, 16);
    assert line[..|line|] == line;
    forall j: nat ensures !CrlfAt(line, j) {
      assert j < |line| ==> IsDigitOf(line[j], 16);
    }
    FindCrlfIs(line, |line|);
  }

  /** The encoding of section 7.1 of RFC 9112. */
  function Encode(parts: seq<string>, lines: seq<string>): (chunks: seq<Chunk>)
    requires |lines| == |parts|
    ensures |chunks| == |parts|
  {
    seq(|parts|, i requires 0 <= i < |parts| => Chunk(lines[i], parts[i]))
  }

  function Concat(parts: seq<string>): string {
    if parts == [] then "" else parts[0] + Concat(parts[1..])
  }

  lemma {:induction false} EncodedData(parts: seq<string>, lines: seq<string>)
    requires |lines| == |parts|
    ensures Data(Encode(parts, lines)) == Concat(parts)
    decreases |parts|
  {
    if parts != [] {
      EncodedData(parts[1..], lines[1..]);
      assert Encode(parts, lines)[1..] == Encode(parts[1..], lines[1..]);
    }
  }

  ghost predicate AreSized(parts: seq<string>, lines: seq<string>) {
    |lines| == |parts| && forall i :: 0 <= i < |parts| ==> parts[i] != "" && SizeLine(lines[i], |parts[i]|)
  }

  /** Decoding undoes the encoding, whatever the size lines look like, and leaves what follows
      it untouched. */
  lemma {:induction false} DecodeUndoesEncode(parts: seq<string>, lines: seq<string>, end: string, rest: string)
    requires AreSized(parts, lines) && SizeLine(end, 0)
    ensures Decode(Wire(Encode(parts, lines)) + (end + CRLF + CRLF + rest), "") == Progress(Done, rest, Concat(parts))
  {
    var chunks, last := Encode(parts, lines), Chunk(end, "");
    forall i | 0 <= i < |chunks| ensures chunks[i].data != "" && IsChunk(chunks[i]) {
      ChunkIsSized(chunks[i]);
    }
    ChunkIsSized(last);
    EncodedData(parts, lines);
    assert Frame(last) + rest == end + CRLF + CRLF + rest;
    CarriedIsDecoded(Wire(chunks) + (Frame(last) + rest), Concat(parts), rest, chunks, last);
  }

  //// The loop as compiled

  /** The guard that should wait for a whole chunk compares an unsigned number with 0 and lets
      every chunk pass. A turn then reads behind the buffer (None) unless the chunk is whole,
      or a wrong byte right behind the data is found before the end. */
  function CompiledTurnAt(buffer: string, pos: nat, size: Option<nat>): (t: Option<Turn>)
    requires pos + 2 <= |buffer|
    ensures t.Some? && t.value.Take? ==> |t.value.next| + |t.value.data| + 4 <= |buffer|
  {
    match size
    case None => Some(NoSize)
    case Some(count) =>
      var end := pos + 2 + count;
      if |buffer| <= end then None
      else if buffer[end] != '\r' then Some(NoEnd(buffer[pos + 2..end]))
      else if |buffer| == end + 1 then None
      else if buffer[end + 1] != '\n' then Some(NoEnd(buffer[pos + 2..end]))
      else Some(Take(buffer[pos + 2..end], buffer[end + 2..]))
  }

  function CompiledTurn(buffer: string): (t: Option<Turn>)
    ensures t.Some? && t.value.Take? ==> |t.value.next| + |t.value.data| + 4 <= |buffer|
  {
    var pos := FindCrlf(buffer);
    if pos == |buffer| then Some(Short) else CompiledTurnAt(buffer, pos, Leading(buffer[..pos], 16))
  }

  datatype Compiled = Outside | Inside(progress: Progress)

  function DecodeCompiled(buffer: string, body: string): Compiled
    decreases |buffer|
  {
    match CompiledTurn(buffer)
    case None => Outside
    case Some(Short) => Inside(Progress(NeedMore, buffer, body))
    case Some(NoSize) => Inside(Progress(Bad, buffer, body))
    case Some(NoEnd(data)) => Inside(Progress(Bad, buffer, body + data))
    case Some(Take(data, next)) =>
      if data == "" then Inside(Progress(Done, next, body)) else DecodeCompiled(next, body + data)
  }

  lemma {:induction false} CompiledTurnIs(buffer: string)
    ensures
      if !TurnOf(buffer).Short? || NoCrlf(buffer) then CompiledTurn(buffer) == Some(TurnOf(buffer))
      else CompiledTurn(buffer).None? || CompiledTurn(buffer).value.NoEnd?
  {
    var pos := FindCrlf(buffer);
    if pos < |buffer| && Leading(buffer[..pos], 16).Some? {
      var end := pos + 2 + Leading(buffer[..pos], 16).value;
      if end + 2 <= |buffer| {
        assert buffer[end..end + 2] == [buffer[end], buffer[end + 1]];
      }
    }
  }

  /** The compiled loop does what the comment intends unless that is to wait inside a chunk:
      then it reads behind the buffer, or calls the chunk bad one byte early. */
  lemma {:induction false} CompiledIsDecode(buffer: string, body: string)
    ensures var p := Decode(buffer, body);
      DecodeCompiled(buffer, body) ==
        if p.verdict != NeedMore || NoCrlf(p.buffer) then Inside(p)
        else match CompiledTurn(p.buffer)
          case Some(NoEnd(data)) => Inside(Progress(Bad, p.buffer, p.body + data))
          case _ => Outside
    decreases |buffer|
  {
    var t := TurnOf(buffer);
    CompiledTurnIs(buffer);
    if t.Take? && t.data != "" {
      CompiledIsDecode(t.next, body + t.data);
    }
  }

  /** A size line and what has arrived behind it: all of the data without both bytes of its
      CR LF, or less. A wrong first byte behind the data is noticed. */
  predicate ReadsBehind(line: string, part: string) {
    && NoCrlf(line) && Leading(line, 16).Some?
    && var size := Leading(line, 16).value;
       |part| <= size || (|part| == size + 1 && part[size] == '\r')
  }

  ghost predicate CutInside(buffer: string, chunks: seq<Chunk>, line: string, part: string) {
    AreChunks(chunks) && ReadsBehind(line, part) && buffer == Wire(chunks) + (line + CRLF + part)
  }

  lemma {:induction false} LineThenPart(line: string, part: string)
    requires NoCrlf(line)
    ensures CompiledTurn(line + CRLF + part).None? <==> ReadsBehind(line, part)
    ensures CompiledTurn(line + CRLF + part) != Some(Short)
  {
    FindCrlfAfterLine(line, part);
    assert (line + CRLF + part)[..|line|] == line;
    TurnBehindLine(line, part, Leading(line, 16));
  }

  lemma {:induction false} TurnBehindLine(line: string, part: string, size: Option<nat>)
    ensures var t := CompiledTurnAt(line + CRLF + part, |line|, size);
      && t != Some(Short)
      && (t.None? <==> size.Some? && (|part| <= size.value || (|part| == size.value + 1 && part[size.value] == '\r')))
  {
    var b := line + CRLF + part;
    if size.Some? && size.value < |part| {
      assert b[|line| + 2 + size.value] == part[size.value];
    }
  }

  lemma {:induction false} CompiledSkipsChunks(chunks: seq<Chunk>, rest: string, body: string)
    requires AreChunks(chunks)
    ensures DecodeCompiled(Wire(chunks) + rest, body) == DecodeCompiled(rest, body + Data(chunks))
    decreases |chunks|
  {
    if chunks == [] {
      assert Wire(chunks) + rest == rest && body + Data(chunks) == body;
    } else {
      var c, more := chunks[0], chunks[1..];
      Regroup(Frame(c), Wire(more), rest);
      FirstChunk(c, Wire(more) + rest);
      CompiledTurnIs(Frame(c) + (Wire(more) + rest));
      CompiledSkipsChunks(more, rest, body + c.data);
      Regroup(body, c.data, Data(more));
    }
  }

  /** What is left when decoding waits follows the chunks taken. */
  lemma {:induction false} WaitingRest(buffer: string) returns (chunks: seq<Chunk>, rest: string)
    requires Decode(buffer, "").verdict == NeedMore
    ensures rest == Decode(buffer, "").buffer && AreChunks(chunks) && buffer == Wire(chunks) + rest
  {
    var last;
    chunks, last := DecodedChunks(buffer, "");
    rest := Decode(buffer, "").buffer;
  }

  lemma SplitLine(s: string) returns (line: string, part: string)
    requires !NoCrlf(s)
    ensures NoCrlf(line) && s == line + CRLF + part
  {
    CrlfSplits(s);
    line, part := s[..FindCrlf(s)], s[FindCrlf(s) + 2..];
  }

  lemma {:induction false} OutsideIsCut(buffer: string) returns (chunks: seq<Chunk>, line: string, part: string)
    requires DecodeCompiled(buffer, "").Outside?
    ensures CutInside(buffer, chunks, line, part)
  {
    CompiledIsDecode(buffer, "");
    DecodeStops(buffer, "");
    var rest;
    chunks, rest := WaitingRest(buffer);
    CompiledTurnIs(rest);
    line, part := SplitLine(rest);
    LineThenPart(line, part);
  }

  lemma {:induction false} CutIsOutside(buffer: string, chunks: seq<Chunk>, line: string, part: string)
    requires CutInside(buffer, chunks, line, part)
    ensures DecodeCompiled(buffer, "").Outside?
  {
    CompiledSkipsChunks(chunks, line + CRLF + part, "");
    LineThenPart(line, part);
  }

  /** Main result: the compiled loop reads behind the buffer exactly when the bytes so far end
      inside a chunk whose size line is complete, or in the middle of its final CR LF. */
  lemma {:induction false} ReadsBehindExactly(buffer: string)
    ensures DecodeCompiled(buffer, "").Outside? <==>
      exists chunks, line, part :: CutInside(buffer, chunks, line, part)
  {
    if DecodeCompiled(buffer, "").Outside? {
      var chunks, line, part := OutsideIsCut(buffer);
    }
    forall chunks, line, part | CutInside(buffer, chunks, line, part)
      ensures DecodeCompiled(buffer, "").Outside?
    {
      CutIsOutside(buffer, chunks, line, part);
    }
  }

  lemma {:induction false} DecodeStops(buffer: string, body: string)
    ensures Decode(buffer, body).verdict == NeedMore ==> TurnOf(Decode(buffer, body).buffer).Short?
    decreases |buffer|
  {
    var t := TurnOf(buffer);
    if t.Take? && t.data != "" {
      DecodeStops(t.next, body + t.data);
    }
  }

  predicate Waits(c: Compiled) {
    c.Inside? && c.progress.verdict == NeedMore
  }

  ghost predicate CutInLine(buffer: string, chunks: seq<Chunk>, rest: string) {
    AreChunks(chunks) && NoCrlf(rest) && buffer == Wire(chunks) + rest
  }

  lemma {:induction false} WaitsInLine(buffer: string) returns (chunks: seq<Chunk>, rest: string)
    requires Waits(DecodeCompiled(buffer, ""))
    ensures CutInLine(buffer, chunks, rest)
  {
    CompiledIsDecode(buffer, "");
    chunks, rest := WaitingRest(buffer);
  }

  lemma {:induction false} LineWaits(buffer: string, chunks: seq<Chunk>, rest: string)
    requires CutInLine(buffer, chunks, rest)
    ensures Waits(DecodeCompiled(buffer, ""))
  {
    CompiledSkipsChunks(chunks, rest, "");
  }

  /** It waits exactly where a size line is not complete. */
  lemma {:induction false} WaitsExactly(buffer: string)
    ensures Waits(DecodeCompiled(buffer, "")) <==> exists chunks, rest :: CutInLine(buffer, chunks, rest)
  {
    if Waits(DecodeCompiled(buffer, "")) {
      var chunks, rest := WaitsInLine(buffer);
    }
    forall chunks, rest | CutInLine(buffer, chunks, rest) ensures Waits(DecodeCompiled(buffer, "")) {
      LineWaits(buffer, chunks, rest);
    }
  }

  /** Going on with more bytes, unless the run has read behind the buffer. */
  function ResumeCompiled(c: Compiled, more: string): Compiled {
    match c
    case Outside => Outside
    case Inside(p) =>
      if p.verdict == NeedMore then DecodeCompiled(p.buffer + more, p.body) else Inside(p.(buffer := p.buffer + more))
  }

  lemma {:induction false} CompiledTurnWithMore(buffer: string, more: string)
    requires CompiledTurn(buffer).Some? && !CompiledTurn(buffer).value.Short?
    ensures CompiledTurn(buffer + more) ==
      Some(match CompiledTurn(buffer).value case Take(data, next) => Take(data, next + more) case t => t)
  {
    var pos, all := FindCrlf(buffer), buffer + more;
    FindCrlfPrefix(buffer, more);
    assert all[..pos] == buffer[..pos];
    var size := Leading(buffer[..pos], 16);
    if size.Some? {
      var end := pos + 2 + size.value;
      assert all[pos + 2..end] == buffer[pos + 2..end];
      assert end + 2 <= |buffer| ==> all[end + 2..] == buffer[end + 2..] + more;
    }
  }

  /** Main result: with the compiled loop, stopping and going on is the same as decoding all
      at once exactly when the first part alone stays inside the buffer, or even the whole
      does not. */
  lemma {:induction false} CompiledResumes(buffer: string, more: string, body: string)
    ensures ResumeCompiled(DecodeCompiled(buffer, body), more) == DecodeCompiled(buffer + more, body) <==>
      DecodeCompiled(buffer, body).Inside? || DecodeCompiled(buffer + more, body).Outside?
  {
    if DecodeCompiled(buffer, body).Inside? {
      InsideResumes(buffer, more, body);
    }
  }

  lemma {:induction false} InsideResumes(buffer: string, more: string, body: string)
    requires DecodeCompiled(buffer, body).Inside?
    ensures ResumeCompiled(DecodeCompiled(buffer, body), more) == DecodeCompiled(buffer + more, body)
    decreases |buffer|
  {
    var t := CompiledTurn(buffer).value;
    if !t.Short? {
      CompiledTurnWithMore(buffer, more);
      if t.Take? && t.data != "" {
        InsideResumes(t.next, more, body + t.data);
      }
    }
  }

  /** A chunk cut after two of its five bytes is read behind the buffer; in one piece it is
      decoded. */
  lemma ShortChunkReadsBehind()
    ensures DecodeCompiled("5\r\nab", "") == Outside && Decode("5\r\nab", "") == Progress(NeedMore, "5\r\nab", "")
    ensures DecodeCompiled("5\r\nab" + "cde\r\n", "") == Inside(Progress(NeedMore, "", "abcde"))
  {
    LeadingIs("5", "", 16);
    assert "5" + "" == "5" && "5"[..0] == "";
    assert NoCrlf("5") && Leading("5", 16) == Some(5);
    FiveCut();
    FiveWhole();
  }

  lemma FiveCut()
    requires NoCrlf("5") && Leading("5", 16) == Some(5)
    ensures DecodeCompiled("5\r\nab", "") == Outside && Decode("5\r\nab", "") == Progress(NeedMore, "5\r\nab", "")
  {
    assert "5\r\nab" == "5" + CRLF + "ab";
    LineThenPart("5", "ab");
    CompiledTurnIs("5\r\nab");
  }

  lemma FiveWhole()
    requires NoCrlf("5") && Leading("5", 16) == Some(5)
    ensures DecodeCompiled("5\r\nab" + "cde\r\n", "") == Inside(Progress(NeedMore, "", "abcde"))
  {
    var five := Chunk("5", "abcde");
    assert [five][1..] == [] && "" + Data([five]) == "abcde";
    assert "5\r\nab" + "cde\r\n" == Wire([five]) + "";
    CompiledSkipsChunks([five], "", "");
  }
}
