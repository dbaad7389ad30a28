/** When a response that is sent carries its own end. */
module ResponseFraming {
  import opened Text
  import opened Numbers
  import opened HttpRequest
  import opened HttpReading
  import opened HttpRoundTrip
  import opened HttpResponse

  //// The header section

  function Meanings(h: Headers, order: seq<string>): (ms: seq<Meaning>)
    requires forall k :: k in order ==> k in h
    ensures |ms| == |order|
    ensures forall i :: 0 <= i < |order| ==> ms[i] == MeaningOf(order[i] + ": " + h[order[i]])
  {
    if order == [] then [] else [MeaningOf(order[0] + ": " + h[order[0]])] + Meanings(h, order[1..])
  }

  lemma {:induction false} FieldIsRead(key: string, value: string, text: string)
    requires '\r' !in key && NoCrlf(value)
    ensures ReadSection(FieldText(key, value) + text) ==
      match ReadSection(text)
      case NoEnd => NoEnd
      case Section(lines, rest) => Section([MeaningOf(key + ": " + value)] + lines, rest)
  {
    var line := key + ": " + value;
    FieldLineHasNoCrlf(key, value);
    assert FieldText(key, value) + text == line + CRLF + text;
    LineIsRead(line, text);
  }

  lemma {:induction false} LineIsRead(line: string, text: string)
    requires line != "" && NoCrlf(line)
    ensures ReadSection(line + CRLF + text) ==
      match ReadSection(text)
      case NoEnd => NoEnd
      case Section(lines, rest) => Section([MeaningOf(line)] + lines, rest)
  {
    FindCrlfAfterLine(line, text);
    var all := line + CRLF + text;
    assert all[..|line|] == line && all[|line| + 2..] == text;
  }

  /** The header section ends where it ends, and is read line by line. */
  lemma {:induction false} SectionIsRead(h: Headers, order: seq<string>, after: string)
    requires (forall k :: k in order ==> k in h) && IsPlain(h)
    ensures ReadSection(FieldsText(h, order) + (CRLF + after)) == Section(Meanings(h, order), after)
    decreases |order|
  {
    if order == [] {
      assert FieldsText(h, order) + (CRLF + after) == CRLF + after;
      FindCrlfIs(CRLF + after, 0);
      assert (CRLF + after)[2..] == after;
    } else {
      var k, more := order[0], FieldsText(h, order[1..]);
      SectionIsRead(h, order[1..], after);
      FieldIsRead(k, h[k], more + (CRLF + after));
      Regroup(FieldText(k, h[k]), more, CRLF + after);
    }
  }

  //// The length that is added

  lemma {:induction false} DigitsAreTrim(s: string)
    requires s != "" && AllDigits(s, 10)
    ensures TrimBlanks(" " + s) == s
    ensures NoCrlf(s) && ',' !in s
  {
    assert (" " + s)[1..] == s;
    forall i: nat ensures !CrlfAt(s, i) {
    }
    FindCrlfIs(s, |s|);
  }

  lemma {:induction false} SizeIsRead(s: string)
    requires s != "" && AllDigits(s, 10)
    ensures SizeOf(" " + s) == Some(ValueOf(s, 10))
  {
    DigitsAreTrim(s);
    var value := " " + s;
    assert ',' !in value;
    assert IndexOf(value, ',') == |value| && value[..|value|] == value;
  }

  lemma {:induction false} AddedLength(n: nat)
    ensures MeaningOf(CONTENT_LENGTH + ": " + Show(n, 10)) == Size(Some(n))
  {
    SplitAtColon(CONTENT_LENGTH, Show(n, 10));
    SizeIsRead(Show(n, 10));
    NameIsLength();
  }

  lemma NameIsLength()
    ensures IsKey(CONTENT_LENGTH) && '\r' !in CONTENT_LENGTH
    ensures SameName(CONTENT_LENGTH, CONTENT_LENGTH) && !SameName(CONTENT_LENGTH, TRANSFER_ENCODING)
  {
  }

  predicate Agrees(m: Meaning, n: nat) {
    m == Other || m == Size(Some(n))
  }

  lemma {:induction false} FirstSizeIs(lines: seq<Meaning>, n: nat)
    requires Size(Some(n)) in lines && forall m :: m in lines ==> Agrees(m, n)
    ensures FirstSize(lines) == Some(n)
  {
    assert lines[0] in lines;
    if !lines[0].Size? {
      assert forall m :: m in lines ==> m == lines[0] || m in lines[1..];
      assert forall m :: m in lines[1..] ==> m in lines;
      FirstSizeIs(lines[1..], n);
    }
  }

  lemma {:induction false} ExtentIs(lines: seq<Meaning>, n: nat)
    requires Size(Some(n)) in lines
    ensures Extent(lines) == if forall m :: m in lines ==> Agrees(m, n) then Some(n) else None
  {
    if forall m :: m in lines ==> Agrees(m, n) {
      FirstSizeIs(lines, n);
    }
  }

  lemma {:induction false} LengthAmongLines(h: Headers, order: seq<string>, n: nat)
    requires (forall k :: k in order ==> k in h) && CONTENT_LENGTH in order && h[CONTENT_LENGTH] == Show(n, 10)
    ensures Size(Some(n)) in Meanings(h, order)
  {
    var lines := Meanings(h, order);
    AddedLength(n);
    var i :| 0 <= i < |order| && order[i] == CONTENT_LENGTH;
    assert lines[i] == Size(Some(n));
  }

  lemma {:induction false} HarmlessLines(h: Headers, order: seq<string>, n: nat)
    requires (forall k :: k in order ==> k in h) && (forall k :: k in h ==> k in order)
    ensures (forall m :: m in Meanings(h, order) ==> Agrees(m, n)) <==> forall k :: k in h ==> Harmless(k, h[k], n)
  {
    var lines := Meanings(h, order);
    if forall m :: m in lines ==> Agrees(m, n) {
      forall k | k in h ensures Harmless(k, h[k], n) {
        var j :| 0 <= j < |order| && order[j] == k;
        assert lines[j] in lines;
      }
    }
    if forall k :: k in h ==> Harmless(k, h[k], n) {
      forall m | m in lines ensures Agrees(m, n) {
        var j :| 0 <= j < |lines| && lines[j] == m;
        assert order[j] in order;
      }
    }
  }

  lemma {:induction false} SentExtent(h: Headers, order: seq<string>, body: string)
    requires IsOrder(WithLength(h, body), order)
    ensures Extent(Meanings(WithLength(h, body), order)) ==
      if forall k :: k in h && k != CONTENT_LENGTH ==> Harmless(k, h[k], |body|) then Some(|body|) else None
  {
    var h' := WithLength(h, body);
    assert CONTENT_LENGTH in h';
    LengthAmongLines(h', order, |body|);
    ExtentIs(Meanings(h', order), |body|);
    HarmlessLines(h', order, |body|);
    OthersDecide(h, body);
  }

  /** The added length itself is harmless. */
  lemma {:induction false} OthersDecide(h: Headers, body: string)
    ensures var h' := WithLength(h, body);
      (forall k :: k in h' ==> Harmless(k, h'[k], |body|)) <==>
        forall k :: k in h && k != CONTENT_LENGTH ==> Harmless(k, h[k], |body|)
  {
    var h' := WithLength(h, body);
    AddedLength(|body|);
    assert Harmless(CONTENT_LENGTH, h'[CONTENT_LENGTH], |body|);
    assert forall k :: k in h && k != CONTENT_LENGTH ==> k in h' && h'[k] == h[k];
  }

  //// The status line

  lemma {:induction false} VersionHasNoBlank(v: Version)
    ensures ' ' !in ShowVersion(v) && '\r' !in ShowVersion(v)
  {
  }

  /** The status a response states. */
  function StatusOf(v: Version, code: nat, status: string): Option<Status> {
    if 100 <= code < 1000 then Some(Status(ShowVersion(v), code, status)) else None
  }

  lemma {:induction false} StatusIsRead(v: Version, code: nat, status: string)
    ensures ReadStatus(StatusLine(v, code, status)) == StatusOf(v, code, status)
  {
    VersionHasNoBlank(v);
    var front, digits := ShowVersion(v), ShowNum(code);
    assert StatusLine(v, code, status) == front + " " + (digits + " " + status);
    if 100 <= code < 1000 {
      NumberValue(code);
      ThreeDigits(front, digits, status);
    } else {
      FewDigits(front, digits, status);
    }
  }

  lemma ThreeDigits(front: string, digits: string, status: string)
    requires ' ' !in front && |digits| == 3 && AllDigits(digits, 10)
    ensures ReadStatus(front + " " + (digits + " " + status)) == Some(Status(front, ValueOf(digits, 10), status))
  {
    var line := front + " " + (digits + " " + status);
    FirstSpace(front, digits + " " + status);
    assert line[|front| + 1..|front| + 4] == digits && line[|front| + 5..] == status;
  }

  lemma FewDigits(front: string, digits: string, status: string)
    requires ' ' !in front && |digits| < 3
    ensures ReadStatus(front + " " + (digits + " " + status)) == None
  {
    var line := front + " " + (digits + " " + status);
    FirstSpace(front, digits + " " + status);
    if |front| + 4 <= |line| {
      assert line[|front| + 1..|front| + 4][|digits|] == ' ';
    }
  }

  lemma {:induction false} LengthIsPlain(h: Headers, body: string)
    requires IsPlain(h)
    ensures IsPlain(WithLength(h, body))
  {
    DigitsAreTrim(WithLength(h, body)[CONTENT_LENGTH]);
    NameIsLength();
  }

  lemma FieldsThenMore(h: Headers, order: seq<string>, body: string, more: string)
    requires forall k :: k in order ==> k in h
    ensures FieldsText(h, order) + (CRLF + body) + more == FieldsText(h, order) + (CRLF + (body + more))
  {
    Regroup(FieldsText(h, order), CRLF + body, more);
    Regroup(CRLF, body, more);
  }

  //// Main results

  lemma {:induction false} SentIsRead(
    asked: Method, v: Version, code: nat, status: string, h: Headers, order: seq<string>, body: string, more: string)
    requires NoCrlf(StatusLine(v, code, status)) && IsPlain(h) && IsOrder(WithLength(h, body), order)
    ensures Receive(asked, Sent(v, code, status, h, order, body) + more) ==
      TakeBody(asked, StatusOf(v, code, status), Meanings(WithLength(h, body), order), body + more)
  {
    var line, h' := StatusLine(v, code, status), WithLength(h, body);
    var fields := FieldsText(h', order);
    LengthIsPlain(h, body);
    SectionIsRead(h', order, body + more);
    FieldsThenMore(h', order, body, more);
    Regroup(line + CRLF, fields + (CRLF + body), more);
    StatusIsRead(v, code, status);
    HeadIsRead(asked, line, fields + (CRLF + (body + more)));
  }

  lemma {:induction false} HeadIsRead(asked: Method, line: string, text: string)
    requires NoCrlf(line)
    ensures Receive(asked, line + CRLF + text) ==
      match ReadSection(text)
      case NoEnd => Incomplete
      case Section(lines, rest) => TakeBody(asked, ReadStatus(line), lines, rest)
  {
    var all := line + CRLF + text;
    FindCrlfAfterLine(line, text);
    assert all[..|line|] == line && all[|line| + 2..] == text;
  }

  /** Main result: whatever follows it on the stream, a receiver takes from a sent response
      exactly its status and its body, and stops exactly behind it, if and only if the response is framed. */
  lemma {:induction false} SentIsReceived(
    asked: Method, v: Version, code: nat, status: string, h: Headers, order: seq<string>, body: string, more: string)
    requires NoCrlf(StatusLine(v, code, status)) && IsPlain(h) && IsOrder(WithLength(h, body), order)
    ensures var read := Received(Status(ShowVersion(v), code, status), body, more);
      Receive(asked, Sent(v, code, status, h, order, body) + more) == read <==> IsFramed(asked, code, h, body)
  {
    SentIsRead(asked, v, code, status, h, order, body, more);
    SentExtent(h, order, body);
    assert (body + more)[..|body|] == body && (body + more)[|body|..] == more;
    assert |body + more| == |body| + |more|;
  }

  /** A handler that sets a transfer coding, or a length under another spelling, spoils the
      framing that `send_message` adds. */
  lemma SpoiledFraming(body: string, value: string)
    requires |body| != 5
    ensures !IsFramed(GET, 200, map["Transfer-Encoding" := value], body)
    ensures !IsFramed(GET, 200, map["content-length" := "5"], body)
  {
    CodingIsSeen(value);
    OtherSpellingIsSeen();
    var h, h' := map["Transfer-Encoding" := value], map["content-length" := "5"];
    assert "Transfer-Encoding" in h && !Harmless("Transfer-Encoding", h["Transfer-Encoding"], |body|);
    assert "content-length" in h' && !Harmless("content-length", h'["content-length"], |body|);
  }

  lemma CodingIsSeen(value: string)
    ensures MeaningOf("Transfer-Encoding" + ": " + value) == Coding
  {
    SplitAtColon("Transfer-Encoding", value);
  }

  lemma OtherSpellingIsSeen()
    ensures MeaningOf("content-length" + ": " + "5") == Size(Some(5))
  {
    SplitAtColon("content-length", "5");
    SizeIsRead("5");
    assert "5"[..0] == "";
    assert SameName("content-length", CONTENT_LENGTH);
  }

  /** A status text of one line is all it takes for the status line to be one. */
  lemma {:induction false} StatusLineIsLine(v: Version, code: nat, status: string)
    requires NoCrlf(status)
    ensures NoCrlf(StatusLine(v, code, status))
  {
    var front := ShowVersion(v) + " " + ShowNum(code);
    assert '\r' !in front;
    NoCrlfJoin(front, ' ', status);
  }

  //// Streams of responses

  datatype Response = Response(
    asked: Method, version: Version, code: nat, status: string, headers: Headers, order: seq<string>, body: string)

  ghost predicate IsSendable(r: Response) {
    && NoCrlf(r.status) && IsPlain(r.headers) && IsOrder(WithLength(r.headers, r.body), r.order)
    && IsFramed(r.asked, r.code, r.headers, r.body)
  }

  ghost predicate AreSendable(rs: seq<Response>) {
    forall i :: 0 <= i < |rs| ==> IsSendable(rs[i])
  }

  ghost function SentOf(r: Response): string
    requires IsSendable(r)
  {
    Sent(r.version, r.code, r.status, r.headers, r.order, r.body)
  }

  ghost function Stream(rs: seq<Response>): string
    requires AreSendable(rs)
  {
    if rs == [] then "" else SentOf(rs[0]) + Stream(rs[1..])
  }

  ghost function Asked(rs: seq<Response>): seq<Method> {
    if rs == [] then [] else [rs[0].asked] + Asked(rs[1..])
  }

  ghost function Bodies(rs: seq<Response>): seq<string> {
    if rs == [] then [] else [rs[0].body] + Bodies(rs[1..])
  }

  /** Reads the responses to these requests, which must use up the stream. */
  function ReceiveAll(stream: string, asked: seq<Method>): Option<seq<string>>
    decreases |asked|
  {
    if asked == [] then (if stream == "" then Some([]) else None) else
    var r := Receive(asked[0], stream);
    if !r.Received? then None else
    var bodies := ReceiveAll(r.rest, asked[1..]);
    if bodies.None? then None else Some([r.body] + bodies.value)
  }

  /** Any number of framed responses on one connection are told apart again. */
  lemma {:induction false} StreamIsReceived(rs: seq<Response>)
    requires AreSendable(rs)
    ensures ReceiveAll(Stream(rs), Asked(rs)) == Some(Bodies(rs))
  {
    if rs != [] {
      var r := rs[0];
      StatusLineIsLine(r.version, r.code, r.status);
      SentIsReceived(r.asked, r.version, r.code, r.status, r.headers, r.order, r.body, Stream(rs[1..]));
      StreamIsReceived(rs[1..]);
    }
  }
}
