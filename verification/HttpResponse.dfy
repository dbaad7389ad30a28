/** `HTTPResponse` and `send_message`: what is sent frames itself. */
module HttpResponse {
  import opened Text
  import opened Numbers
  import opened HttpRequest

  const CONTENT_LENGTH := "Content-Length"
  const TRANSFER_ENCODING := "Transfer-Encoding"

  datatype TransferMode = ContentLength | Chunked

  function StatusLine(v: Version, code: nat, status: string): string {
    ShowVersion(v) + " " + ShowNum(code) + " " + status
  }

  function ResponseText(v: Version, code: nat, status: string, h: Headers, order: seq<string>, body: string): string
    requires forall k :: k in order ==> k in h
  {
    StatusLine(v, code, status) + CRLF + (FieldsText(h, order) + (CRLF + body))
  }

  class HTTPResponse {
    var version: Version
    var statusCode: nat
    var statusStr: string
    var headers: Headers
    var data: Option<string>

    constructor ()
      ensures version == Version(1, 1) && statusCode == 200 && statusStr == "OK" && headers == map[] && data == None
    {
      version, statusCode, statusStr, headers, data := Version(1, 1), 200, "OK", map[], None;
    }

    method Reset()
      modifies this
      ensures version == Version(1, 1) && statusCode == 200 && statusStr == "OK" && headers == map[]
      ensures data == if old(data).Some? then Some("") else None
    {
      version, statusCode, statusStr, headers := Version(1, 1), 200, "OK", map[];
      if data.Some? { data := Some(""); }
    }

    method CheckoutData(mode: TransferMode)
      modifies this`headers
      ensures headers ==
        if mode == ContentLength then old(headers)[CONTENT_LENGTH := Show(|data.GetOr("")|, 10)] else old(headers)
    {
      match mode
      case ContentLength =>
        headers := headers[CONTENT_LENGTH := Show(if data.Some? then |data.value| else 0, 10)];
      case Chunked =>
    }

    method GenerateTo(order: seq<string>) returns (out: string)
      requires IsOrder(headers, order)
      ensures out == ResponseText(version, statusCode, statusStr, headers, order, data.GetOr(""))
    {
      out := StatusLine(version, statusCode, statusStr) + CRLF;
      ghost var start := out;
      for n := 0 to |order|
        invariant out + FieldsText(headers, order[n..]) == start + FieldsText(headers, order)
      {
        ghost var before := out;
        out := out + order[n] + ": " + headers[order[n]] + CRLF;
        FieldsStep(headers, order, n, before, out);
      }
      assert order[|order|..] == [];
      assert out == start + FieldsText(headers, order);
      out := out + CRLF;
      if data.Some? && |data.value| != 0 {
        out := out + data.value;
      }
      Regroup(start, FieldsText(headers, order), CRLF + data.GetOr(""));
      Regroup(start + FieldsText(headers, order), CRLF, data.GetOr(""));
    }

    /** The default mode of `send_message`; the map with the length yields its keys in the
        given order. */
    method SendMessage(order: seq<string>) returns (sent: string)
      requires IsOrder(headers[CONTENT_LENGTH := ""], order)
      modifies this`headers
      ensures sent == Sent(version, statusCode, statusStr, old(headers), order, data.GetOr(""))
    {
      CheckoutData(ContentLength);
      sent := GenerateTo(order);
    }
  }

  function WithLength(h: Headers, body: string): Headers {
    h[CONTENT_LENGTH := Show(|body|, 10)]
  }

  function Sent(v: Version, code: nat, status: string, h: Headers, order: seq<string>, body: string): string
    requires forall k :: k in order ==> k in WithLength(h, body)
  {
    ResponseText(v, code, status, WithLength(h, body), order, body)
  }

  //// A receiver, after section 6.3 of RFC 9112

  function Lower(c: char): char {
    if 'A' <= c <= 'Z' then c - 'A' + 'a' else c
  }

  /** Field names are compared without case. */
  predicate SameName(a: string, b: string) {
    |a| == |b| && forall i :: 0 <= i < |a| ==> Lower(a[i]) == Lower(b[i])
  }

  function TrimBlanks(s: string): string {
    if s == "" then s
    else if IsBlankChar(s[0]) then TrimBlanks(s[1..])
    else if IsBlankChar(s[|s| - 1]) then TrimBlanks(s[..|s| - 1])
    else s
  }

  function Number(s: string): Option<nat> {
    if s != "" && AllDigits(s, 10) then Some(ValueOf(s, 10)) else None
  }

  /** The length a value states: a number, or a list that repeats one number. */
  function SizeOf(value: string): Option<nat>
    decreases |value|
  {
    var comma := IndexOf(value, ',');
    var first := Number(TrimBlanks(value[..comma]));
    if comma == |value| || first.None? || SizeOf(value[comma + 1..]) == first then first else None
  }

  /** What a field line says about the body. */
  datatype Meaning = Malformed | Other | Coding | Size(n: Option<nat>)

  function MeaningOf(line: string): Meaning {
    var colon := IndexOf(line, ':');
    var name := line[..colon];
    if colon == |line| || name == "" || !IsKey(name) then Malformed
    else if SameName(name, TRANSFER_ENCODING) then Coding
    else if SameName(name, CONTENT_LENGTH) then Size(SizeOf(line[colon + 1..]))
    else Other
  }

  /** The header section, line by line, and the text behind it. */
  datatype Section = NoEnd | Section(lines: seq<Meaning>, rest: string)

  function ReadSection(text: string): Section
    decreases |text|
  {
    var i := FindCrlf(text);
    if i == |text| then NoEnd
    else if i == 0 then Section([], text[2..])
    else
      match ReadSection(text[i + 2..])
      case NoEnd => NoEnd
      case Section(lines, rest) => Section([MeaningOf(text[..i])] + lines, rest)
  }

  function FirstSize(lines: seq<Meaning>): Option<nat> {
    if lines == [] then None else if lines[0].Size? then lines[0].n else FirstSize(lines[1..])
  }

  /** The length of the body, unless a transfer coding overrides it, or the length fields do
      not all state the same number, or a line is malformed. */
  function Extent(lines: seq<Meaning>): Option<nat> {
    var n := FirstSize(lines);
    if n.Some? && forall m :: m in lines ==> m == Other || m == Size(n) then n else None
  }

  /** Responses that end with their header section. */
  predicate HasNoBody(asked: Method, code: nat) {
    || asked == HEAD || 100 <= code < 200 || code == 204 || code == 304
    || (asked == CONNECT && 200 <= code < 300)
  }

  datatype Status = Status(version: string, code: nat, reason: string)

  /** A status line: a version, three digits between two blanks, and a reason. */
  function ReadStatus(line: string): Option<Status> {
    var i := IndexOf(line, ' ');
    if i + 4 < |line| && line[i + 4] == ' ' then
      if AllDigits(line[i + 1..i + 4], 10) then Some(Status(line[..i], ValueOf(line[i + 1..i + 4], 10), line[i + 5..]))
      else None
    else None
  }

  /** Incomplete if bytes are missing; Undelimited if no length says where the body ends. */
  datatype Received = Incomplete | Undelimited | Received(status: Status, body: string, rest: string)

  /** Reads the response to a request of the given method off a stream. */
  function Receive(asked: Method, stream: string): Received {
    var i := FindCrlf(stream);
    if i == |stream| then Incomplete else
    match ReadSection(stream[i + 2..])
    case NoEnd => Incomplete
    case Section(lines, rest) => TakeBody(asked, ReadStatus(stream[..i]), lines, rest)
  }

  function TakeBody(asked: Method, status: Option<Status>, lines: seq<Meaning>, rest: string): Received {
    if status.None? then Undelimited
    else if HasNoBody(asked, status.value.code) then Received(status.value, "", rest)
    else
      match Extent(lines)
      case None => Undelimited
      case Some(n) => if n <= |rest| then Received(status.value, rest[..n], rest[n..]) else Incomplete
  }

  //// What is sent is received

  /** Every field is one line. */
  predicate IsPlain(h: Headers) {
    forall k :: k in h ==> '\r' !in k && NoCrlf(h[k])
  }

  /** The header of that name says nothing against a body of n bytes. */
  predicate Harmless(key: string, value: string, n: nat) {
    var m := MeaningOf(key + ": " + value);
    m == Other || m == Size(Some(n))
  }

  /** The response says where its body ends: its status code has three digits, and either it
      is of a kind without a body and has none, or no header besides the Content-Length that
      `send_message` adds is a transfer coding, another length, or malformed. */
  predicate IsFramed(asked: Method, code: nat, h: Headers, body: string) {
    && 100 <= code < 1000
    && if HasNoBody(asked, code) then body == ""
       else forall k :: k in h && k != CONTENT_LENGTH ==> Harmless(k, h[k], |body|)
  }
}
