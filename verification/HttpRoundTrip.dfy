/** Parsing what was generated. */
module HttpRoundTrip {
  import opened Text
  import opened Numbers
  import opened Url
  import opened HttpRequest
  import opened HttpReading

  //// Header lines

  /** Fields that survive: the name a token, the value one line without blanks in front. */
  predicate IsField(key: string, value: string) {
    IsKey(key) && NoCrlf(value) && (value == "" || !IsBlankChar(value[0]))
  }

  predicate AreFields(h: Headers, order: seq<string>) {
    forall k :: k in order ==> k in h && IsField(k, h[k])
  }

  lemma {:induction false} FieldLineHasNoCrlf(key: string, value: string)
    requires '\r' !in key && NoCrlf(value)
    ensures NoCrlf(key + ": " + value)
  {
    NoCrlfJoin("", ' ', value);
    assert "" + " " + value == " " + value;
    NoCrlfJoin(key, ':', " " + value);
    assert key + ": " + value == key + ":" + (" " + value);
  }

  lemma {:induction false} SplitAtColon(key: string, value: string)
    requires forall i :: 0 <= i < |key| ==> key[i] != ':'
    ensures var line := key + ": " + value;
      line != "" && line[0] == (if key == "" then ':' else key[0])
      && IndexOf(line, ':') == |key| && line[..|key|] == key && line[|key| + 1..] == " " + value
  {
    var line := key + ": " + value;
    assert forall i :: 0 <= i < |key| ==> line[i] == key[i];
    assert line[|key|] == ':';
  }

  /** The lines that are generated. */
  function FieldLines(h: Headers, order: seq<string>): (fs: seq<FieldLine>)
    requires forall k :: k in order ==> k in h
    ensures |fs| == |order| && forall i :: 0 <= i < |fs| ==> fs[i] == FieldLine(order[i], " ", h[order[i]])
  {
    seq(|order|, i requires 0 <= i < |order| => FieldLine(order[i], " ", h[order[i]]))
  }

  lemma {:induction false} GeneratedLines(h: Headers, order: seq<string>)
    requires forall k :: k in order ==> k in h
    ensures LinesText(FieldLines(h, order)) == FieldsText(h, order)
    decreases |order|
  {
    if order != [] {
      GeneratedLines(h, order[1..]);
      assert FieldLines(h, order)[1..] == FieldLines(h, order[1..]);
      assert LineText(FieldLine(order[0], " ", h[order[0]])) + CRLF == FieldText(order[0], h[order[0]]);
    }
  }

  lemma {:induction false} GeneratedHeaders(h: Headers, order: seq<string>)
    requires IsOrder(h, order)
    ensures HeadersOf(FieldLines(h, order)) == h
  {
    var fs := FieldLines(h, order);
    forall k: string
      ensures k in HeadersOf(fs) <==> k in h
      ensures k in h ==> HeadersOf(fs)[k] == h[k]
    {
      HeadersAreFirst(fs, k);
      if k in h {
        var i :| 0 <= i < |order| && order[i] == k;
        assert fs[i].key == k && forall j :: 0 <= j < i ==> fs[j].key != k;
      }
    }
  }

  lemma {:induction false} GeneratedAreWritten(h: Headers, order: seq<string>)
    requires AreFields(h, order)
    ensures AreWritten(FieldLines(h, order)) && !SomeGapTooWide(FieldLines(h, order))
  {
    forall i | 0 <= i < |order| ensures IsWritten(FieldLines(h, order)[i]) {
      var value := h[order[i]];
      assert order[i] in order;
      assert value != "" ==> value[..1][0] == value[0];
    }
  }

  //// The request line

  lemma {:induction false} NumberValue(n: nat)
    requires n < 1000
    ensures ShowNum(n) != "" && AllDigits(ShowNum(n), 10) && ValueOf(ShowNum(n), 10) == n
  {
    var s := ShowNum(n);
    if n < 10 {
      assert s[..0] == "";
    } else {
      NumberValue(n / 10);
      assert s[..|s| - 1] == ShowNum(n / 10);
      assert DigitValue(s[|s| - 1]) == n % 10;
    }
  }

  function ReadBack(v: Version, v0: Version): Version {
    Version(v.major, if v.minor == 0 then v0.minor else v.minor)
  }

  lemma {:induction false} ShownNumber(n: nat)
    requires n < 1000
    ensures Spells(ShowNum(n), n, 10)
  {
    NumberValue(n);
    SpelledValue(ShowNum(n), n, 10);
  }

  /** Numbers from 1000 on leave nothing to read. */
  lemma {:induction false} LargeVersion(v: Version, v0: Version, rest: string)
    requires v.major >= 1000 || v.minor >= 1000
    ensures ParseVersion(ShowVersion(v) + (CRLF + rest), v0) == BadVersion(InvalidFormat)
  {
    var tail := (if v.minor == 0 then "" else "." + ShowNum(v.minor)) + (CRLF + rest);
    assert ShowVersion(v) + (CRLF + rest) == "HTTP/" + (ShowNum(v.major) + tail);
    if v.major >= 1000 {
      NoMajor(tail, v0);
    } else {
      assert tail == "." + (CRLF + rest);
      ShownNumber(v.major);
      MajorIsParsed(ShowNum(v.major), v.major, v0, tail);
      AfterDot(v0.(major := v.major), CRLF + rest);
      assert !IsDigitOf((CRLF + rest)[0], 10);
    }
  }

  lemma NoMajor(tail: string, v0: Version)
    requires tail != "" && !IsDigitOf(tail[0], 10)
    ensures ParseVersion("HTTP/" + ("" + tail), v0) == BadVersion(InvalidFormat)
  {
    assert ("HTTP/" + ("" + tail))[5..] == tail;
  }

  /** Major and minor come back, except that a minor 0 is not written at all, and a number
      from 1000 on leaves nothing to read. */
  lemma {:induction false} VersionIsParsed(v: Version, v0: Version, rest: string)
    ensures ParseVersion(ShowVersion(v) + (CRLF + rest), v0) ==
      if v.major >= 1000 || v.minor >= 1000 then BadVersion(InvalidFormat) else VersionText(ReadBack(v, v0), rest)
  {
    if v.major >= 1000 || v.minor >= 1000 {
      LargeVersion(v, v0, rest);
    } else {
      var minor := if v.minor == 0 then None else Some(ShowNum(v.minor));
      ShownNumber(v.major);
      ShownNumber(v.minor);
      assert ShowVersion(v) == VersionLine(ShowNum(v.major), minor);
      VersionLineIsParsed(ShowNum(v.major), v.major, minor, v.minor, v0, rest);
    }
  }

  /** The request line and what follows it, for any request target without blanks. */
  lemma {:induction false} RequestLineIsParsed(
    m: Method, rawPath: string, v: Version, v0: Version, rest: string, beyond: char)
    requires ' ' !in rawPath
    ensures ParseRequestLine(MethodString(m) + " " + (rawPath + " " + (ShowVersion(v) + (CRLF + rest))), beyond, v0) ==
      if m == TRACE || m == InvalidMethod then BadRequest(BadMethod)
      else if v.major >= 1000 || v.minor >= 1000 then BadRequest(InvalidFormat)
      else RequestLine(m, rawPath, ' ', ReadBack(v, v0), rest)
  {
    var line := ShowVersion(v) + (CRLF + rest);
    MethodNameIsRead(m);
    FirstSpace(MethodString(m), rawPath + " " + line);
    FirstSpace(rawPath, line);
    VersionIsParsed(v, v0, rest);
  }

  /** Main result: what `parse` makes, on a fresh request, of a generated request. It succeeds
      exactly when the method is not TRACE (nor invalid), both version numbers are below 1000
      and there is no body. Then it gives back method, raw path, version and headers, whatever
      order the map was written in; a minor version 0 comes back as the default. */
  lemma {:induction false} GeneratedIsParsed(
    m: Method, rawPath: string, v: Version, h: Headers, order: seq<string>, body: string, v0: Version, beyond: char)
    requires ' ' !in rawPath && IsOrder(h, order) && AreFields(h, order)
    ensures ParseHead(RequestHead(m, rawPath, v, h, order) + body, beyond, v0, map[]) ==
      if m == TRACE || m == InvalidMethod then Failed(BadMethod)
      else if v.major >= 1000 || v.minor >= 1000 || body != "" then Failed(InvalidFormat)
      else Parsed(RequestLine(m, rawPath, ' ', ReadBack(v, v0), FieldsText(h, order) + (CRLF + body)), h)
  {
    HeadThenBody(m, rawPath, v, h, order, body);
    RequestLineIsParsed(m, rawPath, v, v0, FieldsText(h, order) + (CRLF + body), beyond);
    AllFieldsAreParsed(h, order, body);
  }

  lemma HeadThenBody(m: Method, rawPath: string, v: Version, h: Headers, order: seq<string>, body: string)
    requires forall k :: k in order ==> k in h
    ensures RequestHead(m, rawPath, v, h, order) + body ==
      MethodString(m) + " " + (rawPath + " " + (ShowVersion(v) + (CRLF + (FieldsText(h, order) + (CRLF + body)))))
  {
    var fields := FieldsText(h, order);
    Regroup(fields, CRLF, body);
    Regroup(CRLF, fields + CRLF, body);
    Regroup(ShowVersion(v), CRLF + (fields + CRLF), body);
    Regroup(rawPath + " ", ShowVersion(v) + (CRLF + (fields + CRLF)), body);
    Regroup(MethodString(m) + " ", rawPath + " " + (ShowVersion(v) + (CRLF + (fields + CRLF))), body);
  }

  lemma {:induction false} AllFieldsAreParsed(h: Headers, order: seq<string>, body: string)
    requires IsOrder(h, order) && AreFields(h, order)
    ensures ParseLines(FieldsText(h, order) + (CRLF + body), map[]) ==
      if body == "" then Lines(h) else BadLines(InvalidFormat)
  {
    var fs := FieldLines(h, order);
    GeneratedLines(h, order);
    GeneratedAreWritten(h, order);
    GeneratedHeaders(h, order);
    LinesAreParsed(fs, CRLF + body, map[]);
    assert HeadersOf(fs) + map[] == h;
    EndIsParsed(body, h);
  }

  /** The same, of the object: what `parse` leaves in a fresh request that is given the text
      generated from a request without a body. The raw path is the old one exactly when that
      begins with '/', as every raw path does that comes from a parsed URL. */
  method ParseGenerated(from: HTTPRequest, order: seq<string>, beyond: char) returns (r: HTTPRequest, code: ParseCode)
    requires IsOrder(from.headers, order) && AreFields(from.headers, order)
    requires ' ' !in from.url.rawPath && from.data.GetOr("") == ""
    ensures code == Success <==>
              from.method_ != TRACE && from.method_ != InvalidMethod && from.version.major < 1000 && from.version.minor < 1000
    ensures code == Success ==>
              && r.method_ == from.method_ && r.headers == from.headers
              && r.version == ReadBack(from.version, Version(1, 1))
              && (r.url.rawPath == from.url.rawPath <==> StartsWith(from.url.rawPath, "/"))
  {
    var text := from.GenerateTo(order);
    r := new HTTPRequest();
    var head := RequestHead(from.method_, from.url.rawPath, from.version, from.headers, order);
    assert text == head + "";
    GeneratedIsParsed(from.method_, from.url.rawPath, from.version, from.headers, order, "", Version(1, 1), beyond);
    code := r.Parse(text, beyond);
  }

  /** Every raw path that parsing a URL leaves begins with '/', so it survives. */
  lemma ParsedRawPath(u: URL, raw: string, beyond: char)
    requires u.Holds(raw, beyond)
    ensures StartsWith(u.rawPath, "/")
  {
  }
}
