/** `HTTPRequest`: parsing a request head, and generating one. */
module HttpRequest {
  import opened Text
  import opened Numbers
  import opened Url

  datatype Method = GET | POST | InvalidMethod | HEAD | OPTIONS | CONNECT | TRACE | PUT | PATCH | DELETE

  /** The codes `parse` returns; Thrown stands for the exception of `substr` behind the end. */
  datatype ParseCode =
    | Success | InvalidFormat | TooManySpaces | SpaceInTheFrontOfHeader | InvalidKeyName | BadMethod | Thrown

  datatype Version = Version(major: nat, minor: nat)

  type Headers = map<string, string>

  predicate StartsWith(s: string, p: string) {
    p <= s
  }

  function GetMethod(token: string): Method {
    if |token| <= 2 then InvalidMethod
    else if StartsWith(token, "GET") then GET
    else if StartsWith(token, "POST") then POST
    else if StartsWith(token, "HEAD") then HEAD
    else if StartsWith(token, "PUT") then PUT
    else if StartsWith(token, "CONNE") then CONNECT
    else if StartsWith(token, "PATCH") then PATCH
    else if StartsWith(token, "DELETE") then DELETE
    else if StartsWith(token, "OPTIONS") then OPTIONS
    else if StartsWith(token, "TRACE\0") then TRACE  // six bytes are compared
    else InvalidMethod
  }

  function MethodString(m: Method): string {
    match m
    case PUT => "PUT" case POST => "POST" case CONNECT => "CONNECT" case TRACE => "TRACE"
    case OPTIONS => "OPTIONS" case PATCH => "PATCH" case HEAD => "HEAD" case GET => "GET"
    case DELETE => "DELETE" case InvalidMethod => "INVALID"
  }

  predicate IsBlankChar(c: char) {
    c == ' ' || c == '\t'
  }

  predicate IsKeyChar(c: char) {
    || 'a' <= c <= 'z' || 'A' <= c <= 'Z' || '0' <= c <= '9'
    || c == '!' || c == '#' || c == '$' || c == '%' || c == '&' || c == '\'' || c == '*' || c == '+' || c == '-'
    || c == '.' || c == '^' || c == '_' || c == '`' || c == '|' || c == '~'
  }

  predicate IsKey(s: string) {
    forall i :: 0 <= i < |s| ==> IsKeyChar(s[i])
  }

  function Blanks(s: string): (n: nat)
    ensures n <= |s|
  {
    if s == "" || !IsBlankChar(s[0]) then 0 else 1 + Blanks(s[1..])
  }

  //// Header lines

  datatype Line = BadLine(code: ParseCode) | Field(key: string, value: string)

  function ParseLine(line: string): (r: Line)
    requires line != ""
    ensures r.BadLine? ==> r.code != Success
  {
    var colon := IndexOf(line, ':');
    if IsBlankChar(line[0]) then BadLine(SpaceInTheFrontOfHeader)
    else if colon == |line| then BadLine(InvalidFormat)
    else ParseField(line[..colon], line[colon + 1..])
  }

  function ParseField(key: string, tail: string): (r: Line)
    ensures r.BadLine? ==> r.code != Success
  {
    if !IsKey(key) then BadLine(InvalidKeyName)
    else if Blanks(tail) > 33 then BadLine(TooManySpaces)
    else Field(key, tail[Blanks(tail)..])
  }

  /** `emplace`: the first value of a name stays. */
  function Emplace(h: Headers, key: string, value: string): Headers {
    if key in h then h else h[key := value]
  }

  datatype Lines = BadLines(code: ParseCode) | Lines(headers: Headers)

  /** The lines down to the empty line, which must end the text. */
  function ParseLines(text: string, h: Headers): (r: Lines)
    ensures r.BadLines? ==> r.code != Success
    decreases |text|
  {
    var i := FindCrlf(text);
    if i == |text| then BadLines(InvalidFormat)
    else if i == 0 then if |text| == 2 then Lines(h) else BadLines(InvalidFormat)
    else
      match ParseLine(text[..i])
      case BadLine(code) => BadLines(code)
      case Field(key, value) => ParseLines(text[i + 2..], Emplace(h, key, value))
  }

  //// The request line

  datatype VersionText = BadVersion(code: ParseCode) | VersionText(version: Version, rest: string)

  /** "HTTP/", a number, perhaps "." and a number, then CR; v is what the object held before. */
  function ParseVersion(text: string, v: Version): VersionText {
    if !StartsWith(text, "HTTP/") then BadVersion(InvalidFormat) else
    var t := text[5..];
    var n := DigitRun(t, 10);
    if n == 0 then BadVersion(InvalidFormat) else
    ParseMinor(v.(major := ValueOf(t[..n], 10)), t[n..])
  }

  function ParseMinor(v: Version, t: string): VersionText {
    if !StartsWith(t, ".") then EndOfLine(v, t) else
    var u := t[1..];
    var m := DigitRun(u, 10);
    if m == 0 then BadVersion(InvalidFormat) else EndOfLine(v.(minor := ValueOf(u[..m], 10)), u[m..])
  }

  /** Two bytes are skipped if the first is CR. */
  function EndOfLine(v: Version, t: string): VersionText {
    if !StartsWith(t, "\r") then BadVersion(InvalidFormat)
    else if |t| < 2 then BadVersion(Thrown)
    else VersionText(v, t[2..])
  }

  /** Where the raw URL and the version start, and the byte behind the URL. When there is no
      second space the offset wraps around: both start behind the first space. */
  datatype Target = Target(url: string, behind: char, rest: string)

  function ParseTarget(text: string, beyond: char): Target {
    var i := IndexOf(text, ' ');
    if i < |text| then Target(text[..i], ' ', text[i + 1..]) else Target(text, beyond, text)
  }

  datatype RequestLine =
    | BadRequest(code: ParseCode)
    | RequestLine(method_: Method, url: string, behind: char, version: Version, rest: string)

  function ParseRequestLine(str: string, beyond: char, v: Version): (r: RequestLine)
    ensures r.BadRequest? ==> r.code != Success
  {
    var i := IndexOf(str, ' ');
    if i == |str| then BadRequest(InvalidFormat) else
    var m := GetMethod(str[..i]);
    if m == InvalidMethod then BadRequest(BadMethod) else
    var target := ParseTarget(str[i + 1..], beyond);
    match ParseVersion(target.rest, v)
    case BadVersion(code) => BadRequest(code)
    case VersionText(version, rest) => RequestLine(m, target.url, target.behind, version, rest)
  }

  datatype Parsed = Failed(code: ParseCode) | Parsed(line: RequestLine, headers: Headers)

  function ParseHead(str: string, beyond: char, v: Version, h: Headers): (p: Parsed)
    ensures p.Failed? ==> p.code != Success
    ensures p.Parsed? ==> p.line.RequestLine?
  {
    var line := ParseRequestLine(str, beyond, v);
    if line.BadRequest? then Failed(line.code) else
    match ParseLines(line.rest, h)
    case BadLines(code) => Failed(code)
    case Lines(headers) => Parsed(line, headers)
  }

  //// Generating

  /** `append_num`: nothing at all from 1000 on. */
  function ShowNum(n: nat): string {
    if n < 10 then ['0' + n as char]
    else if n < 100 then ['0' + (n / 10) as char, '0' + (n % 10) as char]
    else if n < 1000 then ['0' + (n / 100) as char, '0' + (n / 10 % 10) as char, '0' + (n % 10) as char]
    else ""
  }

  function ShowVersion(v: Version): string {
    "HTTP/" + ShowNum(v.major) + (if v.minor == 0 then "" else "." + ShowNum(v.minor))
  }

  function FieldText(key: string, value: string): string {
    key + ": " + value + CRLF
  }

  /** The header lines in the order in which the hash map yields its keys. */
  function FieldsText(h: Headers, order: seq<string>): string
    requires forall k :: k in order ==> k in h
  {
    if order == [] then "" else FieldText(order[0], h[order[0]]) + FieldsText(h, order[1..])
  }

  ghost predicate IsOrder(h: Headers, order: seq<string>) {
    && (forall k :: k in order <==> k in h)
    && forall i, j :: 0 <= i < j < |order| ==> order[i] != order[j]
  }

  function RequestHead(m: Method, rawPath: string, v: Version, h: Headers, order: seq<string>): string
    requires forall k :: k in order ==> k in h
  {
    MethodString(m) + " " + (rawPath + " " + (ShowVersion(v) + (CRLF + (FieldsText(h, order) + CRLF))))
  }

  class HTTPRequest {
    var method_: Method
    const url: URL
    var version: Version
    var headers: Headers
    var data: Option<string>

    constructor ()
      ensures version == Version(1, 1) && headers == map[] && data == None && fresh(url)
    {
      method_, version, headers, data := InvalidMethod, Version(1, 1), map[], None;
      url := new URL();
    }

    method Parse(str: string, beyond: char) returns (code: ParseCode)
      modifies this, url
      ensures var p := ParseHead(str, beyond, old(version), old(headers));
        if p.Failed? then code == p.code
        else
          && code == Success && method_ == p.line.method_ && version == p.line.version
          && headers == p.headers && url.Holds(p.line.url, p.line.behind)
    {
      var rest;
      code, rest := ReadRequestLine(str, beyond);
      if code == Success {
        code := ReadHeaderLines(rest);
      }
    }

    method ReadRequestLine(str: string, beyond: char) returns (code: ParseCode, rest: string)
      modifies this`method_, this`version, url
      ensures var line := ParseRequestLine(str, beyond, old(version));
        if line.BadRequest? then code == line.code
        else
          && code == Success && method_ == line.method_ && version == line.version && rest == line.rest
          && url.Holds(line.url, line.behind)
    {
      rest := "";
      ghost var line := ParseRequestLine(str, beyond, version);
      var pos := IndexOf(str, ' ');
      if pos == |str| { return InvalidFormat, rest; }
      method_ := GetMethod(str[..pos]);
      if method_ == InvalidMethod { return BadMethod, rest; }
      var target := ParseTarget(str[pos + 1..], beyond);
      var v := ParseVersion(target.rest, version);
      assert line == if v.BadVersion? then BadRequest(v.code)
                     else RequestLine(method_, target.url, target.behind, v.version, v.rest);
      url.ParseRawUrl(target.url, target.behind);
      if v.BadVersion? { return v.code, rest; }
      version := v.version;
      return Success, v.rest;
    }

    method ReadHeaderLines(str: string) returns (code: ParseCode)
      modifies this`headers
      ensures match ParseLines(str, old(headers))
              case BadLines(c) => code == c
              case Lines(h) => code == Success && headers == h
    {
      var rest := str;
      while true
        invariant ParseLines(str, old(headers)) == ParseLines(rest, headers)
        decreases |rest|
      {
        var pos := FindCrlf(rest);
        if pos == |rest| { return InvalidFormat; }
        if pos == 0 {
          return if |rest| == 2 then Success else InvalidFormat;
        }
        var line := ParseLine(rest[..pos]);
        if line.BadLine? { return line.code; }
        if line.key !in headers {
          headers := headers[line.key := line.value];
        }
        rest := rest[pos + 2..];
      }
    }

    /** The map yields its keys in the given order. */
    method GenerateTo(order: seq<string>) returns (out: string)
      requires IsOrder(headers, order)
      ensures out == RequestHead(method_, url.rawPath, version, headers, order) + data.GetOr("")
    {
      out := MethodString(method_) + " " + url.rawPath + " " + ShowVersion(version) + CRLF;
      ghost var start := out;
      for n := 0 to |order|
        invariant out + FieldsText(headers, order[n..]) == start + FieldsText(headers, order)
      {
        ghost var before := out;
        out := out + order[n] + ": " + headers[order[n]] + CRLF;
        FieldsStep(headers, order, n, before, out);
      }
      assert order[|order|..] == [];
      out := out + CRLF;
      HeadShape(method_, url.rawPath, version, headers, order);
      if data.Some? && |data.value| != 0 {
        out := out + data.value;
      }
    }
  }

  lemma FieldsStep(h: Headers, order: seq<string>, n: nat, before: string, after: string)
    requires (forall k :: k in order ==> k in h) && n < |order|
    requires after == before + order[n] + ": " + h[order[n]] + CRLF
    ensures after + FieldsText(h, order[n + 1..]) == before + FieldsText(h, order[n..])
  {
    assert order[n..][1..] == order[n + 1..];
    assert after == before + FieldText(order[n], h[order[n]]);
    Regroup(before, FieldText(order[n], h[order[n]]), FieldsText(h, order[n + 1..]));
  }

  lemma HeadShape(m: Method, rawPath: string, v: Version, h: Headers, order: seq<string>)
    requires forall k :: k in order ==> k in h
    ensures RequestHead(m, rawPath, v, h, order) ==
      MethodString(m) + " " + rawPath + " " + ShowVersion(v) + CRLF + FieldsText(h, order) + CRLF
  {
  }
}
