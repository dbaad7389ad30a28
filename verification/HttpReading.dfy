/** Reading request heads, however they are written. */
module HttpReading {
  import opened Text
  import opened Numbers
  import opened HttpRequest

  lemma {:induction false} NoCrlfJoin(a: string, c: char, b: string)
    requires '\r' !in a && NoCrlf(b) && c != '\r'
    ensures NoCrlf(a + [c] + b)
  {
    var s := a + [c] + b;
    forall i: nat | i < |s| ensures !CrlfAt(s, i) {
      if i <= |a| {
        assert s[i] == if i < |a| then a[i] else c;
      } else {
        assert !CrlfAt(b, i - |a| - 1);
        assert s[i] == b[i - |a| - 1] && (i + 1 < |s| ==> s[i + 1] == b[i - |a|]);
      }
    }
    FindCrlfIs(s, |s|);
  }

  lemma {:induction false} KeyText(key: string)
    requires IsKey(key)
    ensures '\r' !in key && forall i :: 0 <= i < |key| ==> key[i] != ':' && !IsBlankChar(key[i])
  {
  }

  /** The characters of a token, section 5.6.2 of RFC 9110. */
  lemma TokenCharacters(c: char)
    ensures IsKeyChar(c) <==>
      c in "!#$%&'*+-.^_`|~" || c in "0123456789" || c in "abcdefghijklmnopqrstuvwxyz" || c in "ABCDEFGHIJKLMNOPQRSTUVWXYZ"
  {
    LettersAndDigits(c);
  }

  lemma LettersAndDigits(c: char)
    ensures c in "0123456789" <==> '0' <= c <= '9'
    ensures c in "abcdefghijklmnopqrstuvwxyz" <==> 'a' <= c <= 'z'
    ensures c in "ABCDEFGHIJKLMNOPQRSTUVWXYZ" <==> 'A' <= c <= 'Z'
  {
    InAlphabet(c, '0', "0123456789");
    InAlphabet(c, 'a', "abcdefghijklmnopqrstuvwxyz");
    InAlphabet(c, 'A', "ABCDEFGHIJKLMNOPQRSTUVWXYZ");
  }

  lemma InAlphabet(c: char, first: char, s: string)
    requires first as int + |s| < 0xD800 && forall i :: 0 <= i < |s| ==> s[i] == first + i as char
    ensures c in s <==> first as int <= c as int < first as int + |s|
  {
    if first as int <= c as int < first as int + |s| {
      assert s[c as int - first as int] == c;
    }
  }

  //// Header lines

  /** A header line: a name, ':', blanks or tabs, and a value that starts with neither. */
  datatype FieldLine = FieldLine(key: string, gap: string, value: string)

  predicate IsBlankRun(s: string) {
    forall i :: 0 <= i < |s| ==> s[i] == ' ' || s[i] == '\t'
  }

  predicate IsWritten(f: FieldLine) {
    && IsKey(f.key) && IsBlankRun(f.gap)
    && NoCrlf(f.value) && (f.value == "" || !IsBlankRun(f.value[..1]))
  }

  predicate AreWritten(fs: seq<FieldLine>) {
    forall i :: 0 <= i < |fs| ==> IsWritten(fs[i])
  }

  function LineText(f: FieldLine): string {
    f.key + ":" + (f.gap + f.value)
  }

  lemma {:induction false} BlankRun(gap: string, value: string)
    requires IsBlankRun(gap) && (value == "" || !IsBlankRun(value[..1]))
    ensures Blanks(gap + value) == |gap| && (gap + value)[|gap|..] == value
    decreases |gap|
  {
    if gap == "" {
      assert gap + value == value;
      assert value != "" ==> value[..1] == [value[0]];
    } else {
      BlankRun(gap[1..], value);
      assert (gap + value)[1..] == gap[1..] + value;
    }
  }

  lemma {:induction false} ColonSplits(key: string, tail: string)
    requires ':' !in key
    ensures var line := key + ":" + tail;
      IndexOf(line, ':') == |key| && line[..|key|] == key && line[|key| + 1..] == tail
      && line[0] == (if key == "" then ':' else key[0])
  {
    var line := key + ":" + tail;
    assert forall i :: 0 <= i < |key| ==> line[i] == key[i];
    assert line[|key|] == ':';
  }

  /** Any number of blanks up to 33 is skipped, and nothing else. */
  lemma {:induction false} LineIsRead(f: FieldLine)
    requires IsWritten(f)
    ensures LineText(f) != "" && NoCrlf(LineText(f))
    ensures ParseLine(LineText(f)) == if |f.gap| <= 33 then Field(f.key, f.value) else BadLine(TooManySpaces)
  {
    KeyText(f.key);
    ColonSplits(f.key, f.gap + f.value);
    BlankRun(f.gap, f.value);
    GapHasNoCrlf(f.gap, f.value);
    NoCrlfJoin(f.key, ':', f.gap + f.value);
  }

  lemma {:induction false} GapHasNoCrlf(gap: string, value: string)
    requires IsBlankRun(gap) && NoCrlf(value)
    ensures NoCrlf(gap + value)
    decreases |gap|
  {
    if gap == "" {
      assert gap + value == value;
    } else {
      GapHasNoCrlf(gap[1..], value);
      NoCrlfJoin("", gap[0], gap[1..] + value);
      assert gap + value == "" + [gap[0]] + (gap[1..] + value);
    }
  }

  lemma CutAtColon(line: string, i: nat)
    requires i < |line| && line[i] == ':'
    ensures line == line[..i] + ":" + line[i + 1..]
  {
  }

  lemma {:induction false} TailGap(name: string, tail: string, key: string, value: string) returns (gap: string)
    requires NoCrlf(value) && ParseField(name, tail) == Field(key, value)
    ensures key == name && IsWritten(FieldLine(key, gap, value)) && |gap| <= 33 && tail == gap + value
  {
    gap := tail[..Blanks(tail)];
    BlanksAreBlank(tail);
  }

  lemma {:induction false} FieldGap(line: string, key: string, value: string) returns (gap: string)
    requires line != "" && NoCrlf(value) && ParseLine(line) == Field(key, value)
    ensures IsWritten(FieldLine(key, gap, value)) && |gap| <= 33 && line == LineText(FieldLine(key, gap, value))
  {
    var i := IndexOf(line, ':');
    CutAtColon(line, i);
    gap := TailGap(line[..i], line[i + 1..], key, value);
  }

  /** A line is read as a field exactly if it is one. */
  lemma {:induction false} LineIsExact(line: string, key: string, value: string)
    requires line != "" && NoCrlf(value)
    ensures ParseLine(line) == Field(key, value) <==>
      exists gap :: IsWritten(FieldLine(key, gap, value)) && |gap| <= 33 && line == LineText(FieldLine(key, gap, value))
  {
    if ParseLine(line) == Field(key, value) {
      var gap := FieldGap(line, key, value);
    }
    forall gap | IsWritten(FieldLine(key, gap, value)) && |gap| <= 33 && line == LineText(FieldLine(key, gap, value))
      ensures ParseLine(line) == Field(key, value)
    {
      LineIsRead(FieldLine(key, gap, value));
    }
  }

  /** Which lines are refused, and how. */
  lemma {:induction false} BadLineCodes(line: string)
    requires line != ""
    ensures line[0] == ' ' || line[0] == '\t' ==> ParseLine(line) == BadLine(SpaceInTheFrontOfHeader)
    ensures line[0] != ' ' && line[0] != '\t' && ':' !in line ==> ParseLine(line) == BadLine(InvalidFormat)
  {
  }

  lemma {:induction false} BadNameCode(name: string, tail: string)
    requires ':' !in name && !IsKey(name) && !IsBlankRun(name[..1])
    ensures ParseLine(name + ":" + tail) == BadLine(InvalidKeyName)
  {
    ColonSplits(name, tail);
    assert name[..1][0] == name[0];
  }

  lemma {:induction false} BlanksAreBlank(s: string)
    ensures IsBlankRun(s[..Blanks(s)]) && (Blanks(s) < |s| ==> !IsBlankRun(s[Blanks(s)..][..1]))
  {
    if s != "" && IsBlankChar(s[0]) {
      BlanksAreBlank(s[1..]);
      assert s[..Blanks(s)] == [s[0]] + s[1..][..Blanks(s[1..])];
      assert s[Blanks(s)..] == s[1..][Blanks(s[1..])..];
    } else if s != "" {
      assert s[0..][..1] == [s[0]] && [s[0]][0] == s[0];
    }
  }

  function LinesText(fs: seq<FieldLine>): string {
    if fs == [] then "" else LineText(fs[0]) + CRLF + LinesText(fs[1..])
  }

  /** The headers that lines state: of several lines with one name the first counts. */
  function HeadersOf(fs: seq<FieldLine>): Headers {
    if fs == [] then map[] else HeadersOf(fs[1..])[fs[0].key := fs[0].value]
  }

  /** Read as: k has the value of the first line with that name. */
  lemma {:induction false} HeadersAreFirst(fs: seq<FieldLine>, k: string)
    ensures k in HeadersOf(fs) <==> exists i :: 0 <= i < |fs| && fs[i].key == k
    ensures forall i :: 0 <= i < |fs| && fs[i].key == k && (forall j :: 0 <= j < i ==> fs[j].key != k) ==>
              k in HeadersOf(fs) && HeadersOf(fs)[k] == fs[i].value
  {
    if fs != [] {
      HeadersAreFirst(fs[1..], k);
      assert forall i :: 0 < i < |fs| ==> fs[i] == fs[1..][i - 1];
      assert forall i :: 0 <= i < |fs[1..]| ==> fs[1..][i] == fs[i + 1];
      if fs[0].key != k {
        forall i | 0 <= i < |fs| && fs[i].key == k && (forall j :: 0 <= j < i ==> fs[j].key != k)
          ensures k in HeadersOf(fs) && HeadersOf(fs)[k] == fs[i].value
        {
          assert fs[1..][i - 1].key == k;
          assert forall j :: 0 <= j < i - 1 ==> fs[1..][j].key != k;
        }
      }
    }
  }

  predicate SomeGapTooWide(fs: seq<FieldLine>) {
    exists i :: 0 <= i < |fs| && |fs[i].gap| > 33
  }

  lemma {:induction false} FirstGapOrLater(fs: seq<FieldLine>)
    requires fs != []
    ensures SomeGapTooWide(fs) <==> |fs[0].gap| > 33 || SomeGapTooWide(fs[1..])
  {
    assert forall i :: 0 < i < |fs| ==> fs[i] == fs[1..][i - 1];
    assert forall i :: 0 <= i < |fs[1..]| ==> fs[1..][i] == fs[i + 1];
  }

  lemma {:induction false} OneLineIsParsed(f: FieldLine, rest: string, base: Headers)
    requires IsWritten(f)
    ensures ParseLines(LineText(f) + CRLF + rest, base) ==
      if |f.gap| <= 33 then ParseLines(rest, Emplace(base, f.key, f.value)) else BadLines(TooManySpaces)
  {
    var line := LineText(f);
    var text := line + CRLF + rest;
    LineIsRead(f);
    FindCrlfAfterLine(line, rest);
    assert text[..|line|] == line && text[|line| + 2..] == rest;
  }

  lemma EmplaceUnder(fs: seq<FieldLine>, base: Headers)
    requires fs != []
    ensures HeadersOf(fs[1..]) + Emplace(base, fs[0].key, fs[0].value) == HeadersOf(fs) + base
  {
  }

  /** What was there before stays; then the first line with a name counts. */
  lemma {:induction false} LinesAreParsed(fs: seq<FieldLine>, rest: string, base: Headers)
    requires AreWritten(fs)
    ensures ParseLines(LinesText(fs) + rest, base) ==
      if SomeGapTooWide(fs) then BadLines(TooManySpaces) else ParseLines(rest, HeadersOf(fs) + base)
    decreases |fs|
  {
    if fs == [] {
      assert LinesText(fs) + rest == rest && HeadersOf(fs) + base == base;
    } else {
      var f := fs[0];
      Regroup(LineText(f) + CRLF, LinesText(fs[1..]), rest);
      OneLineIsParsed(f, LinesText(fs[1..]) + rest, base);
      LinesAreParsed(fs[1..], rest, Emplace(base, f.key, f.value));
      FirstGapOrLater(fs);
      EmplaceUnder(fs, base);
    }
  }

  lemma {:induction false} EndIsParsed(body: string, h: Headers)
    ensures ParseLines(CRLF + body, h) == if body == "" then Lines(h) else BadLines(InvalidFormat)
  {
    assert FindCrlf(CRLF + body) == 0;
  }

  //// The request line

  lemma NoDot(v: Version, rest: string)
    ensures ParseMinor(v, CRLF + rest) == VersionText(v, rest)
  {
    assert (CRLF + rest)[0] == '\r';
    LineEnd(v, rest);
  }

  lemma AfterDot(v: Version, u: string)
    ensures ParseMinor(v, "." + u) ==
      var m := DigitRun(u, 10);
      if m == 0 then BadVersion(InvalidFormat) else EndOfLine(v.(minor := ValueOf(u[..m], 10)), u[m..])
  {
    assert ("." + u)[..1] == "." && ("." + u)[1..] == u;
  }

  lemma LineEnd(v: Version, rest: string)
    ensures EndOfLine(v, CRLF + rest) == VersionText(v, rest)
  {
    assert (CRLF + rest)[2..] == rest;
    assert (CRLF + rest)[0] == '\r';
  }

  /** A version as a client writes it: the major number, and perhaps the minor one. */
  function VersionLine(major: string, minor: Option<string>): string {
    "HTTP/" + (major + if minor.None? then "" else "." + minor.value)
  }

  lemma {:induction false} VersionLineIsParsed(
    major: string, n: nat, minor: Option<string>, k: nat, v0: Version, rest: string)
    requires Spells(major, n, 10) && (minor.Some? ==> Spells(minor.value, k, 10))
    ensures ParseVersion(VersionLine(major, minor) + (CRLF + rest), v0) ==
      VersionText(Version(n, if minor.None? then v0.minor else k), rest)
  {
    if minor.None? {
      assert VersionLine(major, minor) + (CRLF + rest) == "HTTP/" + (major + (CRLF + rest));
      MajorIsParsed(major, n, v0, CRLF + rest);
      NoDot(v0.(major := n), rest);
    } else {
      var tail := "." + (minor.value + (CRLF + rest));
      assert VersionLine(major, minor) + (CRLF + rest) == "HTTP/" + (major + tail);
      MajorIsParsed(major, n, v0, tail);
      AfterDot(v0.(major := n), minor.value + (CRLF + rest));
      NumberThen(minor.value, k, CRLF + rest);
      LineEnd(Version(n, k), rest);
    }
  }

  lemma {:induction false} MajorIsParsed(major: string, n: nat, v0: Version, tail: string)
    requires Spells(major, n, 10) && tail != "" && (tail[0] == '.' || tail[0] == '\r')
    ensures ParseVersion("HTTP/" + (major + tail), v0) == ParseMinor(v0.(major := n), tail)
  {
    var text := "HTTP/" + (major + tail);
    assert text[5..] == major + tail && text[..5] == "HTTP/";
    NumberThen(major, n, tail);
  }

  /** What may follow a version: CR and one more byte, whatever it is. CR as the last byte is
      not caught. */
  lemma {:induction false} VersionTail(major: string, n: nat, k: nat, minor: string, v0: Version, tail: string)
    requires Spells(major, n, 10) && Spells(minor, k, 10) && (tail == "" || IsNoDigit(tail[0], 10))
    ensures ParseVersion(VersionLine(major, Some(minor)) + tail, v0) ==
      if tail == "" || tail[0] != '\r' then BadVersion(InvalidFormat)
      else if |tail| == 1 then BadVersion(Thrown)
      else VersionText(Version(n, k), tail[2..])
  {
    VersionInParts(major, minor, tail);
    MajorIsParsed(major, n, v0, "." + (minor + tail));
    MinorThen(minor, k, v0.(major := n), tail);
  }

  lemma VersionInParts(major: string, minor: string, tail: string)
    ensures VersionLine(major, Some(minor)) + tail == "HTTP/" + (major + ("." + (minor + tail)))
  {
    Regroup(".", minor, tail);
    Regroup(major, "." + minor, tail);
    Regroup("HTTP/", major + ("." + minor), tail);
  }

  lemma {:induction false} MinorThen(minor: string, k: nat, v: Version, tail: string)
    requires Spells(minor, k, 10) && (tail == "" || IsNoDigit(tail[0], 10))
    ensures ParseMinor(v, "." + (minor + tail)) == EndOfLine(v.(minor := k), tail)
  {
    AfterDot(v, minor + tail);
    LeadingIsSpelled(minor, tail, k, 10);
    SpelledValue(minor, k, 10);
    FrontAndTail(minor, tail);
  }

  lemma FrontAndTail(a: string, b: string)
    ensures (a + b)[..|a|] == a && (a + b)[|a|..] == b
  {
  }

  lemma {:induction false} NumberThen(digits: string, n: nat, tail: string)
    requires Spells(digits, n, 10) && tail != "" && (tail[0] == '.' || tail[0] == '\r')
    ensures var run := DigitRun(digits + tail, 10);
      run == |digits| > 0 && (digits + tail)[..run] == digits && (digits + tail)[run..] == tail
    ensures AllDigits(digits, 10) && ValueOf(digits, 10) == n
  {
    SpelledValue(digits, n, 10);
    LeadingIs(digits, tail, 10);
  }

  lemma {:induction false} FirstSpace(s: string, rest: string)
    requires ' ' !in s
    ensures IndexOf(s + " " + rest, ' ') == |s|
    ensures (s + " " + rest)[..|s|] == s && (s + " " + rest)[|s| + 1..] == rest
  {
    var t := s + " " + rest;
    assert t[|s|] == ' ' && forall j :: 0 <= j < |s| ==> t[j] == s[j];
  }

  /** The name of a method is read back as that method, except for TRACE. */
  lemma MethodNameIsRead(m: Method)
    ensures ' ' !in MethodString(m)
    ensures GetMethod(MethodString(m)) == if m == TRACE then InvalidMethod else m
  {
    var s := MethodString(m);
    Differs(s, "GET", 0);
    match m
    case GET =>
    case POST =>
    case PUT => Differs(s, "POST", 1); Differs(s, "HEAD", 0);
    case PATCH => Differs(s, "POST", 1); Differs(s, "HEAD", 0); Differs(s, "PUT", 1); Differs(s, "CONNE", 0);
    case HEAD => Differs(s, "POST", 0);
    case _ =>
      Differs(s, "POST", 0);
      Differs(s, "HEAD", 0);
      Differs(s, "PUT", 0);
      Differs(s, "CONNE", 0);
      Differs(s, "PATCH", 0);
      Differs(s, "DELETE", 0);
      Differs(s, "OPTIONS", 0);
      Differs(s, "TRACE\0", 0);
  }

  lemma Differs(s: string, name: string, i: nat)
    ensures i < |s| && i < |name| && s[i] != name[i] ==> !StartsWith(s, name)
  {
  }

  /** What a token has to start with to be read as a method. */
  function ReadAs(m: Method): string {
    match m case CONNECT => "CONNE" case TRACE => "TRACE\0" case _ => MethodString(m)
  }

  /** A token is a method exactly when it starts with its name, or with the part of it that
      is compared. */
  lemma {:induction false} MethodIsPrefix(token: string, m: Method)
    requires m != InvalidMethod
    ensures GetMethod(token) == m <==> StartsWith(token, ReadAs(m))
  {
    if |token| >= 3 {
      var t := token[..3];
      assert t == [token[0], token[1], token[2]];
    }
  }

  function RequestText(m: Method, target: string, version: string, fs: seq<FieldLine>): string {
    MethodString(m) + " " + (target + " " + (version + (CRLF + (LinesText(fs) + CRLF))))
  }

  lemma {:induction false} RequestLineIsRead(
    m: Method, target: string, version: string, v: Version, v0: Version, rest: string, beyond: char)
    requires ' ' !in target && ParseVersion(version + (CRLF + rest), v0) == VersionText(v, rest)
    ensures ParseRequestLine(MethodString(m) + " " + (target + " " + (version + (CRLF + rest))), beyond, v0) ==
      if m == TRACE || m == InvalidMethod then BadRequest(BadMethod) else RequestLine(m, target, ' ', v, rest)
  {
    var line := version + (CRLF + rest);
    MethodNameIsRead(m);
    FirstSpace(MethodString(m), target + " " + line);
    FirstSpace(target, line);
  }

  /** Main result: a head of any method, target, version and header lines, with any blanks
      behind the colons and any names repeated, is read as just that. */
  lemma {:induction false} WrittenIsParsed(
    m: Method, target: string, major: string, n: nat, minor: Option<string>, k: nat, fs: seq<FieldLine>,
    v0: Version, beyond: char)
    requires ' ' !in target && Spells(major, n, 10) && (minor.Some? ==> Spells(minor.value, k, 10)) && AreWritten(fs)
    ensures ParseHead(RequestText(m, target, VersionLine(major, minor), fs), beyond, v0, map[]) ==
      if m == TRACE || m == InvalidMethod then Failed(BadMethod)
      else if SomeGapTooWide(fs) then Failed(TooManySpaces)
      else
        var v := Version(n, if minor.None? then v0.minor else k);
        Parsed(RequestLine(m, target, ' ', v, LinesText(fs) + CRLF), HeadersOf(fs))
  {
    var v := Version(n, if minor.None? then v0.minor else k);
    VersionLineIsParsed(major, n, minor, k, v0, LinesText(fs) + CRLF);
    RequestLineIsRead(m, target, VersionLine(major, minor), v, v0, LinesText(fs) + CRLF, beyond);
    AllLinesAreParsed(fs);
  }

  lemma {:induction false} AllLinesAreParsed(fs: seq<FieldLine>)
    requires AreWritten(fs)
    ensures ParseLines(LinesText(fs) + CRLF, map[]) ==
      if SomeGapTooWide(fs) then BadLines(TooManySpaces) else Lines(HeadersOf(fs))
  {
    LinesAreParsed(fs, CRLF, map[]);
    assert HeadersOf(fs) + map[] == HeadersOf(fs);
    assert CRLF + "" == CRLF;
    EndIsParsed("", HeadersOf(fs));
  }

  /** Without a blank behind the target, the offset of the version wraps around: the text
      behind the method is the target and the version at once. */
  lemma {:induction false} NoTargetIsParsed(
    m: Method, major: string, n: nat, minor: Option<string>, k: nat, rest: string, v0: Version, beyond: char)
    requires Spells(major, n, 10) && (minor.Some? ==> Spells(minor.value, k, 10))
    requires ' ' !in VersionLine(major, minor) + (CRLF + rest)
    ensures var text := VersionLine(major, minor) + (CRLF + rest);
      ParseRequestLine(MethodString(m) + " " + text, beyond, v0) ==
        if m == TRACE || m == InvalidMethod then BadRequest(BadMethod)
        else RequestLine(m, text, beyond, Version(n, if minor.None? then v0.minor else k), rest)
  {
    var text := VersionLine(major, minor) + (CRLF + rest);
    MethodNameIsRead(m);
    FirstSpace(MethodString(m), text);
    assert IndexOf(text, ' ') == |text| && text[..|text|] == text;
    VersionLineIsParsed(major, n, minor, k, v0, rest);
  }
}
