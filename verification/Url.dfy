/** `URL::parse_raw_url`: percent decoding in one pass, and a view of the part before '?'. */
module Url {
  import opened Text
  import opened Numbers

  predicate IsHex(c: char) {
    IsDigitOf(c, 16)
  }

  /** A decoded value that may stay in a path. */
  predicate Acceptable(v: int) {
    v == 0x09 || v == 0x0A || v == 0x0D || !(v <= 0x1F || v == 0x7F || v > 0xFF)
  }

  /** What `strtol` makes of two characters in base 16: the value and how many it used. */
  datatype Hex = Hex(value: int, used: nat)

  function BlanksBefore(s: string): (n: nat)
    ensures n <= |s|
  {
    if s == "" || !IsSpace(s[0]) then 0 else 1 + BlanksBefore(s[1..])
  }

  /** `strtol`: blanks, a sign, a prefix 0x in base 16, and digits. */
  function Strtol(s: string, base: nat): Hex
    requires base == 10 || base == 16
  {
    var i := BlanksBefore(s);
    var j := if i < |s| && (s[i] == '+' || s[i] == '-') then i + 1 else i;
    var k := if base == 16 && j + 2 < |s| && s[j] == '0' && (s[j + 1] == 'x' || s[j + 1] == 'X')
                && IsDigitOf(s[j + 2], 16) then j + 2 else j;
    var n := DigitRun(s[k..], base);
    if n == 0 then Hex(0, 0) else
    var v: int := ValueOf(s[k..][..n], base);
    Hex(if j > i && s[i] == '-' then -v else v, k + n)
  }

  /** The same for two characters, case by case. */
  function ReadHex(a: char, b: char): (h: Hex)
    ensures h.used <= 2
  {
    if IsHex(a) then
      if IsHex(b) then Hex(16 * DigitValue(a) + DigitValue(b), 2) else Hex(DigitValue(a), 1)
    else if (IsSpace(a) || a == '+') && IsHex(b) then Hex(DigitValue(b), 2)
    else if a == '-' && IsHex(b) then Hex(-(DigitValue(b) as int), 2)
    else Hex(0, 0)
  }

  predicate IsGood(h: Hex) {
    h.used == 2 && Acceptable(h.value)
  }

  /** The character at i; one place behind the text is whatever byte follows it in memory. */
  function Peek(raw: string, i: nat, beyond: char): char {
    if i < |raw| then raw[i] else beyond
  }

  function EscapeAt(raw: string, i: nat, beyond: char): Hex {
    ReadHex(Peek(raw, i + 1, beyond), Peek(raw, i + 2, beyond))
  }

  /** A '%' that is the last character ends the loop. */
  predicate Stops(raw: string, i: nat) {
    i >= |raw| || (raw[i] == '%' && |raw| - i < 2)
  }

  function Width(raw: string, i: nat, beyond: char): (w: nat)
    requires !Stops(raw, i)
    ensures w >= 1
  {
    if raw[i] == '%' then 1 + EscapeAt(raw, i, beyond).used else 1
  }

  function Piece(raw: string, i: nat, beyond: char): string
    requires !Stops(raw, i)
  {
    if raw[i] == '%' then
      var h := EscapeAt(raw, i, beyond);
      if IsGood(h) then [h.value as char] else ""
    else if raw[i] == '+' then " "
    else [raw[i]]
  }

  /** What the loop writes from position i on. */
  function Decoded(raw: string, i: nat, beyond: char): string
    decreases |raw| - i
  {
    if Stops(raw, i) then "" else Piece(raw, i, beyond) + Decoded(raw, i + Width(raw, i, beyond), beyond)
  }

  /** How the piece at i moves the offset of the '?'. The code compares its unsigned index
      with `original`, so -1 (no '?') counts as beyond every index. */
  function Shift(raw: string, i: nat, original: int, beyond: char): int
    requires !Stops(raw, i)
  {
    if raw[i] == '%' && (original < 0 || i + 2 <= original) then
      var h := EscapeAt(raw, i, beyond);
      if IsGood(h) then -2 else 1 - h.used
    else 0
  }

  function Shifts(raw: string, i: nat, original: int, beyond: char): int
    decreases |raw| - i
  {
    if Stops(raw, i) then 0
    else Shift(raw, i, original, beyond) + Shifts(raw, i + Width(raw, i, beyond), original, beyond)
  }

  /** The position of the first '?', or -1. */
  function Query(raw: string): int {
    var i := IndexOf(raw, '?');
    if i < |raw| then i else -1
  }

  /** Where the code lets the main path end in the full path. */
  function MainEnd(raw: string, beyond: char): int {
    var pos := Query(raw) + Shifts(raw, 0, Query(raw), beyond);
    if pos >= 0 then pos else |Decoded(raw, 0, beyond)|
  }

  /** What `main_path()` gives out: nothing for an empty full path, else the view, which is
      None when it ends outside the buffer. */
  function MainView(full: string, end: int): Option<string> {
    if full == "" then Some("") else if 0 <= end <= |full| then Some(full[..end]) else None
  }

  function MainOf(raw: string, beyond: char): Option<string> {
    MainView(Decoded(raw, 0, beyond), MainEnd(raw, beyond))
  }

  class URL {
    var fullPath: string
    var rawPath: string
    /** `main_path_` views the first mainEnd characters of fullPath. */
    var mainEnd: int

    constructor ()
      ensures fullPath == "" && rawPath == "" && mainEnd == 0
    {
      fullPath, rawPath, mainEnd := "", "", 0;
    }

    function MainPath(): Option<string>
      reads this
    {
      MainView(fullPath, mainEnd)
    }

    /** What parsing raw leaves in the object. */
    ghost predicate Holds(raw: string, beyond: char)
      reads this
    {
      && fullPath == Decoded(raw, 0, beyond)
      && mainEnd == MainEnd(raw, beyond)
      && rawPath == if raw == "" || raw[0] != '/' then "/" + raw else raw
    }

    method ParseRawUrl(raw: string, beyond: char)
      modifies this
      ensures Holds(raw, beyond) && MainPath() == MainOf(raw, beyond)
    {
      var pos: int := IndexOf(raw, '?');
      if pos == |raw| { pos := -1; }
      rawPath := if raw == "" || raw[0] != '/' then "/" + raw else raw;
      fullPath, pos := DecodeAll(raw, beyond, pos);
      mainEnd := if pos >= 0 then pos else |fullPath|;
    }

    /** The decoding loop: what it writes, and the corrected offset of the '?'. */
    static method DecodeAll(raw: string, beyond: char, original: int) returns (full: string, pos: int)
      requires original == Query(raw)
      ensures full == Decoded(raw, 0, beyond)
      ensures pos == original + Shifts(raw, 0, original, beyond)
    {
      var i := 0;
      full, pos := "", original;
      ReadingStarts(raw, beyond);
      while !Stops(raw, i)
        invariant Reading(raw, beyond, i, full, pos)
        decreases |raw| - i
      {
        ReadingStep(raw, beyond, i, full, pos);
        var out, i', pos' := ReadPiece(raw, beyond, i, original, pos);
        full, i, pos := full + out, i', pos';
      }
      ReadingEnds(raw, beyond, i, full, pos);
    }

    /** One turn of the loop: what it writes, the next index, and the corrected offset. */
    static method ReadPiece(raw: string, beyond: char, at: nat, original: int, offset: int)
      returns (out: string, i: nat, pos: int)
      requires !Stops(raw, at)
      ensures out == Piece(raw, at, beyond) && i == at + Width(raw, at, beyond)
      ensures pos == offset + Shift(raw, at, original, beyond)
    {
      out, i, pos := "", at, offset;
      if raw[i] == '%' {
        var h := EscapeAt(raw, i, beyond);
        i := i + 2;
        if !Acceptable(h.value) || h.used != 2 {
          if original < 0 || i <= original { pos := pos - (h.used - 1); }
          i := i - (2 - h.used);
        } else {
          out := [h.value as char];
          if original < 0 || i <= original { pos := pos - 2; }
        }
      } else if raw[i] == '+' {
        out := " ";
      } else {
        out := [raw[i]];
      }
      i := i + 1;
    }
  }

  /** Where a run of `parse_raw_url` stands at index i. */
  ghost predicate Reading(raw: string, beyond: char, i: nat, full: string, pos: int) {
    && full + Decoded(raw, i, beyond) == Decoded(raw, 0, beyond)
    && pos + Shifts(raw, i, Query(raw), beyond) == Query(raw) + Shifts(raw, 0, Query(raw), beyond)
  }

  lemma {:induction false} ReadingStarts(raw: string, beyond: char)
    ensures Reading(raw, beyond, 0, "", Query(raw))
  {
    assert "" + Decoded(raw, 0, beyond) == Decoded(raw, 0, beyond);
  }

  lemma {:induction false} ReadingEnds(raw: string, beyond: char, i: nat, full: string, pos: int)
    requires Stops(raw, i) && Reading(raw, beyond, i, full, pos)
    ensures full == Decoded(raw, 0, beyond)
    ensures pos == Query(raw) + Shifts(raw, 0, Query(raw), beyond)
  {
    assert full + "" == full;
  }

  lemma {:induction false} ReadingStep(raw: string, beyond: char, i: nat, full: string, pos: int)
    requires !Stops(raw, i) && Reading(raw, beyond, i, full, pos)
    ensures Reading(raw, beyond, i + Width(raw, i, beyond), full + Piece(raw, i, beyond),
                    pos + Shift(raw, i, Query(raw), beyond))
  {
    Regroup(full, Piece(raw, i, beyond), Decoded(raw, i + Width(raw, i, beyond), beyond));
  }
}
