/** What decoding a raw URL promises, and exactly when the main path is right. */
module UrlTheorems {
  import opened Text
  import opened Numbers
  import opened Url

  /** Every '%' starts an escape that the code accepts: those of section 2.1 of RFC 3986 for
      accepted bytes, and the few oddities `strtol` lets through, such as "%+a". */
  predicate WellEscaped(s: string) {
    if s == "" then true
    else if s[0] == '%' then |s| >= 3 && IsGood(ReadHex(s[1], s[2])) && WellEscaped(s[3..])
    else WellEscaped(s[1..])
  }

  /** Percent decoding, with '+' for a blank. */
  function Percent(s: string): string
    requires WellEscaped(s)
  {
    if s == "" then ""
    else if s[0] == '%' then [ReadHex(s[1], s[2]).value as char] + Percent(s[3..])
    else [if s[0] == '+' then ' ' else s[0]] + Percent(s[1..])
  }

  /** The full path is the decoding of the whole text, and nothing moves the offset up. */
  lemma {:induction false} FullPathIsDecoding(raw: string, i: nat, original: int, beyond: char)
    requires i <= |raw| && WellEscaped(raw[i..])
    ensures Decoded(raw, i, beyond) == Percent(raw[i..])
    ensures Shifts(raw, i, original, beyond) <= 0
    decreases |raw| - i
  {
    if i < |raw| {
      var s := raw[i..];
      if raw[i] == '%' {
        assert s[1] == raw[i + 1] && s[2] == raw[i + 2] && s[3..] == raw[i + 3..];
        FullPathIsDecoding(raw, i + 3, original, beyond);
      } else {
        assert s[1..] == raw[i + 1..];
        FullPathIsDecoding(raw, i + 1, original, beyond);
      }
    }
  }

  //// Without a '?'

  /** The '%'s of a text by what `strtol` makes of the two characters behind them: nothing, a
      value that is rejected, or one that is accepted. A single digit counts for nothing. */
  datatype Tally = Tally(unread: nat, rejected: nat, accepted: nat)

  function Count(raw: string, i: nat, beyond: char): Tally
    decreases |raw| - i
  {
    if Stops(raw, i) then Tally(0, 0, 0) else
    var t, h := Count(raw, i + Width(raw, i, beyond), beyond), EscapeAt(raw, i, beyond);
    if raw[i] != '%' || h.used == 1 then t
    else if h.used == 0 then t.(unread := t.unread + 1)
    else if IsGood(h) then t.(accepted := t.accepted + 1)
    else t.(rejected := t.rejected + 1)
  }

  /** How far the corrections lift the offset. */
  function Excess(raw: string, beyond: char): int {
    var t := Count(raw, 0, beyond);
    t.unread - t.rejected - 2 * t.accepted
  }

  lemma {:induction false} ShiftsAreCounted(raw: string, i: nat, beyond: char)
    ensures var t := Count(raw, i, beyond); Shifts(raw, i, -1, beyond) == t.unread - t.rejected - 2 * t.accepted
    decreases |raw| - i
  {
    if !Stops(raw, i) {
      ShiftsAreCounted(raw, i + Width(raw, i, beyond), beyond);
    }
  }

  /** Main result: without a '?', the main path is the full path exactly when there is no
      excess of unread '%'s, or one more than the full path is long; and the view leaves the
      buffer exactly when the excess is larger still. */
  lemma {:induction false} WholePathIsExact(raw: string, beyond: char)
    requires Query(raw) < 0
    ensures var (full, e) := (Decoded(raw, 0, beyond), Excess(raw, beyond));
      && (MainOf(raw, beyond) == Some(full) <==> full == "" || e <= 0 || e == |full| + 1)
      && (MainOf(raw, beyond) == None <==> full != "" && e > |full| + 1)
  {
    var full := Decoded(raw, 0, beyond);
    ShiftsAreCounted(raw, 0, beyond);
    assert full[..|full|] == full;
  }

  /** So it is on every well-escaped text. */
  lemma {:induction false} WholePathIsMain(raw: string, beyond: char)
    requires WellEscaped(raw) && Query(raw) < 0
    ensures MainOf(raw, beyond) == Some(Percent(raw))
  {
    assert raw[0..] == raw;
    FullPathIsDecoding(raw, 0, -1, beyond);
    ShiftsAreCounted(raw, 0, beyond);
    WholePathIsExact(raw, beyond);
  }

  //// With a '?'

  lemma {:induction false} NoShiftBehind(raw: string, i: nat, q: nat, beyond: char)
    requires q <= i
    ensures Shifts(raw, i, q, beyond) == 0
    decreases |raw| - i
  {
    if !Stops(raw, i) {
      NoShiftBehind(raw, i + Width(raw, i, beyond), q, beyond);
    }
  }

  /** By how much the corrected offset overshoots the decoding of the part before the '?'. */
  function Overshoot(raw: string, i: nat, beyond: char): int
    requires Query(raw) >= 0
  {
    Query(raw) - i + Shifts(raw, i, Query(raw), beyond) - |Decoded(raw[..Query(raw)], i, '?')|
  }

  /** Up to the '?' the text is decoded as if it ended there. */
  lemma PieceBeforeQuery(raw: string, i: nat, beyond: char)
    requires 0 <= i < Query(raw)
    ensures var (q, p) := (Query(raw), raw[..Query(raw)]);
      && !Stops(raw, i) && i + Width(raw, i, beyond) <= q
      && if Stops(p, i) then i == q - 1 && raw[i] == '%' && Width(raw, i, beyond) == 1 && Piece(raw, i, beyond) == ""
         else Width(p, i, '?') == Width(raw, i, beyond) && Piece(p, i, '?') == Piece(raw, i, beyond)
  {
    var q := Query(raw);
    assert raw[q] == '?' && forall j :: 0 <= j < q ==> raw[j] != '?';
  }

  lemma {:induction false} WellEscapedStep(p: string, i: nat)
    requires i < |p|
    ensures WellEscaped(p[i..]) <==>
      && !Stops(p, i) && (p[i] == '%' ==> IsGood(EscapeAt(p, i, '?')))
      && i + Width(p, i, '?') <= |p| && WellEscaped(p[i + Width(p, i, '?')..])
  {
    var s := p[i..];
    assert s[1..] == p[i + 1..];
    assert |s| >= 3 ==> s[1] == p[i + 1] && s[2] == p[i + 2] && s[3..] == p[i + 3..];
  }

  lemma DecodedStep(raw: string, i: nat, beyond: char)
    ensures Decoded(raw, i, beyond) ==
      if Stops(raw, i) then "" else Piece(raw, i, beyond) + Decoded(raw, i + Width(raw, i, beyond), beyond)
  {
  }

  /** Both texts go on alike at i. */
  ghost predicate SamePiece(raw: string, p: string, i: nat, beyond: char) {
    && !Stops(raw, i) && i + Width(raw, i, beyond) <= |p|
    && Decoded(p, i, '?') == Piece(raw, i, beyond) + Decoded(p, i + Width(raw, i, beyond), '?')
  }

  /** At i, p has the piece that raw has, or ends with a '%' that raw does not read. */
  ghost predicate Alike(raw: string, p: string, i: nat, beyond: char) {
    && !Stops(raw, i) && i + Width(raw, i, beyond) <= |p|
    && if Stops(p, i) then i + 1 == |p| && Width(raw, i, beyond) == 1 && Piece(raw, i, beyond) == ""
       else Width(p, i, '?') == Width(raw, i, beyond) && Piece(p, i, '?') == Piece(raw, i, beyond)
  }

  lemma {:induction false} PrefixStep(raw: string, i: nat, beyond: char)
    requires i < Query(raw)
    ensures SamePiece(raw, raw[..Query(raw)], i, beyond)
  {
    PrefixIsAlike(raw, i, beyond);
    AlikeIsSame(raw, raw[..Query(raw)], i, beyond);
  }

  lemma PrefixIsAlike(raw: string, i: nat, beyond: char)
    requires i < Query(raw)
    ensures Alike(raw, raw[..Query(raw)], i, beyond)
  {
    PieceBeforeQuery(raw, i, beyond);
  }

  lemma AlikeIsSame(raw: string, p: string, i: nat, beyond: char)
    requires Alike(raw, p, i, beyond)
    ensures SamePiece(raw, p, i, beyond)
  {
    DecodedStep(p, i, '?');
    if Stops(p, i) {
      NothingLeft(p, i + 1);
    }
  }

  lemma NothingLeft(p: string, i: nat)
    requires Stops(p, i)
    ensures Decoded(p, i, '?') == ""
  {
  }

  /** A piece that is no accepted escape leaves the offset one or two too high. */
  lemma {:induction false} OvershootStep(raw: string, i: nat, beyond: char)
    requires 0 <= i < Query(raw)
    ensures var (q, next) := (Query(raw), i + Width(raw, i, beyond));
      && next <= q
      && Overshoot(raw, i, beyond) - Overshoot(raw, next, beyond) ==
         if raw[i] == '%' && !IsGood(EscapeAt(raw, i, beyond)) then (if i + 1 == q then 1 else 2) else 0
  {
    PieceBeforeQuery(raw, i, beyond);
  }

  /** From i on, raw decodes to what p decodes to and what raw decodes to behind p. */
  ghost predicate SplitsBehind(raw: string, p: string, i: nat, beyond: char) {
    Decoded(raw, i, beyond) == Decoded(p, i, '?') + Decoded(raw, |p|, beyond)
  }

  lemma {:induction false} DecodedUpToQuery(raw: string, beyond: char)
    requires Query(raw) >= 0
    ensures SplitsBehind(raw, raw[..Query(raw)], 0, beyond)
  {
    forall i: nat | i < Query(raw) ensures SamePiece(raw, raw[..Query(raw)], i, beyond) {
      PrefixStep(raw, i, beyond);
    }
    DecodedAlike(raw, raw[..Query(raw)], 0, beyond);
  }

  lemma {:induction false} DecodedAlike(raw: string, p: string, i: nat, beyond: char)
    requires i <= |p| && forall j: nat :: j < |p| ==> SamePiece(raw, p, j, beyond)
    ensures SplitsBehind(raw, p, i, beyond)
    decreases |p| - i
  {
    if i < |p| {
      var next := NextPiece(raw, p, i, beyond);
      DecodedAlike(raw, p, next, beyond);
      GluePiece(raw, p, i, beyond);
    } else {
      GlueNothing(raw, p, beyond);
    }
  }

  lemma NextPiece(raw: string, p: string, i: nat, beyond: char) returns (next: nat)
    requires SamePiece(raw, p, i, beyond)
    ensures !Stops(raw, i) && next == i + Width(raw, i, beyond) && i < next <= |p|
  {
    next := i + Width(raw, i, beyond);
  }

  lemma GlueNothing(raw: string, p: string, beyond: char)
    ensures SplitsBehind(raw, p, |p|, beyond)
  {
    NothingLeft(p, |p|);
  }

  lemma {:induction false} GluePiece(raw: string, p: string, i: nat, beyond: char)
    requires SamePiece(raw, p, i, beyond) && SplitsBehind(raw, p, i + Width(raw, i, beyond), beyond)
    ensures SplitsBehind(raw, p, i, beyond)
  {
    DecodedStep(raw, i, beyond);
    Regroup(Piece(raw, i, beyond), Decoded(p, i + Width(raw, i, beyond), '?'), Decoded(raw, |p|, beyond));
  }

  lemma {:induction false} OvershootAtQuery(raw: string, beyond: char)
    requires Query(raw) >= 0
    ensures Overshoot(raw, Query(raw), beyond) == 0
  {
    NoShiftBehind(raw, Query(raw), Query(raw), beyond);
  }

  lemma {:induction false} OvershootIsExact(raw: string, i: nat, beyond: char)
    requires 0 <= i <= Query(raw)
    ensures Overshoot(raw, i, beyond) >= 0
    ensures Overshoot(raw, i, beyond) == 0 <==> WellEscaped(raw[..Query(raw)][i..])
    decreases Query(raw) - i
  {
    if i == Query(raw) {
      OvershootAtQuery(raw, beyond);
      assert raw[..Query(raw)][i..] == "";
    } else {
      PieceBeforeQuery(raw, i, beyond);
      OvershootStep(raw, i, beyond);
      WellEscapedHere(raw, i, beyond);
      OvershootIsExact(raw, i + Width(raw, i, beyond), beyond);
    }
  }

  lemma {:induction false} WellEscapedHere(raw: string, i: nat, beyond: char)
    requires 0 <= i < Query(raw)
    ensures var (p, next) := (raw[..Query(raw)], i + Width(raw, i, beyond));
      && next <= |p|
      && (WellEscaped(p[i..]) <==> (raw[i] == '%' ==> IsGood(EscapeAt(raw, i, beyond))) && WellEscaped(p[next..]))
  {
    PieceBeforeQuery(raw, i, beyond);
    WellEscapedStep(raw[..Query(raw)], i);
  }

  lemma {:induction false} QueryIsKept(raw: string, beyond: char)
    requires Query(raw) >= 0
    ensures Decoded(raw, Query(raw), beyond) != ""
  {
    assert raw[Query(raw)] == '?';
  }

  /** The main path is the decoding of the part before the first raw '?' exactly when every
      escape before it is well formed and accepted; an escaped '?' never ends it. */
  lemma {:induction false} MainPathIsExact(raw: string, beyond: char)
    requires Query(raw) >= 0
    ensures var p := raw[..Query(raw)];
      && (WellEscaped(p) ==> MainOf(raw, beyond) == Some(Percent(p)))
      && (MainOf(raw, beyond) == Some(Decoded(p, 0, '?')) <==> WellEscaped(p))
  {
    var q := Query(raw);
    var p := raw[..q];
    OvershootIsExact(raw, 0, beyond);
    DecodedUpToQuery(raw, beyond);
    QueryIsKept(raw, beyond);
    assert p[0..] == p;
    if WellEscaped(p) {
      FullPathIsDecoding(p, 0, q, '?');
    }
    EndAt(Decoded(p, 0, '?'), Decoded(raw, q, beyond), MainEnd(raw, beyond));
  }

  lemma EndAt(main: string, tail: string, end: int)
    requires tail != ""
    ensures MainView(main + tail, end) == Some(main) <==> end == |main|
    ensures MainView(main + tail, end) == None <==> !(0 <= end <= |main| + |tail|)
  {
    assert (main + tail)[..|main|] == main;
  }

  /** The '%'s before the '?' that start no accepted escape. */
  function Faults(raw: string, i: nat, beyond: char): nat
    decreases |raw| - i
  {
    if i >= Query(raw) || Stops(raw, i) then 0
    else
      (if raw[i] == '%' && !IsGood(EscapeAt(raw, i, beyond)) then 1 else 0)
      + Faults(raw, i + Width(raw, i, beyond), beyond)
  }

  /** A '%' right before the '?'. */
  predicate Dangles(raw: string, i: nat) {
    i < Query(raw) && raw[Query(raw) - 1] == '%'
  }

  lemma {:induction false} OvershootIsCounted(raw: string, i: nat, beyond: char)
    requires 0 <= i <= Query(raw)
    ensures Overshoot(raw, i, beyond) == 2 * Faults(raw, i, beyond) - if Dangles(raw, i) then 1 else 0
    decreases Query(raw) - i
  {
    if i == Query(raw) {
      OvershootAtQuery(raw, beyond);
    } else {
      PieceBeforeQuery(raw, i, beyond);
      OvershootStep(raw, i, beyond);
      DanglesStep(raw, i, beyond);
      OvershootIsCounted(raw, i + Width(raw, i, beyond), beyond);
    }
  }

  lemma {:induction false} DanglesStep(raw: string, i: nat, beyond: char)
    requires 0 <= i < Query(raw) && !Stops(raw, i) && i + Width(raw, i, beyond) <= Query(raw)
    ensures if i + 1 == Query(raw) && raw[i] == '%' then
              Dangles(raw, i) && !Dangles(raw, i + Width(raw, i, beyond)) && !IsGood(EscapeAt(raw, i, beyond))
            else Dangles(raw, i) == Dangles(raw, i + Width(raw, i, beyond))
  {
    var q := Query(raw);
    assert raw[q] == '?';
    if i + Width(raw, i, beyond) == q && raw[i] == '%' && i + 1 < q {
      assert raw[q - 1] != '%';
    }
  }

  /** Main result: with a '?', the view leaves the buffer exactly when the faults before the
      '?' push it past the decoding of what follows. */
  lemma {:induction false} ViewLeavesBufferExactly(raw: string, beyond: char)
    requires Query(raw) >= 0
    ensures MainOf(raw, beyond) == None <==>
      2 * Faults(raw, 0, beyond) - (if Dangles(raw, 0) then 1 else 0) > |Decoded(raw, Query(raw), beyond)|
  {
    var q := Query(raw);
    var p := raw[..q];
    OvershootIsExact(raw, 0, beyond);
    OvershootIsCounted(raw, 0, beyond);
    DecodedUpToQuery(raw, beyond);
    QueryIsKept(raw, beyond);
    EndAt(Decoded(p, 0, '?'), Decoded(raw, q, beyond), MainEnd(raw, beyond));
  }

  //// Where it goes wrong

  /** A '%' in front of '%' writes nothing and lifts the offset by one. */
  lemma {:induction false} UnreadStep(raw: string, i: nat, beyond: char)
    requires i + 1 < |raw| && raw[i] == '%' && raw[i + 1] == '%'
    ensures Decoded(raw, i, beyond) == Decoded(raw, i + 1, beyond)
    ensures Count(raw, i, beyond) == Count(raw, i + 1, beyond).(unread := Count(raw, i + 1, beyond).unread + 1)
  {
    assert EscapeAt(raw, i, beyond) == Hex(0, 0);
    assert "" + Decoded(raw, i + 1, beyond) == Decoded(raw, i + 1, beyond);
  }

  const PERCENTS := "a%%%%"

  lemma PercentsUnread(beyond: char)
    ensures Decoded(PERCENTS, 1, beyond) == "" && Count(PERCENTS, 1, beyond) == Tally(3, 0, 0)
  {
    assert Stops(PERCENTS, 4);
    assert Decoded(PERCENTS, 4, beyond) == "" && Count(PERCENTS, 4, beyond) == Tally(0, 0, 0);
    UnreadStep(PERCENTS, 3, beyond);
    UnreadStep(PERCENTS, 2, beyond);
    UnreadStep(PERCENTS, 1, beyond);
  }

  /** Three unread '%'s behind one character: the view ends behind the end of its buffer. */
  lemma ViewLeavesBuffer(beyond: char)
    ensures Query(PERCENTS) < 0 && Decoded(PERCENTS, 0, beyond) == "a" && MainOf(PERCENTS, beyond) == None
  {
    assert IndexOf(PERCENTS, '?') == 5;
    PercentsUnread(beyond);
    DecodedStep(PERCENTS, 0, beyond);
    assert Count(PERCENTS, 0, beyond) == Count(PERCENTS, 1, beyond);
    WholePathIsExact(PERCENTS, beyond);
  }

  /** Without a '?' a malformed escape can empty the main path: the correction lifts the
      offset from -1 to 0. */
  lemma MalformedEscapeEmptiesMainPath(beyond: char)
    ensures Query("/%GG") < 0 && Decoded("/%GG", 0, beyond) == "/GG" && MainOf("/%GG", beyond) == Some("")
  {
    var raw := "/%GG";
    assert IndexOf(raw, '?') == 4;
    PlainTail(raw, 2, -1, beyond);
    assert EscapeAt(raw, 1, beyond) == Hex(0, 0);
    assert Decoded(raw, 1, beyond) == "" + Decoded(raw, 2, beyond);
    assert Decoded(raw, 0, beyond) == "/" + Decoded(raw, 1, beyond);
    assert Shifts(raw, 1, -1, beyond) == 1;
  }

  lemma {:induction false} PlainTail(raw: string, i: nat, original: int, beyond: char)
    requires i <= |raw| && forall j :: i <= j < |raw| ==> raw[j] != '%' && raw[j] != '+'
    ensures Decoded(raw, i, beyond) == raw[i..] && Shifts(raw, i, original, beyond) == 0
    decreases |raw| - i
  {
    if i < |raw| {
      PlainTail(raw, i + 1, original, beyond);
    }
  }

  //// Encoding

  /** text is a writing of s in a path: bytes stand for themselves or are written in
      hexadecimal digits of either case, and '+' is a blank. */
  predicate Encodes(text: string, s: string)
    decreases |text|
  {
    if text == "" || s == "" then text == s
    else if text[0] == '%' then
      && |text| >= 3 && Acceptable(s[0] as int)
      && IsDigit(text[1], s[0] as nat / 16, 16) && IsDigit(text[2], s[0] as nat % 16, 16)
      && Encodes(text[3..], s[1..])
    else if text[0] == '+' then s[0] == ' ' && Encodes(text[1..], s[1..])
    else text[0] != '?' && text[0] == s[0] && Encodes(text[1..], s[1..])
  }

  lemma HexPairIsRead(a: char, b: char, v: nat)
    requires v < 256 && IsDigit(a, v / 16, 16) && IsDigit(b, v % 16, 16)
    ensures ReadHex(a, b) == Hex(v, 2) && a != '?' && b != '?'
  {
    DigitIsRead(a, v / 16, 16);
    DigitIsRead(b, v % 16, 16);
  }

  lemma {:induction false} EncodedIsDecoded(text: string, s: string)
    requires Encodes(text, s)
    ensures WellEscaped(text) && Percent(text) == s && '?' !in text
    decreases |text|
  {
    if text != "" {
      assert s == [s[0]] + s[1..];
      if text[0] == '%' {
        EncodedIsDecoded(text[3..], s[1..]);
        HexPairIsRead(text[1], text[2], s[0] as nat);
        assert text == [text[0], text[1], text[2]] + text[3..];
      } else {
        EncodedIsDecoded(text[1..], s[1..]);
        assert text == [text[0]] + text[1..];
      }
    }
  }

  /** Main result: any path, '?' and '%' included, written in any way and put in front of any
      query or of nothing, is the main path. */
  lemma {:induction false} EncodedPathIsMain(text: string, path: string, query: string, beyond: char)
    requires Encodes(text, path)
    ensures MainOf(text + "?" + query, beyond) == Some(path) && MainOf(text, beyond) == Some(path)
  {
    var raw := text + "?" + query;
    EncodedIsDecoded(text, path);
    assert raw[|text|] == '?' && forall j :: 0 <= j < |text| ==> raw[j] == text[j];
    assert Query(raw) == |text|;
    assert raw[..|text|] == text;
    MainPathIsExact(raw, beyond);
    WholePathIsMain(text, beyond);
  }

  /** Every accepted byte can be escaped. */
  lemma {:induction false} EscapedByte(c: char) returns (text: string)
    requires c as nat < 256 && Acceptable(c as int)
    ensures Encodes(text, [c]) && text[0] == '%'
  {
    text := ['%', UPPER_CASE[c as nat / 16], LOWER_CASE[c as nat % 16]];
    assert text[3..] == "" && [c][1..] == "";
  }

  /** The bytes that an escape may stand for: all but control characters, of which three are
      let through. */
  lemma AcceptedBytes(v: nat)
    requires v < 256
    ensures Acceptable(v) <==> v in {9, 10, 13} || (32 <= v && v != 127)
  {
  }

  //// The two characters of an escape

  lemma OneDigit(c: char)
    ensures DigitRun([c], 16) == if IsHex(c) then 1 else 0
    ensures IsHex(c) ==> ValueOf([c], 16) == DigitValue(c)
  {
    assert [c][..0] == "" && [c][1..] == "";
  }

  lemma TwoDigits(a: char, b: char)
    ensures DigitRun([a, b], 16) == if !IsHex(a) then 0 else if !IsHex(b) then 1 else 2
    ensures IsHex(a) && IsHex(b) ==> ValueOf([a, b], 16) == 16 * DigitValue(a) + DigitValue(b)
  {
    assert [a, b][1..] == [b] && [a, b][..1] == [a];
    OneDigit(a);
    OneDigit(b);
  }

  /** Reading two characters is what `strtol` does with a text of these two. */
  lemma {:induction false} HexIsStrtol(a: char, b: char)
    ensures ReadHex(a, b) == Strtol([a, b], 16)
  {
    var s := [a, b];
    assert s[0..] == s && s[1..] == [b] && s[2..] == "" && s[..1] == [a] && s[..2] == s && [b][..1] == [b];
    assert [b][1..] == "";
    TwoDigits(a, b);
    OneDigit(a);
    OneDigit(b);
    assert BlanksBefore([b]) == if IsSpace(b) then 1 else 0;
    assert BlanksBefore(s) == if IsSpace(a) then 1 + BlanksBefore([b]) else 0;
  }
}
