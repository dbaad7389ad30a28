/** Numbers in texts, as `strtol` reads them from a text that starts with a digit, and as the
    code writes them. Signs, blanks and the prefix 0x before the digits are not modelled. */
module Numbers {
  import opened Text

  predicate IsDigitOf(c: char, base: nat) {
    || ('0' <= c <= '9' && base >= 10)
    || (('a' <= c <= 'f' || 'A' <= c <= 'F') && base == 16)
  }

  function DigitValue(c: char): nat
    requires IsDigitOf(c, 16)
  {
    if '0' <= c <= '9' then c as nat - '0' as nat
    else if 'a' <= c <= 'f' then c as nat - 'a' as nat + 10
    else c as nat - 'A' as nat + 10
  }

  predicate AllDigits(s: string, base: nat) {
    forall i :: 0 <= i < |s| ==> IsDigitOf(s[i], base)
  }

  /** How many digits s starts with. */
  function DigitRun(s: string, base: nat): (n: nat)
    ensures n <= |s|
    ensures AllDigits(s[..n], base)
    ensures n < |s| ==> !IsDigitOf(s[n], base)
  {
    if s == "" || !IsDigitOf(s[0], base) then 0 else
    var n := DigitRun(s[1..], base);
    assert s[..n + 1] == [s[0]] + s[1..][..n];
    n + 1
  }

  function ValueOf(s: string, base: nat): nat
    requires (base == 10 || base == 16) && AllDigits(s, base)
  {
    if s == "" then 0 else ValueOf(s[..|s| - 1], base) * base + DigitValue(s[|s| - 1])
  }

  /** The number s starts with, if it starts with a digit. */
  function Leading(s: string, base: nat): Option<nat>
    requires base == 10 || base == 16
  {
    var n := DigitRun(s, base);
    if n == 0 then None else Some(ValueOf(s[..n], base))
  }

  function DigitChar(d: nat): char
    requires d < 16
  {
    if d < 10 then '0' + d as char else 'a' + (d - 10) as char
  }

  /** n in the usual notation. */
  function Show(n: nat, base: nat): (s: string)
    requires base == 10 || base == 16
    ensures s != "" && AllDigits(s, base) && ValueOf(s, base) == n
  {
    if n < base then
      var s := [DigitChar(n)];
      assert s[..0] == "";
      s
    else
      var s := Show(n / base, base) + [DigitChar(n % base)];
      assert s[..|s| - 1] == Show(n / base, base);
      s
  }

  lemma LeadingIs(digits: string, rest: string, base: nat)
    requires base == 10 || base == 16
    requires digits != "" && AllDigits(digits, base) && (rest == "" || !IsDigitOf(rest[0], base))
    ensures DigitRun(digits + rest, base) == |digits|
    ensures Leading(digits + rest, base) == Some(ValueOf(digits, base))
  {
    var s := digits + rest;
    var n := DigitRun(s, base);
    assert forall i :: 0 <= i < |digits| ==> s[i] == digits[i];
    assert rest != "" ==> s[|digits|] == rest[0];
    assert forall i :: 0 <= i < n ==> s[..n][i] == s[i];
    assert s[..|digits|] == digits;
  }

  //// What the digits mean

  const LOWER_CASE := "0123456789abcdef"
  const UPPER_CASE := "0123456789ABCDEF"

  /** c stands for d. */
  predicate IsDigit(c: char, d: nat, base: nat) {
    d < base && d < 16 && (c == LOWER_CASE[d] || c == UPPER_CASE[d])
  }

  predicate IsNoDigit(c: char, base: nat) {
    forall d: nat :: d < 16 ==> !IsDigit(c, d, base)
  }

  /** s is n in positional notation, in either case and perhaps with zeros in front. */
  predicate Spells(s: string, n: nat, base: nat)
    requires base == 10 || base == 16
  {
    s != "" && IsDigit(s[|s| - 1], n % base, base) &&
    if |s| == 1 then n < base else Spells(s[..|s| - 1], n / base, base)
  }

  lemma DigitIsRead(c: char, d: nat, base: nat)
    requires base == 10 || base == 16
    ensures IsDigit(c, d, base) <==> IsDigitOf(c, base) && DigitValue(c) == d
  {
    assert forall i: nat :: i < 10 ==> LOWER_CASE[i] == '0' + i as char && UPPER_CASE[i] == '0' + i as char;
    assert forall i: nat :: 10 <= i < 16 ==>
             LOWER_CASE[i] == 'a' + (i - 10) as char && UPPER_CASE[i] == 'A' + (i - 10) as char;
  }

  lemma NoDigitIsRead(c: char, base: nat)
    requires base == 10 || base == 16
    ensures IsNoDigit(c, base) <==> !IsDigitOf(c, base)
  {
    if IsDigitOf(c, base) {
      DigitIsRead(c, DigitValue(c), base);
    }
    forall d: nat | d < 16 && IsDigit(c, d, base) ensures IsDigitOf(c, base) {
      DigitIsRead(c, d, base);
    }
  }

  lemma {:induction false} SpelledValue(s: string, n: nat, base: nat)
    requires base == 10 || base == 16
    ensures Spells(s, n, base) <==> s != "" && AllDigits(s, base) && ValueOf(s, base) == n
    decreases |s|
  {
    if s != "" {
      var front, c := s[..|s| - 1], s[|s| - 1];
      DigitIsRead(c, n % base, base);
      if |s| > 1 {
        SpelledValue(front, n / base, base);
      } else {
        assert front == "";
      }
      assert AllDigits(s, base) <==> AllDigits(front, base) && IsDigitOf(c, base);
      if AllDigits(s, base) {
        LastDigit(ValueOf(front, base), DigitValue(c), n, base);
      }
    }
  }

  lemma LastDigit(front: nat, d: nat, n: nat, base: nat)
    requires (base == 10 || base == 16) && d < base
    ensures front * base + d == n <==> front == n / base && d == n % base
  {
  }

  lemma {:induction false} ShowSpells(n: nat, base: nat)
    requires base == 10 || base == 16
    ensures Spells(Show(n, base), n, base)
  {
    SpelledValue(Show(n, base), n, base);
  }

  /** The number a text starts with is the longest run of digits, read in positional notation. */
  lemma {:induction false} LeadingIsExact(s: string, n: nat, base: nat)
    requires base == 10 || base == 16
    ensures Leading(s, base) == Some(n) <==>
      exists k :: 0 < k <= |s| && Spells(s[..k], n, base) && (k == |s| || IsNoDigit(s[k], base))
  {
    var run := DigitRun(s, base);
    SpelledValue(s[..run], n, base);
    if run < |s| { NoDigitIsRead(s[run], base); }
    forall k | 0 < k <= |s| && Spells(s[..k], n, base) && (k == |s| || IsNoDigit(s[k], base))
      ensures k == run
    {
      LeadingIsSpelled(s[..k], s[k..], n, base);
      assert s[..k] + s[k..] == s;
    }
  }

  lemma {:induction false} LeadingIsSpelled(digits: string, rest: string, n: nat, base: nat)
    requires (base == 10 || base == 16) && Spells(digits, n, base) && (rest == "" || IsNoDigit(rest[0], base))
    ensures Leading(digits + rest, base) == Some(n) && DigitRun(digits + rest, base) == |digits|
  {
    SpelledValue(digits, n, base);
    if rest != "" { NoDigitIsRead(rest[0], base); }
    LeadingIs(digits, rest, base);
  }
}
