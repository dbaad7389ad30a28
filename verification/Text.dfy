/** Searching in strings, as the C++ code does with `find` on a string_view. */
module Text {
  datatype Option<+T> = None | Some(value: T) {
    function GetOr(default: T): T {
      if None? then default else value
    }
  }

  /** `isspace`, in the C locale. */
  predicate IsSpace(c: char) {
    c == ' ' || '\t' <= c <= '\r'
  }

  lemma SpaceCharacters(c: char)
    ensures IsSpace(c) <==> c as int in {9, 10, 11, 12, 13, 32}
  {
  }

  /** The position of the first c in s, or |s| when there is none (the C++ `npos`). */
  function IndexOf(s: string, c: char): (i: nat)
    ensures i <= |s|
    ensures i < |s| ==> s[i] == c
    ensures forall j :: 0 <= j < i ==> s[j] != c
  {
    if s == [] || s[0] == c then 0 else
    1 + IndexOf(s[1..], c)
  }

  const CRLF := "\r\n"

  predicate CrlfAt(s: string, i: nat) {
    i + 2 <= |s| && s[i] == '\r' && s[i + 1] == '\n'
  }

  /** The position of the first CR LF in s, or |s| when there is none. */
  function FindCrlf(s: string): (i: nat)
    ensures i <= |s|
    ensures i < |s| ==> CrlfAt(s, i)
    ensures forall j: nat :: j < i ==> !CrlfAt(s, j)
  {
    if s == "" || CrlfAt(s, 0) then 0 else
    assert forall j: nat :: j > 0 ==> (CrlfAt(s, j) <==> CrlfAt(s[1..], j - 1));
    assert FindCrlf(s[1..]) < |s[1..]| ==> CrlfAt(s, FindCrlf(s[1..]) + 1);
    1 + FindCrlf(s[1..])
  }

  predicate NoCrlf(s: string) {
    FindCrlf(s) == |s|
  }

  lemma FindCrlfIs(s: string, i: nat)
    requires i <= |s| && (i < |s| ==> CrlfAt(s, i)) && forall j: nat :: j < i ==> !CrlfAt(s, j)
    ensures FindCrlf(s) == i
  {
  }

  /** A line ends at the first CR LF after it, whatever follows. */
  lemma FindCrlfAfterLine(line: string, rest: string)
    requires NoCrlf(line)
    ensures FindCrlf(line + CRLF + rest) == |line|
  {
    var s := line + CRLF + rest;
    forall j: nat | j < |line| ensures !CrlfAt(s, j) {
      assert s[j] == line[j] && !CrlfAt(line, j);
    }
    FindCrlfIs(s, |line|);
  }

  lemma CutAtCrlf(s: string, i: nat)
    requires CrlfAt(s, i)
    ensures s == s[..i] + CRLF + s[i + 2..]
  {
    assert s[i..i + 2] == CRLF;
    assert s == s[..i] + s[i..i + 2] + s[i + 2..];
  }

  lemma CrlfSplits(s: string)
    requires FindCrlf(s) < |s|
    ensures s == s[..FindCrlf(s)] + CRLF + s[FindCrlf(s) + 2..]
    ensures NoCrlf(s[..FindCrlf(s)])
  {
    CutAtCrlf(s, FindCrlf(s));
    FindCrlfOfPrefix(s, FindCrlf(s));
  }

  lemma FindCrlfPrefix(s: string, more: string)
    requires FindCrlf(s) < |s|
    ensures FindCrlf(s + more) == FindCrlf(s)
    ensures NoCrlf(s[..FindCrlf(s)])
  {
    CrlfSplits(s);
    var line, rest := s[..FindCrlf(s)], s[FindCrlf(s) + 2..];
    Regroup(line + CRLF, rest, more);
    FindCrlfAfterLine(line, rest + more);
  }

  lemma FindCrlfOfPrefix(s: string, i: nat)
    requires i <= FindCrlf(s)
    ensures NoCrlf(s[..i])
  {
    var p := s[..i];
    forall j: nat | j < i ensures !CrlfAt(p, j) {
      assert !CrlfAt(s, j);
    }
    FindCrlfIs(p, i);
  }

  predicate HeadEndAt(s: string, i: nat) {
    i + 4 <= |s| && s[i] == '\r' && s[i + 1] == '\n' && s[i + 2] == '\r' && s[i + 3] == '\n'
  }

  /** The position of the first CR LF CR LF in s, or |s| when there is none. */
  function FindHeadEnd(s: string): (i: nat)
    ensures i <= |s|
    ensures i < |s| ==> HeadEndAt(s, i)
    ensures forall j: nat :: j < i ==> !HeadEndAt(s, j)
  {
    if s == "" || HeadEndAt(s, 0) then 0 else
    assert forall j: nat :: HeadEndAt(s[1..], j) <==> HeadEndAt(s, j + 1);
    assert forall j: nat :: j > 0 ==> (HeadEndAt(s, j) <==> HeadEndAt(s[1..], j - 1));
    1 + FindHeadEnd(s[1..])
  }

  predicate NoHeadEnd(s: string) {
    FindHeadEnd(s) == |s|
  }

  lemma SliceOfSlice(s: string, from: nat, to: nat, i: nat, j: nat)
    requires from <= to <= |s| && i <= j <= to - from
    ensures s[from..to][i..j] == s[from + i..from + j]
  {
    var a, b := s[from..to][i..j], s[from + i..from + j];
    forall n | 0 <= n < j - i ensures a[n] == b[n] {
      assert a[n] == s[from..to][i + n];
    }
  }

  lemma Regroup(a: string, b: string, c: string)
    ensures (a + b) + c == a + (b + c)
  {
  }
}
