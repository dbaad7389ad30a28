/** Route texts: `StateNode::parse_from_str` and the unescaping it does. */
module RouteText {
  import opened Text
  import opened Routes
  import opened RouteTree

  const END := StateNode(FixedString, "", true, "")

  //// Backslashes

  /** What is still to be written when s is left to read. */
  function Unescaped(s: string, escape: bool): string {
    if s == "" then (if escape then "\\" else "")
    else if s[0] == '\\' then (if escape then "\\" else "") + Unescaped(s[1..], true)
    else [s[0]] + Unescaped(s[1..], false)
  }

  lemma UnescapedStep(ret: string, s: string, escape: bool)
    requires s != ""
    ensures var out := if s[0] != '\\' then [s[0]] else if escape then "\\" else "";
      ret + Unescaped(s, escape) == (ret + out) + Unescaped(s[1..], s[0] == '\\')
  {
  }

  method RemoveUnescapes(data: string) returns (ret: string)
    ensures ret == Unescaped(data, false)
  {
    var escape := false;
    ret := "";
    for i := 0 to |data|
      invariant ret + Unescaped(data[i..], escape) == Unescaped(data, false)
    {
      var ch := data[i];
      UnescapedStep(ret, data[i..], escape);
      assert data[i..][1..] == data[i + 1..];
      if ch == '\\' {
        if escape {
          ret := ret + "\\";
        } else {
          escape := true;
          assert ret + "" == ret;
        }
      } else if escape {
        escape := false;
        ret := ret + [ch];
      } else {
        ret := ret + [ch];
      }
    }
    if escape {
      ret := ret + "\\";
    }
  }

  /** A writing of s that unescapes to s: a run of backslashes gets one more, except at the
      end of the text. */
  function Escaped(s: string, inRun: bool): string {
    if s == "" then ""
    else if s[0] == '\\' then "\\" + Escaped(s[1..], true)
    else (if inRun then "\\" else "") + [s[0]] + Escaped(s[1..], false)
  }

  lemma {:induction false} UnescapeEscaped(s: string, inRun: bool)
    ensures Unescaped(Escaped(s, inRun), inRun) == (if inRun then "\\" else "") + s
  {
    if s != "" {
      var bs, e := s[0] == '\\', Escaped(s, inRun);
      UnescapeEscaped(s[1..], bs);
      if bs {
        assert e[1..] == Escaped(s[1..], true);
      } else if inRun {
        assert e[1..][1..] == Escaped(s[1..], false);
      } else {
        assert e[1..] == Escaped(s[1..], false);
      }
    }
  }

  /** The usual reading: a backslash makes the next character literal, itself included; one
      with nothing behind it stands for itself. */
  function Literal(s: string): string {
    if |s| < 2 then s
    else if s[0] == '\\' then [s[1]] + Literal(s[2..])
    else [s[0]] + Literal(s[1..])
  }

  /** No three backslashes in a row, and not two at the end. */
  predicate ShortRuns(s: string) {
    && (forall i :: 0 <= i && i + 2 < |s| ==> s[i] != '\\' || s[i + 1] != '\\' || s[i + 2] != '\\')
    && (|s| >= 2 ==> s[|s| - 2] != '\\' || s[|s| - 1] != '\\')
  }

  lemma {:induction false} ShortRunsStep(s: string, n: nat)
    requires 1 <= n <= 3
    requires |s| >= n && s[n - 1] != '\\'
    ensures ShortRuns(s) <==> ShortRuns(s[n..])
  {
    var t := s[n..];
    assert forall i :: 0 <= i < |t| ==> t[i] == s[n + i];
    if ShortRuns(t) {
      forall i | 0 <= i && i + 2 < |s|
        ensures s[i] != '\\' || s[i + 1] != '\\' || s[i + 2] != '\\'
      {
        if i >= n {
          assert t[i - n] == s[i] && t[i - n + 1] == s[i + 1] && t[i - n + 2] == s[i + 2];
        }
      }
    }
  }

  /** Behind one backslash, the code writes at least as much as the usual reading. */
  lemma {:induction false} RunIsNotShorter(s: string)
    ensures |Unescaped(s, false)| >= |Literal(s)|
    ensures |Unescaped(s, true)| >= |Literal(s)|
    decreases |s|
  {
    if |s| >= 2 {
      RunIsNotShorter(s[1..]);
      RunIsNotShorter(s[2..]);
      if s[0] == '\\' {
        assert s[1..][1..] == s[2..];
      }
    }
  }

  /** `remove_unescapes` reads a text as usual exactly when it has no run of three
      backslashes and does not end with two: a longer run loses only one of them. */
  lemma {:induction false} UnescapeIsLiteral(s: string)
    ensures Unescaped(s, false) == Literal(s) <==> ShortRuns(s)
    decreases |s|
  {
    if |s| < 2 {
      assert |s| == 1 ==> s[1..] == "" && s == [s[0]];
    } else if s[0] != '\\' {
      ShortRunsStep(s, 1);
      UnescapeIsLiteral(s[1..]);
      SameBehind([s[0]], Unescaped(s[1..], false), Literal(s[1..]));
    } else if s[1] != '\\' {
      ShortRunsStep(s, 2);
      UnescapeIsLiteral(s[2..]);
      CodeOne(s);
      SameBehind([s[1]], Unescaped(s[2..], false), Literal(s[2..]));
    } else if |s| > 2 && s[2] != '\\' {
      ShortRunsStep(s, 3);
      UnescapeIsLiteral(s[3..]);
      CodePair(s);
      assert s[2..][1..] == s[3..];
      assert "\\" + ([s[2]] + Unescaped(s[3..], false)) == ['\\', s[2]] + Unescaped(s[3..], false);
      LiteralPair(s);
      SameBehind(['\\', s[2]], Unescaped(s[3..], false), Literal(s[3..]));
    } else {
      LongRun(s);
    }
  }

  lemma SameBehind(front: string, a: string, b: string)
    ensures front + a == front + b <==> a == b
  {
    assert (front + a)[|front|..] == a && (front + b)[|front|..] == b;
  }

  lemma CodeOne(s: string)
    requires |s| >= 2 && s[0] == '\\' && s[1] != '\\'
    ensures Unescaped(s, false) == [s[1]] + Unescaped(s[2..], false)
  {
    assert s[1..][1..] == s[2..];
    assert "" + Unescaped(s[1..], true) == Unescaped(s[1..], true);
  }

  lemma CodePair(s: string)
    requires |s| >= 2 && s[0] == '\\' && s[1] == '\\'
    ensures Unescaped(s, false) == "\\" + Unescaped(s[2..], true)
  {
    assert Unescaped(s[1..], true) == "\\" + Unescaped(s[1..][1..], true);
    assert s[1..][1..] == s[2..];
    assert "" + Unescaped(s[1..], true) == Unescaped(s[1..], true);
  }

  lemma LiteralPair(s: string)
    requires |s| > 2 && s[0] == '\\' && s[1] == '\\' && s[2] != '\\'
    ensures Literal(s) == ['\\', s[2]] + Literal(s[3..])
  {
    assert s[2..][1..] == s[3..];
    assert |s| == 3 ==> s[2..] == [s[2]] && s[3..] == "";
  }

  lemma {:induction false} LongRun(s: string)
    requires |s| >= 2 && s[0] == '\\' && s[1] == '\\' && (|s| > 2 ==> s[2] == '\\')
    ensures |Unescaped(s, false)| > |Literal(s)| && !ShortRuns(s)
  {
    CodePair(s);
    if |s| > 2 {
      var t := s[2..];
      if |t| >= 2 {
        RunIsNotShorter(t[2..]);
        assert t[1..][1..] == t[2..];
        assert |Unescaped(t, true)| == 1 + |Unescaped(t[1..], true)|;
      } else {
        assert t[1..] == "";
      }
    }
  }

  /** Four backslashes should be two, but all four come out at the end of a text, and three
      inside one. */
  lemma FourBackslashesMisread()
    ensures Literal("\\\\\\\\") == "\\\\" && Unescaped("\\\\\\\\", false) == "\\\\\\\\"
    ensures Literal("\\\\\\\\a") == "\\\\a" && Unescaped("\\\\\\\\a", false) == "\\\\\\a"
  {
  }

  lemma {:induction false} UnescapedNonEmpty(s: string)
    requires s != ""
    ensures Unescaped(s, false) != ""
  {
  }

  //// Sections

  predicate Blank(s: string) {
    forall i :: 0 <= i < |s| ==> IsSpace(s[i])
  }

  predicate IsWildcard(section: string) {
    |section| >= 2 && section[0] == '{' && section[|section| - 1] == '}'
  }

  /** `{}` is a wildcard without id, but the id range of `{ }` is inverted in the source. */
  predicate HasIdRange(section: string) {
    IsWildcard(section) && |section| > 2 ==> !Blank(section[1..|section| - 1])
  }

  /** s without the blanks around it. */
  function Trimmed(s: string): (t: string)
    ensures t == "" || (!IsSpace(t[0]) && !IsSpace(t[|t| - 1]))
    ensures (s == "" || (!IsSpace(s[0]) && !IsSpace(s[|s| - 1]))) ==> t == s
    decreases |s|
  {
    if s == "" then s
    else if IsSpace(s[0]) then Trimmed(s[1..])
    else if IsSpace(s[|s| - 1]) then Trimmed(s[..|s| - 1])
    else s
  }

  /** s is blank but for what lies between i and j. */
  ghost predicate Inside(s: string, i: nat, j: nat) {
    && i < j <= |s| && !IsSpace(s[i]) && !IsSpace(s[j - 1])
    && forall n :: 0 <= n < i || j <= n < |s| ==> IsSpace(s[n])
  }

  lemma InsideTail(s: string, i: nat, j: nat)
    requires Inside(s, i, j) && i > 0
    ensures Inside(s[1..], i - 1, j - 1)
  {
    var t := s[1..];
    forall n | 0 <= n < i - 1 || j - 1 <= n < |t| ensures IsSpace(t[n]) {
      assert t[n] == s[n + 1];
    }
  }

  lemma InsideFront(s: string, i: nat, j: nat)
    requires Inside(s, i, j) && j < |s|
    ensures Inside(s[..|s| - 1], i, j)
  {
  }

  lemma {:induction false} TrimmedIs(s: string, i: nat, j: nat)
    requires Inside(s, i, j)
    ensures Trimmed(s) == s[i..j]
    decreases |s|
  {
    if i > 0 {
      InsideTail(s, i, j);
      TrimmedIs(s[1..], i - 1, j - 1);
      SliceOfSlice(s, 1, |s|, i - 1, j - 1);
    } else if j < |s| {
      InsideFront(s, i, j);
      TrimmedIs(s[..|s| - 1], i, j);
      SliceOfSlice(s, 0, |s| - 1, i, j);
    } else {
      assert s[i..j] == s;
    }
  }

  function LinkOf(section: string): StateNode {
    if IsWildcard(section) then
      StateNode(MatchAny, "", false, Unescaped(Trimmed(section[1..|section| - 1]), false))
    else
      StateNode(FixedString, Unescaped(section, false), false, "")
  }

  /** The links of a route text without its leading '/', unless a section is empty. */
  function LinksOf(text: string): Option<Chain>
    decreases |text|
  {
    if text == "" then Some([])
    else if Head(text) == "" then None
    else
      match LinksOf(Tail(text))
      case None => None
      case Some(links) => Some([LinkOf(Head(text))] + links)
  }

  /** Every wildcard section read has an id range. */
  predicate IdsInRange(text: string)
    decreases |text|
  {
    text == "" || Head(text) == "" || (HasIdRange(Head(text)) && IdsInRange(Tail(text)))
  }

  lemma {:induction false} TrimmedInside(section: string, inner: string, prev: nat, aft: nat)
    requires |section| >= 2 && inner == section[1..|section| - 1]
    requires 1 <= prev <= aft < |section| - 1 && !IsSpace(section[prev]) && !IsSpace(section[aft])
    requires forall j :: 1 <= j < prev ==> IsSpace(section[j])
    requires forall j :: aft < j < |section| - 1 ==> IsSpace(section[j])
    ensures Trimmed(inner) == section[prev..aft + 1]
  {
    forall n | 0 <= n < prev - 1 || aft <= n < |inner| ensures IsSpace(inner[n]) {
      assert inner[n] == section[n + 1];
    }
    assert Inside(inner, prev - 1, aft);
    TrimmedIs(inner, prev - 1, aft);
    SliceOfSlice(section, 1, |section| - 1, prev - 1, aft);
  }

  lemma {:induction false} IdRange(section: string, prev: nat, aft: nat)
    requires IsWildcard(section) && HasIdRange(section)
    requires 1 <= prev < |section| && 0 <= aft <= |section| - 2
    requires forall j :: 1 <= j < prev ==> IsSpace(section[j])
    requires forall j :: aft < j < |section| - 1 ==> IsSpace(section[j])
    requires !IsSpace(section[prev]) && (aft == 0 || !IsSpace(section[aft]))
    ensures prev <= aft + 1 && section[prev..aft + 1] == Trimmed(section[1..|section| - 1])
  {
    var inner := section[1..|section| - 1];
    if |section| > 2 {
      var k :| 0 <= k < |inner| && !IsSpace(inner[k]);
      assert section[k + 1] == inner[k];
      TrimmedInside(section, inner, prev, aft);
    } else {
      assert inner == "";
    }
  }

  method IdText(section: string) returns (id: string)
    requires IsWildcard(section) && HasIdRange(section)
    ensures id == Trimmed(section[1..|section| - 1])
  {
    var n := |section| - 1;
    var prevIndex := 1;
    while prevIndex < |section| && IsSpace(section[prevIndex])
      invariant 1 <= prevIndex <= n
      invariant forall j :: 1 <= j < prevIndex ==> IsSpace(section[j])
    {
      prevIndex := prevIndex + 1;
    }
    var aftIndex := n - 1;
    while aftIndex > 0 && IsSpace(section[aftIndex])
      invariant 0 <= aftIndex <= n - 1
      invariant forall j :: aftIndex < j < n ==> IsSpace(section[j])
    {
      aftIndex := aftIndex - 1;
    }
    IdRange(section, prevIndex, aftIndex);
    id := section[prevIndex..aftIndex + 1];
  }

  function Following(chain: Chain, links: Option<Chain>): Option<Chain> {
    if links.None? then None else Some(chain + links.value)
  }

  lemma AfterNothing(links: Option<Chain>)
    ensures Following([], links) == links
  {
    assert links.Some? ==> [] + links.value == links.value;
  }

  lemma {:induction false} FollowingStep(chain: Chain, text: string)
    requires text != "" && Head(text) != ""
    ensures Following(chain, LinksOf(text)) == Following(chain + [LinkOf(Head(text))], LinksOf(Tail(text)))
  {
    var links := LinksOf(Tail(text));
    if links.Some? {
      assert (chain + [LinkOf(Head(text))]) + links.value == chain + ([LinkOf(Head(text))] + links.value);
    }
  }

  method ReadSection(section: string) returns (link: StateNode)
    requires section != "" && HasIdRange(section)
    ensures link == LinkOf(section) && IsInnerLink(link)
  {
    if IsWildcard(section) {
      var id := IdText(section);
      id := RemoveUnescapes(id);
      link := StateNode(MatchAny, "", false, id);
    } else {
      var data := RemoveUnescapes(section);
      UnescapedNonEmpty(section);
      link := StateNode(FixedString, data, false, "");
    }
  }

  predicate AreInnerLinks(links: Chain) {
    forall i :: 0 <= i < |links| ==> IsInnerLink(links[i])
  }

  lemma EndedChain(links: Chain)
    requires AreInnerLinks(links)
    ensures IsRoute(links + [END]) && IdsOnWildcards(links + [END])
  {
  }

  /** Returns 0 and the chain, or -1 for the empty text, or -2 for an empty section. */
  method ParseFromStr(text: string) returns (code: int, chain: Chain)
    requires IdsInRange(StripSlash(text))
    ensures code == (if text == "" then -1 else if LinksOf(StripSlash(text)).None? then -2 else 0)
    ensures code == 0 ==> chain == LinksOf(StripSlash(text)).value + [END] && IsRoute(chain) && IdsOnWildcards(chain)
  {
    if text == "" { return -1, [END]; }
    var str := StripSlash(text);
    ghost var goal := LinksOf(str);
    chain := [];
    AfterNothing(LinksOf(str));
    while str != ""
      invariant IdsInRange(str) && goal == Following(chain, LinksOf(str)) && AreInnerLinks(chain)
      decreases |str|
    {
      var section := Head(str);
      if section == "" { return -2, chain + [END]; }
      FollowingStep(chain, str);
      var link := ReadSection(section);
      chain := chain + [link];
      str := Tail(str);
    }
    assert chain + [] == chain;
    EndedChain(chain);
    code, chain := 0, chain + [END];
  }

  predicate IsInnerLink(c: StateNode) {
    !c.empty && (c.rule.FixedString? ==> c.dataStr != "" && c.id == "")
  }

  //// Every route can be written

  /** Links that have a text: no '/' in them, wildcard ids without blanks around them. */
  ghost predicate IsWritable(c: StateNode) {
    && IsInnerLink(c)
    && '/' !in c.dataStr && '/' !in c.id
    && (c.rule.MatchAny? ==> c.dataStr == "" && (c.id == "" || (!IsSpace(c.id[0]) && !IsSpace(c.id[|c.id| - 1]))))
  }

  /** White space around the id of a wildcard; an empty id has none. */
  datatype Pad = Pad(before: string, after: string)

  ghost predicate FitsPad(c: StateNode, p: Pad) {
    Blank(p.before) && Blank(p.after) && (c.rule.FixedString? || c.id == "" ==> p == Pad("", ""))
  }

  function SectionOf(c: StateNode, p: Pad): string {
    if c.rule.MatchAny? then "{" + (p.before + Escaped(c.id, false) + p.after) + "}"
    else (if c.dataStr != "" && c.dataStr[0] == '{' then "\\" else "") + Escaped(c.dataStr, false)
  }

  /** The sections with '/' between them. */
  function TextOf(links: Chain, pads: seq<Pad>): string
    requires |pads| == |links|
    decreases |links|
  {
    if links == [] then ""
    else if |links| == 1 then SectionOf(links[0], pads[0])
    else SectionOf(links[0], pads[0]) + "/" + TextOf(links[1..], pads[1..])
  }

  lemma {:induction false} EscapedShape(s: string, inRun: bool)
    requires '/' !in s
    ensures '/' !in Escaped(s, inRun)
    ensures s != "" ==> Escaped(s, inRun) != "" && Escaped(s, inRun)[|Escaped(s, inRun)| - 1] == s[|s| - 1]
    ensures s != "" && !inRun ==> Escaped(s, inRun)[0] == s[0]
    ensures s == "" ==> Escaped(s, inRun) == ""
  {
    if s != "" {
      EscapedShape(s[1..], s[0] == '\\');
    }
  }

  lemma {:induction false} PaddedIsTrimmed(e: string, p: Pad)
    requires Blank(p.before) && Blank(p.after) && (e == "" ==> p == Pad("", ""))
    requires e != "" ==> !IsSpace(e[0]) && !IsSpace(e[|e| - 1])
    ensures Trimmed(p.before + e + p.after) == e
    ensures e != "" ==> !Blank(p.before + e + p.after)
  {
    var s := p.before + e + p.after;
    if e == "" {
      assert s == "";
    } else {
      var i, j := |p.before|, |p.before| + |e|;
      assert s[i] == e[0] && s[j - 1] == e[|e| - 1];
      forall n | 0 <= n < i || j <= n < |s| ensures IsSpace(s[n]) {
        assert s[n] == if n < i then p.before[n] else p.after[n - j];
      }
      assert Inside(s, i, j);
      TrimmedIs(s, i, j);
      assert s[i..j] == e;
    }
  }

  lemma NoSlashInPadded(e: string, p: Pad)
    requires Blank(p.before) && Blank(p.after) && '/' !in e
    ensures '/' !in p.before + e + p.after
  {
    assert '/' !in p.before && '/' !in p.after;
  }

  lemma {:induction false} WildcardIsRead(c: StateNode, p: Pad)
    requires IsWritable(c) && FitsPad(c, p) && c.rule.MatchAny?
    ensures var section := SectionOf(c, p);
      section != "" && '/' !in section && HasIdRange(section) && LinkOf(section) == c
  {
    var e, section := Escaped(c.id, false), SectionOf(c, p);
    EscapedShape(c.id, false);
    UnescapeEscaped(c.id, false);
    PaddedIsTrimmed(e, p);
    NoSlashInPadded(e, p);
    assert section[1..|section| - 1] == p.before + e + p.after;
  }

  lemma {:induction false} LiteralIsRead(c: StateNode, p: Pad)
    requires IsWritable(c) && c.rule.FixedString?
    ensures var section := SectionOf(c, p);
      section != "" && '/' !in section && HasIdRange(section) && LinkOf(section) == c
  {
    var e, section := Escaped(c.dataStr, false), SectionOf(c, p);
    EscapedShape(c.dataStr, false);
    UnescapeEscaped(c.dataStr, false);
    if c.dataStr[0] == '{' {
      assert section[1..] == e;
      assert Unescaped(section, false) == Unescaped(e, true) == Unescaped(e, false);
    } else {
      assert section == e;
    }
  }

  lemma {:induction false} SectionIsRead(c: StateNode, p: Pad)
    requires IsWritable(c) && FitsPad(c, p)
    ensures var section := SectionOf(c, p);
      section != "" && '/' !in section && HasIdRange(section) && LinkOf(section) == c
  {
    if c.rule.MatchAny? {
      WildcardIsRead(c, p);
    } else {
      LiteralIsRead(c, p);
    }
  }

  /** A text begins with its first section; end is "" or one '/' at the end. */
  lemma {:induction false} FirstSection(links: Chain, pads: seq<Pad>, end: string)
    requires |pads| == |links| > 0 && (end == "" || end == "/")
    requires SectionOf(links[0], pads[0]) != "" && '/' !in SectionOf(links[0], pads[0])
    ensures var text := TextOf(links, pads) + end;
      && Head(text) == SectionOf(links[0], pads[0])
      && Tail(text) == (if |links| == 1 then "" else TextOf(links[1..], pads[1..]) + end)
      && text != "" && text[0] != '/'
  {
    var section := SectionOf(links[0], pads[0]);
    if |links| == 1 {
      SectionThen(section, end);
    } else {
      var rest := TextOf(links[1..], pads[1..]) + end;
      assert TextOf(links, pads) + end == section + ("/" + rest);
      SectionThen(section, "/" + rest);
      assert ("/" + rest)[1..] == rest;
    }
  }

  lemma {:induction false} SectionThen(section: string, tail: string)
    requires section != "" && '/' !in section && (tail == "" || tail[0] == '/')
    ensures var text := section + tail;
      && Head(text) == section && Tail(text) == (if tail == "" then "" else tail[1..]) && text[0] != '/'
  {
    var text := section + tail;
    assert forall j :: 0 <= j < |section| ==> text[j] == section[j];
    assert tail != "" ==> text[|section|] == '/';
    assert IndexOf(text, '/') == |section|;
  }

  lemma SectionThenRest(text: string)
    requires text != "" && Head(text) != ""
    ensures LinksOf(text) == Following([LinkOf(Head(text))], LinksOf(Tail(text)))
    ensures IdsInRange(text) <==> HasIdRange(Head(text)) && IdsInRange(Tail(text))
  {
  }

  ghost predicate AreFitting(links: Chain, pads: seq<Pad>) {
    |pads| == |links| && forall i :: 0 <= i < |links| ==> IsWritable(links[i]) && FitsPad(links[i], pads[i])
  }

  /** Main result: every chain of writable links has a text that `parse_from_str` reads back,
      with or without '/' in front and at the end, and with white space around the ids. */
  lemma {:induction false} TextIsRead(links: Chain, pads: seq<Pad>, end: string)
    requires AreFitting(links, pads) && (end == "" || (end == "/" && links != []))
    ensures var text := TextOf(links, pads) + end;
      && StripSlash("/" + text) == text && StripSlash(text) == text
      && IdsInRange(text) && LinksOf(text) == Some(links)
  {
    var text := TextOf(links, pads) + end;
    SlashIsOptional(text);
    if links != [] {
      SectionIsRead(links[0], pads[0]);
      FirstSection(links, pads, end);
      SectionThenRest(text);
      if |links| == 1 {
        assert LinksOf("") == Some([]) && [links[0]] + [] == links;
      } else {
        TextIsRead(links[1..], pads[1..], end);
        assert links == [links[0]] + links[1..];
      }
    }
  }
}
