/** `Config::Node::get_node_recursive`. */
module ConfigLookup {
  import opened Text
  import opened ConfigTree

  /** The children from index i on that have the name. */
  function Matches(ns: seq<Node>, name: string, i: nat): (ms: seq<nat>)
    ensures forall j :: 0 <= j < |ms| ==> i <= ms[j] < |ns|
    decreases |ns| - i
  {
    if i >= |ns| then [] else (if ns[i].name == name then [i] else []) + Matches(ns, name, i + 1)
  }

  /** Which of n matches is taken: the first on every level but the last; there the k-th,
      counting from 0, or the last one if there are fewer. */
  function Rank(inner: bool, k: nat, n: nat): (r: nat)
    requires n > 0
    ensures r < n
  {
    if inner then 0 else if k < n then k else n - 1
  }

  function Find(n: Node, location: seq<string>, k: nat): Option<Path>
    decreases |location|
  {
    if location == [] then Some([]) else
    var ms := Matches(n.children, location[0], 0);
    if ms == [] then None else
    var i := ms[Rank(|location| > 1, k, |ms|)];
    Below(i, Find(n.children[i], location[1..], k))
  }

  function Below(i: nat, p: Option<Path>): Option<Path> {
    if p.None? then None else Some([i] + p.value)
  }

  /** The walk has followed path so far; the rest of the location is to be found below n. */
  ghost predicate Searching(goal: Option<Path>, path: Path, n: Node, rest: seq<string>, k: nat) {
    goal == if Find(n, rest, k).None? then None else Some(path + Find(n, rest, k).value)
  }

  lemma {:induction false} SearchDown(goal: Option<Path>, path: Path, n: Node, rest: seq<string>, k: nat, i: nat)
    requires Searching(goal, path, n, rest, k) && rest != []
    requires var ms := Matches(n.children, rest[0], 0);
      ms != [] && i == ms[Rank(|rest| > 1, k, |ms|)]
    ensures i < |n.children| && Searching(goal, path + [i], n.children[i], rest[1..], k)
  {
    var below := Find(n.children[i], rest[1..], k);
    if below.Some? {
      assert path + ([i] + below.value) == (path + [i]) + below.value;
    }
  }

  /** The local variables of the search. */
  datatype Cursor = Cursor(path: Path, current: Node, cmpIndex: nat, i: nat, founded: nat, lastFind: Option<nat>)

  function Start(self: Node): Cursor {
    Cursor([], self, 0, 0, 0, None)
  }

  /** Moving to a child resets what was found on the level above. */
  function Enter(c: Cursor, i: nat): Cursor
    requires i < |c.current.children|
  {
    Cursor(c.path + [i], c.current.children[i], c.cmpIndex + 1, 0, 0, None)
  }

  /** The walk is right so far, and seen are the matches before index i that it passed by. */
  ghost predicate OnTrack(goal: Option<Path>, location: seq<string>, k: nat, c: Cursor, seen: seq<nat>) {
    && c.cmpIndex <= |location|
    && Searching(goal, c.path, c.current, location[c.cmpIndex..], k)
    && c.founded == |seen| <= k && c.i <= |c.current.children|
    && c.lastFind == (if seen == [] then None else Some(seen[|seen| - 1]))
    && (c.cmpIndex < |location| ==>
          && Matches(c.current.children, location[c.cmpIndex], 0) == seen + Matches(c.current.children, location[c.cmpIndex], c.i)
          && (c.cmpIndex < |location| - 1 ==> seen == []))
  }

  lemma StartOnTrack(self: Node, location: seq<string>, k: nat)
    ensures OnTrack(Find(self, location, k), location, k, Start(self), [])
  {
    var goal := Find(self, location, k);
    assert location[0..] == location;
    assert goal.Some? ==> [] + goal.value == goal.value;
    assert location != [] ==> [] + Matches(self.children, location[0], 0) == Matches(self.children, location[0], 0);
  }

  lemma PassOther(goal: Option<Path>, location: seq<string>, k: nat, c: Cursor, seen: seq<nat>)
    requires OnTrack(goal, location, k, c, seen) && c.cmpIndex < |location| && c.i < |c.current.children|
    requires c.current.children[c.i].name != location[c.cmpIndex]
    ensures OnTrack(goal, location, k, c.(i := c.i + 1), seen)
  {
    var rest := Matches(c.current.children, location[c.cmpIndex], c.i + 1);
    assert [] + rest == rest;
  }

  lemma PassMatch(goal: Option<Path>, location: seq<string>, k: nat, c: Cursor, seen: seq<nat>)
    requires OnTrack(goal, location, k, c, seen) && c.cmpIndex == |location| - 1 && c.i < |c.current.children|
    requires c.current.children[c.i].name == location[c.cmpIndex] && c.founded < k
    ensures OnTrack(goal, location, k, c.(i := c.i + 1, founded := c.founded + 1, lastFind := Some(c.i)), seen + [c.i])
  {
    var rest := Matches(c.current.children, location[c.cmpIndex], c.i + 1);
    assert seen + ([c.i] + rest) == (seen + [c.i]) + rest;
  }

  lemma EnterMatch(goal: Option<Path>, location: seq<string>, k: nat, c: Cursor, seen: seq<nat>, i: nat)
    requires OnTrack(goal, location, k, c, seen) && c.cmpIndex < |location|
    requires if c.i < |c.current.children| then
               && i == c.i && c.current.children[i].name == location[c.cmpIndex]
               && !(c.cmpIndex == |location| - 1 && c.founded < k)
             else c.lastFind == Some(i)
    ensures i < |c.current.children| && OnTrack(goal, location, k, Enter(c, i), [])
  {
    MatchToEnter(goal, location, k, c, seen, i);
    SearchDown(goal, c.path, c.current, location[c.cmpIndex..], k, i);
    assert location[c.cmpIndex..][1..] == location[c.cmpIndex + 1..];
    EnterFresh(goal, location, k, Enter(c, i));
  }

  /** The match the code enters is the one of the right rank. */
  lemma MatchToEnter(goal: Option<Path>, location: seq<string>, k: nat, c: Cursor, seen: seq<nat>, i: nat)
    requires OnTrack(goal, location, k, c, seen) && c.cmpIndex < |location|
    requires if c.i < |c.current.children| then
               && i == c.i && c.current.children[i].name == location[c.cmpIndex]
               && !(c.cmpIndex == |location| - 1 && c.founded < k)
             else c.lastFind == Some(i)
    ensures var ms := Matches(c.current.children, location[c.cmpIndex], 0);
      ms != [] && i == ms[Rank(c.cmpIndex + 1 < |location|, k, |ms|)]
  {
    var ns, name := c.current.children, location[c.cmpIndex];
    var ms := Matches(ns, name, 0);
    if c.i < |ns| {
      var rest := Matches(ns, name, i);
      assert rest != [] && rest[0] == i;
      AtSeam(seen, rest);
    } else {
      assert seen + [] == seen;
    }
  }

  lemma AtSeam(a: seq<nat>, b: seq<nat>)
    requires b != []
    ensures (a + b)[|a|] == b[0]
  {
  }

  /** A level just entered: nothing is found on it yet. */
  lemma EnterFresh(goal: Option<Path>, location: seq<string>, k: nat, c: Cursor)
    requires c.cmpIndex <= |location| && Searching(goal, c.path, c.current, location[c.cmpIndex..], k)
    requires c.i == 0 && c.founded == 0 && c.lastFind == None
    ensures OnTrack(goal, location, k, c, [])
  {
    if c.cmpIndex < |location| {
      var ms := Matches(c.current.children, location[c.cmpIndex], 0);
      assert [] + ms == ms;
    }
  }

  /** Returns the way to the node that the code returns a reference to. */
  method GetNodeRecursive(self: Node, location: seq<string>, expectedIndex: nat) returns (r: Option<Path>)
    ensures r == Find(self, location, expectedIndex)
  {
    ghost var goal := Find(self, location, expectedIndex);
    var c := Start(self);
    StartOnTrack(self, location, expectedIndex);
    while true
      invariant OnTrack(goal, location, expectedIndex, c, [])
      decreases |location| - c.cmpIndex
    {
      ghost var cmp0, seen: seq<nat> := c.cmpIndex, [];
      while c.cmpIndex < |location| && c.i < |c.current.children|
        invariant cmp0 <= c.cmpIndex <= |location| && OnTrack(goal, location, expectedIndex, c, seen)
        decreases |location| - c.cmpIndex, |c.current.children| - c.i
      {
        if c.current.children[c.i].name == location[c.cmpIndex] {
          if c.cmpIndex == |location| - 1 && c.founded < expectedIndex {
            PassMatch(goal, location, expectedIndex, c, seen);
            seen := seen + [c.i];
            c := c.(i := c.i + 1, founded := c.founded + 1, lastFind := Some(c.i));
          } else {
            EnterMatch(goal, location, expectedIndex, c, seen, c.i);
            seen, c := [], Enter(c, c.i);
          }
        } else {
          PassOther(goal, location, expectedIndex, c, seen);
          c := c.(i := c.i + 1);
        }
      }
      if c.cmpIndex >= |location| { break; }
      if c.founded <= expectedIndex && c.lastFind.Some? {
        EnterMatch(goal, location, expectedIndex, c, seen, c.lastFind.value);
        c := Enter(c, c.lastFind.value);
        continue;
      }
      return None;
    }
    assert location[c.cmpIndex..] == [] && c.path + [] == c.path;
    return Some(c.path);
  }

  //// What is found, level by level

  /** How many children before index i have the name. */
  function Before(ns: seq<Node>, name: string, i: nat): nat
    requires i <= |ns|
  {
    if i == 0 then 0 else Before(ns, name, i - 1) + if ns[i - 1].name == name then 1 else 0
  }

  /** Child i has the name, and as many siblings of that name before it as the level asks. */
  ghost predicate IsChosen(ns: seq<Node>, name: string, inner: bool, k: nat, i: nat) {
    && i < |ns| && ns[i].name == name && Before(ns, name, |ns|) > 0
    && Before(ns, name, i) == if inner then 0 else if k < Before(ns, name, |ns|) then k else Before(ns, name, |ns|) - 1
  }

  /** p leads along the location, through a child of the right name on every level. */
  ghost predicate Leads(n: Node, location: seq<string>, k: nat, p: Path)
    decreases |location|
  {
    if location == [] then p == []
    else
      && p != [] && IsChosen(n.children, location[0], |location| > 1, k, p[0])
      && Leads(n.children[p[0]], location[1..], k, p[1..])
  }

  lemma {:induction false} MatchIsCounted(ns: seq<Node>, name: string, i: nat, j: nat)
    requires i <= |ns| && j < |Matches(ns, name, i)|
    ensures var m := Matches(ns, name, i)[j];
      ns[m].name == name && Before(ns, name, m) == Before(ns, name, i) + j
    decreases |ns| - i
  {
    if ns[i].name == name {
      if j > 0 {
        MatchIsCounted(ns, name, i + 1, j - 1);
      }
    } else {
      MatchIsCounted(ns, name, i + 1, j);
    }
  }

  lemma {:induction false} AllAreCounted(ns: seq<Node>, name: string, i: nat)
    requires i <= |ns|
    ensures Before(ns, name, |ns|) == Before(ns, name, i) + |Matches(ns, name, i)|
    decreases |ns| - i
  {
    if i < |ns| {
      AllAreCounted(ns, name, i + 1);
    }
  }

  lemma {:induction false} CountIsMatch(ns: seq<Node>, name: string, i: nat, m: nat)
    requires i <= m < |ns| && ns[m].name == name
    ensures Before(ns, name, m) >= Before(ns, name, i)
    ensures var j := Before(ns, name, m) - Before(ns, name, i);
      j < |Matches(ns, name, i)| && Matches(ns, name, i)[j] == m
    decreases m - i
  {
    if i < m {
      CountIsMatch(ns, name, i + 1, m);
    }
  }

  lemma {:induction false} RankedIs(ns: seq<Node>, name: string, r: nat, i: nat)
    requires r < |Matches(ns, name, 0)|
    ensures i == Matches(ns, name, 0)[r] <==> i < |ns| && ns[i].name == name && Before(ns, name, i) == r
  {
    MatchIsCounted(ns, name, 0, r);
    if i < |ns| && ns[i].name == name {
      CountIsMatch(ns, name, 0, i);
    }
  }

  lemma {:induction false} ChosenIsMatch(ns: seq<Node>, name: string, inner: bool, k: nat, i: nat)
    ensures var ms := Matches(ns, name, 0);
      IsChosen(ns, name, inner, k, i) <==> ms != [] && i == ms[Rank(inner, k, |ms|)]
  {
    var ms := Matches(ns, name, 0);
    AllAreCounted(ns, name, 0);
    if ms != [] {
      RankedIs(ns, name, Rank(inner, k, |ms|), i);
    }
  }

  /** Main result: the search finds a node exactly when a path leads along the location, and
      then it is that path. */
  lemma {:induction false} FindIsExact(n: Node, location: seq<string>, k: nat, p: Path)
    ensures Find(n, location, k) == Some(p) <==> Leads(n, location, k, p)
    decreases |location|
  {
    if location != [] && p != [] {
      ChosenIsMatch(n.children, location[0], |location| > 1, k, p[0]);
      FindStep(n, location, k, p);
      if p[0] < |n.children| {
        FindIsExact(n.children[p[0]], location[1..], k, p[1..]);
      }
    }
  }

  lemma {:induction false} FindStep(n: Node, location: seq<string>, k: nat, p: Path)
    requires location != [] && p != []
    ensures var ms := Matches(n.children, location[0], 0);
      Find(n, location, k) == Some(p) <==>
        ms != [] && p[0] == ms[Rank(|location| > 1, k, |ms|)] && Find(n.children[p[0]], location[1..], k) == Some(p[1..])
  {
    assert p == [p[0]] + p[1..];
  }
}
