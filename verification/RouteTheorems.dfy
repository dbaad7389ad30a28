/** What the route state machine promises, over every tree built by registrations. */
module RouteTheorems {
  import opened Text
  import opened Routes
  import opened RouteTree
  import opened RouteTable

  //// The trie walk is the tree-free dispatch

  lemma {:induction false} AfterTable(ns: seq<Node>, seg: Seg)
    requires WellFormed(ns)
    ensures var i := Index(ns, seg);
      After(TableOf(ns).Keys, seg) == (if i < |ns| then TableOf(ns[i].nexts).Keys else {})
    ensures After(TableOf(ns).Keys, seg) != {} <==> Index(ns, seg) < |ns| && seg != Lit("")
  {
    var i := Index(ns, seg);
    forall k: Key
      ensures k in After(TableOf(ns).Keys, seg) <==> i < |ns| && k in TableOf(ns[i].nexts).Keys
    {
      AfterKey(ns, seg, k);
    }
    if i < |ns| && seg != Lit("") {
      var k := SomeRoute(ns[i].nexts);
      InTable(ns[i].nexts, k);
    }
  }

  lemma {:induction false} AfterKey(ns: seq<Node>, seg: Seg, k: Key)
    requires WellFormed(ns)
    ensures var i := Index(ns, seg);
      [seg] + k in TableOf(ns) <==> i < |ns| && k in TableOf(ns[i].nexts)
  {
    assert ([seg] + k)[1..] == k;
    InTable(ns, [seg] + k);
    if Index(ns, seg) < |ns| { InTable(ns[Index(ns, seg)].nexts, k); }
  }

  lemma {:induction false} OnlyTerminal(ns: seq<Node>)
    requires WellFormed(ns)
    ensures [] in TableOf(ns) <==> Index(ns, Lit("")) < |ns|
    ensures TableOf(ns).Keys == {[]} <==> |ns| == 1 && ns[0].nexts == []
  {
    InTable(ns, []);
    if |ns| == 1 && ns[0].nexts == [] {
      forall k | k in TableOf(ns) ensures k == [] { InTable(ns, k); }
      assert TableOf(ns).Keys == {[]};
    }
    if TableOf(ns).Keys == {[]} {
      forall i | 0 <= i < |ns| ensures Label(ns[i]) == Lit("") { OnlyTerminalChild(ns, i); }
      assert |ns| >= 2 ==> Label(ns[0]) != Label(ns[1]);
    }
  }

  lemma {:induction false} OnlyTerminalChild(ns: seq<Node>, i: nat)
    requires WellFormed(ns) && TableOf(ns).Keys == {[]} && i < |ns|
    ensures Label(ns[i]) == Lit("")
  {
    OnlyIndex(ns, i);
    AfterTable(ns, Label(ns[i]));
  }

  /** A walk and a dispatch end alike: s is the part of the route below the current node. */
  ghost predicate Agree(w: Walked, m: Match, t: Table, route: Key, ids: seq<string>, s: Key) {
    if m.NoMatch? then w.Lost?
    else
      && s in t && m.route == route + s
      && w == Found(t[s].handler, m.route, ids + t[s].ids, m.vals, m.rest, m.catchAll)
  }

  lemma {:induction false} WalkIsDispatch(n: Node, path: string, route: Key, vals: seq<string>, ids: seq<string>)
    returns (s: Key)
    requires WellFormed(n.nexts)
    ensures Agree(Walk(n, path, route, vals, ids), Dispatch(TableOf(n.nexts).Keys, path, route, vals),
                  TableOf(n.nexts), route, ids, s)
    decreases n
  {
    var name := Head(path);
    var i, any := Index(n.nexts, Lit(name)), Index(n.nexts, Any);
    AfterTable(n.nexts, Lit(name));
    AfterTable(n.nexts, Any);
    OnlyTerminal(n.nexts);
    InTable(n.nexts, []);
    s := [];
    if i < |n.nexts| && n.nexts[i].nexts == [] {
      assert route + [] == route && ids + [] == ids;
    } else if i < |n.nexts| || any < |n.nexts| {
      var seg := if i < |n.nexts| then Lit(name) else Any;
      var c := n.nexts[Index(n.nexts, seg)];
      var s' := WalkIsDispatch(c, Tail(path), route + [seg], vals + [name], ids + [c.id]);
      assert Dispatch(TableOf(n.nexts).Keys, path, route, vals) ==
             Dispatch(TableOf(c.nexts).Keys, Tail(path), route + [seg], vals + [name]);
      s := [seg] + s';
      AgreeUp(n, seg, s', Walk(n, path, route, vals, ids), Dispatch(TableOf(n.nexts).Keys, path, route, vals), route, ids);
    } else {
      assert route + [] == route && ids + [] == ids;
    }
  }

  lemma {:induction false} TableUp(n: Node, seg: Seg, s: Key)
    requires WellFormed(n.nexts) && Index(n.nexts, seg) < |n.nexts|
    requires s in TableOf(n.nexts[Index(n.nexts, seg)].nexts)
    ensures var (c, t) := (n.nexts[Index(n.nexts, seg)], TableOf(n.nexts));
      var e := TableOf(c.nexts)[s];
      [seg] + s in t && t[[seg] + s] == Entry(e.handler, [c.id] + e.ids)
  {
    InTable(n.nexts[Index(n.nexts, seg)].nexts, s);
    assert ([seg] + s)[1..] == s;
    InTable(n.nexts, [seg] + s);
  }

  lemma {:induction false} AgreeUp(n: Node, seg: Seg, s: Key, w: Walked, m: Match, route: Key, ids: seq<string>)
    requires WellFormed(n.nexts) && Index(n.nexts, seg) < |n.nexts|
    requires var c := n.nexts[Index(n.nexts, seg)]; Agree(w, m, TableOf(c.nexts), route + [seg], ids + [c.id], s)
    ensures Agree(w, m, TableOf(n.nexts), route, ids, [seg] + s)
  {
    var c := n.nexts[Index(n.nexts, seg)];
    if m.Match? {
      TableUp(n, seg, s);
    }
    AgreeShift(w, m, TableOf(c.nexts), TableOf(n.nexts), route, ids, seg, c.id, s);
  }

  lemma {:induction false} AgreeShift(
    w: Walked, m: Match, t: Table, t': Table, route: Key, ids: seq<string>, seg: Seg, id: string, s: Key)
    requires Agree(w, m, t, route + [seg], ids + [id], s)
    requires m.Match? ==> [seg] + s in t' && t'[[seg] + s] == Entry(t[s].handler, [id] + t[s].ids)
    ensures Agree(w, m, t', route, ids, [seg] + s)
  {
    if m.Match? {
      assert (route + [seg]) + s == route + ([seg] + s);
      assert (ids + [id]) + t[s].ids == ids + ([id] + t[s].ids);
    }
  }

  /** Main result: on every well-formed trie and every path, `parseURL` finds exactly what
      the dispatch over the table of routes finds, with that route's handler and ids. */
  lemma {:induction false} ParseIsDispatch(root: Node, path: string)
    requires WellFormed(root.nexts)
    ensures var t := TableOf(root.nexts);
      match Dispatch(t.Keys, path, [], [])
      case NoMatch => Walk(root, path, [], [], []) == Lost
      case Match(route, vals, rest, catchAll) =>
        && route in t
        && Walk(root, path, [], [], []) == Found(t[route].handler, route, t[route].ids, vals, rest, catchAll)
  {
    var s := WalkIsDispatch(root, path, [], [], []);
    assert [] + s == s;
    assert s in TableOf(root.nexts) ==> [] + TableOf(root.nexts)[s].ids == TableOf(root.nexts)[s].ids;
  }

  //// Registering routes

  datatype Registration = Registration(chain: Chain, handler: Handler)

  ghost predicate AllRoutes(regs: seq<Registration>) {
    forall r :: r in regs ==> IsRoute(r.chain)
  }

  /** The root after registering regs in order, starting from a cleared tree. */
  ghost function Grown(regs: seq<Registration>): Node
    requires AllRoutes(regs)
  {
    if regs == [] then EMPTY_ROOT else
    var r := regs[|regs| - 1];
    AddTo(Grown(regs[..|regs| - 1]), r.chain, r.handler).1
  }

  /** The first registration of a key, or |regs|. */
  ghost function First(regs: seq<Registration>, key: Key): (i: nat)
    requires AllRoutes(regs)
    ensures i <= |regs|
    ensures i < |regs| ==> KeyOf(regs[i].chain) == key
    ensures forall j :: 0 <= j < i ==> KeyOf(regs[j].chain) != key
  {
    if regs == [] || KeyOf(regs[0].chain) == key then 0 else 1 + First(regs[1..], key)
  }

  /** The table of a grown tree holds exactly the registered keys; the first one wins. */
  lemma {:induction false} GrownTable(regs: seq<Registration>, key: Key)
    requires AllRoutes(regs)
    ensures WellFormed(Grown(regs).nexts)
    ensures var (i, t) := (First(regs, key), TableOf(Grown(regs).nexts));
      if i == |regs| then key !in t else key in t && t[key].handler == regs[i].handler
  {
    if regs == [] {
      InTable([], key);
    } else {
      var before, r := regs[..|regs| - 1], regs[|regs| - 1];
      GrownTable(before, key);
      AddHandler(Grown(before), r.chain, r.handler, key);
      FirstOfMore(regs, key);
    }
  }

  lemma {:induction false} AddHandler(n: Node, chain: Chain, h: Handler, key: Key)
    requires WellFormed(n.nexts) && IsRoute(chain)
    ensures WellFormed(AddTo(n, chain, h).1.nexts)
    ensures var (t, t') := (TableOf(n.nexts), TableOf(AddTo(n, chain, h).1.nexts));
      && (key in t' <==> key in t || key == KeyOf(chain))
      && (key in t' ==> t'[key].handler == if key in t then t[key].handler else h)
  {
    AddRefinesInsert(n, chain, h);
  }

  lemma {:induction false} FirstOfMore(regs: seq<Registration>, key: Key)
    requires AllRoutes(regs) && regs != []
    ensures var (before, r) := (regs[..|regs| - 1], regs[|regs| - 1]);
      var i := First(before, key);
      && First(regs, key) == (if i < |before| || KeyOf(r.chain) == key then i else |regs|)
      && (i < |before| ==> regs[i] == before[i])
  {
    var before := regs[..|regs| - 1];
    assert forall j :: 0 <= j < |before| ==> regs[j] == before[j];
    var i, j := First(before, key), First(regs, key);
    assert i < |before| ==> KeyOf(regs[i].chain) == key;
    assert j < |before| ==> KeyOf(before[j].chain) == key;
  }

  ghost predicate DistinctKeys(regs: seq<Registration>)
    requires AllRoutes(regs)
  {
    forall i, j :: 0 <= i < j < |regs| ==> KeyOf(regs[i].chain) != KeyOf(regs[j].chain)
  }

  lemma {:induction false} IsRegistered(regs: seq<Registration>, r: Registration)
    requires AllRoutes(regs) && r in regs
    ensures First(regs, KeyOf(r.chain)) < |regs|
  {
    var j :| 0 <= j < |regs| && regs[j] == r;
  }

  lemma {:induction false} IsOnlyOne(regs: seq<Registration>, r: Registration)
    requires AllRoutes(regs) && DistinctKeys(regs) && r in regs
    ensures First(regs, KeyOf(r.chain)) < |regs| && regs[First(regs, KeyOf(r.chain))] == r
  {
    IsRegistered(regs, r);
    var j :| 0 <= j < |regs| && regs[j] == r;
    assert KeyOf(regs[j].chain) == KeyOf(regs[First(regs, KeyOf(r.chain))].chain);
  }

  /** The first registrations of a key are the same in both. */
  lemma {:induction false} SameFirst(regs: seq<Registration>, regs': seq<Registration>, key: Key)
    requires AllRoutes(regs) && DistinctKeys(regs) && AllRoutes(regs')
    requires forall r :: r in regs <==> r in regs'
    ensures var (i, i') := (First(regs, key), First(regs', key));
      (i < |regs| <==> i' < |regs'|) && (i < |regs| ==> regs[i] == regs'[i'])
  {
    var i, i' := First(regs, key), First(regs', key);
    if i < |regs| {
      IsRegistered(regs', regs[i]);
    }
    if i' < |regs'| {
      IsOnlyOne(regs, regs'[i']);
    }
  }

  lemma {:induction false} SameHandlers(regs: seq<Registration>, regs': seq<Registration>, key: Key)
    requires AllRoutes(regs) && DistinctKeys(regs) && AllRoutes(regs')
    requires forall r :: r in regs <==> r in regs'
    ensures var (t, t') := (TableOf(Grown(regs).nexts), TableOf(Grown(regs').nexts));
      (key in t <==> key in t') && (key in t ==> t[key].handler == t'[key].handler)
  {
    GrownTable(regs, key);
    GrownTable(regs', key);
    SameFirst(regs, regs', key);
  }

  /** Registering pairwise distinct routes in any order gives trees that answer every path
      alike: same result, same handler, same captured values. */
  lemma {:induction false} OrderDoesNotMatter(regs: seq<Registration>, regs': seq<Registration>, path: string)
    requires AllRoutes(regs) && DistinctKeys(regs) && AllRoutes(regs')
    requires forall r :: r in regs <==> r in regs'
    ensures WellFormed(Grown(regs).nexts) && WellFormed(Grown(regs').nexts)
    ensures var (w, w') := (Walk(Grown(regs), path, [], [], []), Walk(Grown(regs'), path, [], [], []));
      && w.Found? == w'.Found?
      && (w.Found? ==> w.(ids := []) == w'.(ids := []))
  {
    GrownTable(regs, []);
    GrownTable(regs', []);
    forall key: Key
      ensures key in TableOf(Grown(regs).nexts).Keys <==> key in TableOf(Grown(regs').nexts).Keys
      ensures key in TableOf(Grown(regs).nexts) ==>
        TableOf(Grown(regs).nexts)[key].handler == TableOf(Grown(regs').nexts)[key].handler
    {
      SameHandlers(regs, regs', key);
    }
    SameTableSameAnswer(Grown(regs), Grown(regs'), path);
  }

  lemma {:induction false} SameTableSameAnswer(root: Node, root': Node, path: string)
    requires WellFormed(root.nexts) && WellFormed(root'.nexts)
    requires TableOf(root.nexts).Keys == TableOf(root'.nexts).Keys
    requires forall k :: k in TableOf(root.nexts) ==> TableOf(root.nexts)[k].handler == TableOf(root'.nexts)[k].handler
    ensures var (w, w') := (Walk(root, path, [], [], []), Walk(root', path, [], [], []));
      && w.Found? == w'.Found?
      && (w.Found? ==> w.(ids := []) == w'.(ids := []))
  {
    ParseIsDispatch(root, path);
    ParseIsDispatch(root', path);
  }

  //// Literal routes

  ghost function PathOf(names: seq<string>): string {
    if names == [] then "" else if |names| == 1 then names[0] else names[0] + "/" + PathOf(names[1..])
  }

  ghost function Literals(names: seq<string>): (k: Key)
    ensures |k| == |names|
  {
    seq(|names|, i requires 0 <= i < |names| => Lit(names[i]))
  }

  ghost predicate AreNames(names: seq<string>) {
    forall i :: 0 <= i < |names| ==> names[i] != "" && '/' !in names[i]
  }

  lemma {:induction false} HeadOfPath(names: seq<string>)
    requires AreNames(names) && names != []
    ensures Head(PathOf(names)) == names[0] && Tail(PathOf(names)) == PathOf(names[1..])
  {
    var i := IndexOf(PathOf(names), '/');
    assert |names| > 1 ==> PathOf(names)[|names[0]|] == '/';
    assert forall j :: 0 <= j < |names[0]| ==> PathOf(names)[j] == names[0][j];
    assert i == |names[0]|;
  }

  lemma FirstLiteral(names: seq<string>, route: Key, vals: seq<string>)
    requires names != []
    ensures Literals(names) == [Lit(names[0])] + Literals(names[1..])
    ensures route + Literals(names) == (route + [Lit(names[0])]) + Literals(names[1..])
    ensures vals + names == (vals + [names[0]]) + names[1..]
  {
    assert Literals(names) == [Lit(names[0])] + Literals(names[1..]);
  }

  lemma {:induction false} DispatchLiterals(keys: set<Key>, names: seq<string>, route: Key, vals: seq<string>)
    requires AreNames(names) && Literals(names) in keys
    ensures Dispatch(keys, PathOf(names), route, vals) == Match(route + Literals(names), vals + names, "", false)
    decreases |names|
  {
    if names == [] {
      assert Literals(names) == [];
      assert route + [] == route && vals + [] == vals;
    } else {
      var seg := Lit(names[0]);
      HeadOfPath(names);
      FirstLiteral(names, route, vals);
      assert Literals(names[1..]) in After(keys, seg);
      DispatchLiterals(After(keys, seg), names[1..], route + [seg], vals + [names[0]]);
      DispatchNamed(keys, PathOf(names), route, vals);
    }
  }

  lemma {:induction false} DispatchNamed(keys: set<Key>, path: string, route: Key, vals: seq<string>)
    requires Head(path) != "" && After(keys, Lit(Head(path))) != {}
    ensures Dispatch(keys, path, route, vals) ==
      Dispatch(After(keys, Lit(Head(path))), Tail(path), route + [Lit(Head(path))], vals + [Head(path)])
  {
  }

  /** A route of literals answers its own path with the handler it was first registered
      with, whatever else was or will be registered. */
  lemma {:induction false} LiteralRouteAnswers(regs: seq<Registration>, names: seq<string>)
    requires AllRoutes(regs) && AreNames(names) && First(regs, Literals(names)) < |regs|
    ensures WellFormed(Grown(regs).nexts)
    ensures StripSlash("/" + PathOf(names)) == PathOf(names) && StripSlash(PathOf(names)) == PathOf(names)
    ensures var w := Walk(Grown(regs), PathOf(names), [], [], []);
      && w.Found? && w.handler == regs[First(regs, Literals(names))].handler
      && w.route == Literals(names) && Captured(w.vals, w.rest, w.catchAll) == names
  {
    GrownTable(regs, Literals(names));
    ParseIsDispatch(Grown(regs), PathOf(names));
    DispatchLiterals(TableOf(Grown(regs).nexts).Keys, names, [], []);
    SlashIsOptional(PathOf(names));
    if names != [] { HeadOfPath(names); }
    assert [] + names == names && [] + Literals(names) == Literals(names);
  }

  /** A path without '/' in front is answered as the same path with one. */
  lemma SlashInFront(root: Node, path: string)
    requires WellFormed(root.nexts) && path != "" && path[0] != '/'
    ensures Walk(root, StripSlash(path), [], [], []) == Walk(root, StripSlash("/" + path), [], [], []) ==
      Walk(root, path, [], [], [])
  {
    SlashIsOptional(path);
  }

  //// What the captured values spell

  function Join(vals: seq<string>): string {
    if vals == [] then "" else if |vals| == 1 then vals[0] else Join(vals[..|vals| - 1]) + "/" + vals[|vals| - 1]
  }

  function Slashes(k: nat): string {
    seq(k, _ => '/')
  }

  /** How far a walk over whole has come: it captured nothing yet, or the values and the
      remaining path spell whole, or whole is used up and empty values were added. */
  ghost predicate Spelled(whole: string, vals: seq<string>, path: string) {
    || (vals == [] && path == whole)
    || (vals != [] && whole == Join(vals) + "/" + path)
    || (vals != [] && path == "" && exists k :: Join(vals) == whole + Slashes(k))
  }

  lemma {:induction false} JoinMore(vals: seq<string>, name: string)
    ensures Join(vals + [name]) == if vals == [] then name else Join(vals) + "/" + name
  {
    assert (vals + [name])[..|vals|] == vals;
  }

  lemma {:induction false} SlashesMore(whole: string, k: nat)
    ensures whole + Slashes(k) + "/" == whole + Slashes(k + 1)
    ensures whole + Slashes(0) == whole
  {
  }

  lemma {:induction false} SpelledStep(whole: string, vals: seq<string>, path: string)
    requires Spelled(whole, vals, path)
    ensures Spelled(whole, vals + [Head(path)], Tail(path))
  {
    JoinMore(vals, Head(path));
    if IndexOf(path, '/') < |path| {
      CutAtSlash(path);
      Reslash(Join(vals), Head(path), Tail(path));
    } else {
      assert path == Head(path);
      SpelledToEnd(whole, vals, path);
    }
  }

  lemma CutAtSlash(path: string)
    requires IndexOf(path, '/') < |path|
    ensures path != "" && path == Head(path) + "/" + Tail(path)
  {
    CutAt(path, IndexOf(path, '/'), '/');
  }

  lemma CutAt(s: string, i: nat, c: char)
    requires i < |s| && s[i] == c
    ensures s == s[..i] + [c] + s[i + 1..]
  {
  }

  lemma Reslash(a: string, b: string, c: string)
    ensures a + "/" + (b + "/" + c) == (a + "/" + b) + "/" + c
  {
  }

  lemma {:induction false} SpelledToEnd(whole: string, vals: seq<string>, path: string)
    requires Spelled(whole, vals, path)
    ensures exists k :: Join(vals + [path]) == whole + Slashes(k)
  {
    JoinMore(vals, path);
    if vals != [] && path == "" && exists k :: Join(vals) == whole + Slashes(k) {
      var k: nat :| Join(vals) == whole + Slashes(k);
      SlashesMore(whole, k);
      assert Join(vals + [path]) == whole + Slashes(k + 1);
    } else {
      SlashesMore(whole, 0);
      assert Join(vals + [path]) == whole + Slashes(0);
    }
  }

  lemma {:induction false} DispatchSpells(whole: string, keys: set<Key>, path: string, route: Key, vals: seq<string>)
    requires Spelled(whole, vals, path)
    ensures var m := Dispatch(keys, path, route, vals);
      m.Match? ==> Spelled(whole, m.vals, m.rest) && (m.catchAll <==> Head(m.rest) != "")
    decreases Longest(keys)
  {
    var name := Head(path);
    SpelledStep(whole, vals, path);
    if name == "" && [] in keys {
    } else if After(keys, Lit(name)) != {} {
      AfterIsShorter(keys, Lit(name));
      DispatchSpells(whole, After(keys, Lit(name)), Tail(path), route + [Lit(name)], vals + [name]);
    } else if After(keys, Any) != {} {
      AfterIsShorter(keys, Any);
      DispatchSpells(whole, After(keys, Any), Tail(path), route + [Any], vals + [name]);
    }
  }

  /** In the catch-all case the values joined by '/' are the path itself. Otherwise they only
      add '/'s for wildcards matched to nothing, or drop a remainder "/" or "//...". Where "/"
      is the route taken there are no values, and no path is lost or found in them. */
  lemma {:induction false} CapturedSpellsPath(root: Node, path: string)
    requires WellFormed(root.nexts)
    ensures var w := Walk(root, path, [], [], []);
      w.Found? && w.vals != [] ==>
        var joined := Join(Captured(w.vals, w.rest, w.catchAll));
        if w.catchAll then joined == path
        else
          || (exists k :: joined == path + Slashes(k))
          || (path == joined + "/" + w.rest && (w.rest == "" || w.rest[0] == '/'))
    ensures var w := Walk(root, path, [], [], []);
      w.Found? && w.vals == [] ==>
        && w.route == [] && w.rest == path && Captured(w.vals, w.rest, w.catchAll) == []
        && (w.catchAll <==> path != "" && path[0] != '/')
  {
    ParseIsDispatch(root, path);
    DispatchBinds(path, TableOf(root.nexts).Keys, path, [], []);
    DispatchSpells(path, TableOf(root.nexts).Keys, path, [], []);
    var w := Walk(root, path, [], [], []);
    if w.Found? && w.vals != [] && w.catchAll {
      JoinExtended(w.vals, w.rest);
    }
  }

  lemma {:induction false} JoinExtended(vals: seq<string>, rest: string)
    requires vals != []
    ensures Join(Captured(vals, rest, true)) == Join(vals) + "/" + rest
  {
    var c := Captured(vals, rest, true);
    assert c[..|vals| - 1] == vals[..|vals| - 1];
  }

  //// What an id stands for

  /** The path after its first n segments. */
  function Drop(path: string, n: nat): string {
    if n == 0 then path else Tail(Drop(path, n - 1))
  }

  /** Segment by segment, route takes the first segments of path, binding them to vals. */
  ghost predicate Binds(path: string, route: Key, vals: seq<string>, rest: string) {
    && |route| == |vals|
    && rest == Drop(path, |vals|)
    && forall i :: 0 <= i < |vals| ==> vals[i] == Head(Drop(path, i)) && (route[i] == Any || route[i] == Lit(vals[i]))
  }

  lemma {:induction false} BindsStep(whole: string, path: string, route: Key, vals: seq<string>, seg: Seg)
    requires Binds(whole, route, vals, path) && (seg == Any || seg == Lit(Head(path)))
    ensures Binds(whole, route + [seg], vals + [Head(path)], Tail(path))
  {
    var route', vals' := route + [seg], vals + [Head(path)];
    assert Drop(whole, |vals'|) == Tail(Drop(whole, |vals|));
    forall i | 0 <= i < |vals'|
      ensures vals'[i] == Head(Drop(whole, i)) && (route'[i] == Any || route'[i] == Lit(vals'[i]))
    {
      if i < |vals| {
        assert vals'[i] == vals[i] && route'[i] == route[i];
      }
    }
  }

  lemma {:induction false} DispatchBinds(whole: string, keys: set<Key>, path: string, route: Key, vals: seq<string>)
    requires Binds(whole, route, vals, path)
    ensures var m := Dispatch(keys, path, route, vals);
      m.Match? ==> Binds(whole, m.route, m.vals, m.rest)
    decreases Longest(keys)
  {
    var name := Head(path);
    if name == "" && [] in keys {
    } else if After(keys, Lit(name)) != {} {
      AfterIsShorter(keys, Lit(name));
      BindsStep(whole, path, route, vals, Lit(name));
      DispatchBinds(whole, After(keys, Lit(name)), Tail(path), route + [Lit(name)], vals + [name]);
    } else if After(keys, Any) != {} {
      AfterIsShorter(keys, Any);
      BindsStep(whole, path, route, vals, Any);
      DispatchBinds(whole, After(keys, Any), Tail(path), route + [Any], vals + [name]);
    }
  }

  /** `get_param(id)` finds nothing unless the matched route publishes id; then it is the
      text bound by the first segment, literal or wildcard, published under id, extended by
      all the rest of the path when that segment is last and the catch-all applies. */
  lemma {:induction false} ParamIsFirstSegment(root: Node, path: string, id: string)
    requires WellFormed(root.nexts)
    ensures var w := Walk(root, path, [], [], []);
      w.Found? ==>
        var p := GetParam(Captured(w.vals, w.rest, w.catchAll), IdIndex(w.ids), id);
        && |w.ids| == |w.vals| && Binds(path, w.route, w.vals, w.rest)
        && (p.None? <==> id == "" || id !in w.ids)
        && forall i :: 0 <= i < |w.ids| && id != "" && w.ids[i] == id && id !in w.ids[..i] ==>
             p == Some(if w.catchAll && i == |w.vals| - 1 then w.vals[i] + "/" + w.rest else w.vals[i])
  {
    WalkBinds(root, path);
    var w := Walk(root, path, [], [], []);
    if w.Found? {
      forall i | 0 <= i < |w.ids| && id != "" && w.ids[i] == id && id !in w.ids[..i]
        ensures GetParam(Captured(w.vals, w.rest, w.catchAll), IdIndex(w.ids), id) ==
          Some(if w.catchAll && i == |w.vals| - 1 then w.vals[i] + "/" + w.rest else w.vals[i])
      {
        ParamAt(w.ids, w.vals, w.rest, w.catchAll, id, i);
      }
    }
  }

  /** No literal below carries an id. */
  ghost predicate PlainLiterals(ns: seq<Node>) {
    forall i :: 0 <= i < |ns| ==> (ns[i].rule.FixedString? ==> ns[i].id == "") && PlainLiterals(ns[i].nexts)
  }

  lemma {:induction false} AddKeepsLiteralsPlain(n: Node, chain: Chain, h: Handler)
    requires PlainLiterals(n.nexts) && IsChain(chain) && IdsOnWildcards(chain)
    ensures PlainLiterals(AddTo(n, chain, h).1.nexts)
    ensures AddTo(n, chain, h).1.rule == n.rule && AddTo(n, chain, h).1.id == n.id
    decreases |chain|
  {
    var c := chain[0];
    var i := Index(n.nexts, LinkLabel(c));
    if !c.empty {
      AddKeepsLiteralsPlain(if i < |n.nexts| then n.nexts[i] else NewNode(c), chain[1..], h);
    }
  }

  lemma {:induction false} GrownLiteralsArePlain(regs: seq<Registration>)
    requires AllRoutes(regs) && forall r :: r in regs ==> IdsOnWildcards(r.chain)
    ensures PlainLiterals(Grown(regs).nexts)
  {
    if regs != [] {
      var r := regs[|regs| - 1];
      GrownLiteralsArePlain(regs[..|regs| - 1]);
      AddKeepsLiteralsPlain(Grown(regs[..|regs| - 1]), r.chain, r.handler);
    }
  }

  lemma {:induction false} IdIsOnWildcard(ns: seq<Node>, key: Key, i: nat)
    requires PlainLiterals(ns) && Lookup(ns, key).Some? && i < |key|
    requires Lookup(ns, key).value.ids[i] != ""
    ensures key[i] == Any
    decreases i
  {
    if i > 0 {
      IdIsOnWildcard(ns[Index(ns, key[0])].nexts, key[1..], i - 1);
    }
  }

  /** When all routes come from texts, the segment that `get_param` answers for is a wildcard. */
  lemma {:induction false} ParamIsFirstWildcard(regs: seq<Registration>, path: string, id: string, i: nat)
    requires AllRoutes(regs) && forall r :: r in regs ==> IdsOnWildcards(r.chain)
    ensures WellFormed(Grown(regs).nexts)
    ensures var w := Walk(Grown(regs), path, [], [], []);
      w.Found? && i < |w.ids| && id != "" && w.ids[i] == id && id !in w.ids[..i] ==>
        && i < |w.route| && w.route[i] == Any && i < |w.vals| && w.vals[i] == Head(Drop(path, i))
        && GetParam(Captured(w.vals, w.rest, w.catchAll), IdIndex(w.ids), id) ==
           Some(if w.catchAll && i == |w.vals| - 1 then w.vals[i] + "/" + w.rest else w.vals[i])
  {
    GrownTable(regs, []);
    GrownLiteralsArePlain(regs);
    var root := Grown(regs);
    WalkBinds(root, path);
    ParamIsFirstSegment(root, path, id);
    var w := Walk(root, path, [], [], []);
    if w.Found? && i < |w.ids| && w.ids[i] != "" {
      IdIsOnWildcard(root.nexts, w.route, i);
    }
  }

  lemma {:induction false} ParamAt(ids: seq<string>, vals: seq<string>, rest: string, catchAll: bool, id: string, i: nat)
    requires |ids| == |vals| && i < |ids| && id != "" && ids[i] == id && id !in ids[..i]
    ensures GetParam(Captured(vals, rest, catchAll), IdIndex(ids), id) ==
      Some(if catchAll && i == |vals| - 1 then vals[i] + "/" + rest else vals[i])
  {
    FirstIdIndex(ids, id, i);
  }

  lemma {:induction false} FirstIdIndex(ids: seq<string>, id: string, i: nat)
    requires i < |ids| && id != "" && ids[i] == id && id !in ids[..i]
    ensures IdIndex(ids)[id] == i
  {
    var j := IdIndex(ids)[id];
    assert forall n :: 0 <= n < j ==> ids[..j][n] == ids[n];
    assert forall n :: 0 <= n < i ==> ids[..i][n] == ids[n];
  }

  lemma {:induction false} WalkBinds(root: Node, path: string)
    requires WellFormed(root.nexts)
    ensures var w := Walk(root, path, [], [], []);
      w.Found? ==>
        && Binds(path, w.route, w.vals, w.rest)
        && Lookup(root.nexts, w.route) == Some(Entry(w.handler, w.ids)) && |w.ids| == |w.vals|
  {
    ParseIsDispatch(root, path);
    DispatchBinds(path, TableOf(root.nexts).Keys, path, [], []);
    var w := Walk(root, path, [], [], []);
    if w.Found? {
      InTable(root.nexts, w.route);
    }
  }
}
