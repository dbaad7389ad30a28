/** The route trie: `StateTree` with `add_new_handler` and `parseURL`. */
module RouteTree {
  import opened Text
  import opened Routes

  datatype Rule = FixedString | MatchAny

  /** A node of the trie; children are held by value, in a vector. */
  datatype Node = Node(rule: Rule, dataStr: string, handler: Option<Handler>, id: string, nexts: seq<Node>)

  /** One link of a user-built chain; `empty` marks the last link. */
  datatype StateNode = StateNode(rule: Rule, dataStr: string, empty: bool, id: string)

  type Chain = seq<StateNode>

  datatype AddResult =
    | Success | NoHandler | ConflictHandler | EmptyNodeName
    | ContinueSearch | NextNode | PushToNexts  // used while scanning, never returned

  datatype ParseResult = OK | EmptyURL | Node404

  const EMPTY_ROOT := Node(FixedString, "/", None, "", [])

  /** A chain as the builders leave it: exactly the last link is empty. */
  predicate IsChain(chain: Chain) {
    && chain != []
    && forall i :: 0 <= i < |chain| ==> (chain[i].empty <==> i == |chain| - 1)
  }

  /** A chain that names a route: no empty literal inside, and the end link as the builders
      leave it. Any other link may carry an id. */
  predicate IsRoute(chain: Chain) {
    && IsChain(chain)
    && chain[|chain| - 1] == StateNode(FixedString, "", true, "")
    && forall i :: 0 <= i < |chain| - 1 ==> chain[i].rule.FixedString? ==> chain[i].dataStr != ""
  }

  /** Ids on wildcards only: what parsing a route text yields. */
  predicate IdsOnWildcards(chain: Chain) {
    forall i :: 0 <= i < |chain| ==> chain[i].rule.FixedString? ==> chain[i].id == ""
  }

  function LinkLabel(c: StateNode): Seg {
    if c.rule.MatchAny? then Any else Lit(c.dataStr)
  }

  function Label(n: Node): Seg {
    if n.rule.MatchAny? then Any else Lit(n.dataStr)
  }

  function KeyOf(chain: Chain): (k: Key)
    requires chain != []
    ensures |k| == |chain| - 1
  {
    if |chain| == 1 then [] else [LinkLabel(chain[0])] + KeyOf(chain[1..])
  }

  function IdsOf(chain: Chain): (ids: seq<string>)
    requires chain != []
    ensures |ids| == |chain| - 1
  {
    if |chain| == 1 then [] else [chain[0].id] + IdsOf(chain[1..])
  }

  /** The first child with the given label, or |ns|. */
  function Index(ns: seq<Node>, seg: Seg): (i: nat)
    ensures i <= |ns|
    ensures i < |ns| ==> Label(ns[i]) == seg
    ensures forall j :: 0 <= j < i ==> Label(ns[j]) != seg
  {
    if ns == [] || Label(ns[0]) == seg then 0 else 1 + Index(ns[1..], seg)
  }

  /** The trie invariant below a node. Siblings are told apart by their labels, so there is
      at most one wildcard; a node has a handler iff it is a leaf iff it is the literal "". */
  ghost predicate WellFormed(ns: seq<Node>) {
    && (forall i, j :: 0 <= i < j < |ns| ==> Label(ns[i]) != Label(ns[j]))
    && forall i :: 0 <= i < |ns| ==>
         && (ns[i].nexts == [] <==> Label(ns[i]) == Lit(""))
         && (ns[i].handler.Some? <==> Label(ns[i]) == Lit(""))
         && (Label(ns[i]) == Lit("") ==> ns[i].id == "")
         && WellFormed(ns[i].nexts)
  }

  /** The route table a trie stands for, entry by entry ... */
  ghost function Lookup(ns: seq<Node>, key: Key): (e: Option<Entry>)
    ensures e.Some? ==> |e.value.ids| == |key|
    decreases |key|
  {
    var i := Index(ns, if key == [] then Lit("") else key[0]);
    if i == |ns| then None
    else if key == [] then
      if ns[i].handler.Some? then Some(Entry(ns[i].handler.value, [])) else None
    else
      Below(ns[i].id, Lookup(ns[i].nexts, key[1..]))
  }

  /** An entry found below a node, seen from above that node. */
  ghost function Below(id: string, e: Option<Entry>): Option<Entry> {
    if e.Some? then Some(Entry(e.value.handler, [id] + e.value.ids)) else None
  }

  /** ... its keys ... */
  ghost function Keys(ns: seq<Node>): set<Key> {
    set i, k | 0 <= i < |ns| && k in KeysThrough(ns[i]) :: k
  }

  ghost function KeysThrough(n: Node): set<Key> {
    if Label(n) == Lit("") then {[]} else set k | k in Keys(n.nexts) :: [Label(n)] + k
  }

  /** ... and the whole table. */
  ghost function TableOf(ns: seq<Node>): (t: Table)
    ensures forall k :: k in t ==> |t[k].ids| == |k|
  {
    map k | k in Keys(ns) && Lookup(ns, k).Some? :: Lookup(ns, k).value
  }

  lemma {:induction false} KeysAreLookups(ns: seq<Node>, key: Key)
    requires WellFormed(ns)
    ensures key in Keys(ns) <==> Lookup(ns, key).Some?
    decreases |key|
  {
    var seg := if key == [] then Lit("") else key[0];
    var i := Index(ns, seg);
    if i < |ns| && key != [] {
      KeysAreLookups(ns[i].nexts, key[1..]);
      assert key == [seg] + key[1..];
    }
    forall j | 0 <= j < |ns| && key in KeysThrough(ns[j])
      ensures j == i && (key == [] || (key[0] != Lit("") && key[1..] in Keys(ns[j].nexts)))
    {
      if Label(ns[j]) != Lit("") {
        var k :| k in Keys(ns[j].nexts) && key == [Label(ns[j])] + k;
        assert key[1..] == k;
      }
    }
    if Lookup(ns, key).Some? {
      assert key in KeysThrough(ns[i]);
    }
  }

  //// Growing the trie

  /** The node `add_new_handler` makes for a link it found no child for. */
  function NewNode(c: StateNode): Node {
    Node(c.rule, if c.rule.MatchAny? then "" else c.dataStr, None, c.id, [])
  }

  /** Adding a chain below node n: the result and the new n, on every chain and every tree. */
  function AddTo(n: Node, chain: Chain, h: Handler): (AddResult, Node)
    requires IsChain(chain)
    decreases |chain|
  {
    var c := chain[0];
    var i := Index(n.nexts, LinkLabel(c));
    if i < |n.nexts| then
      var m := n.nexts[i];
      if !c.empty then
        var (r, m') := AddTo(m, chain[1..], h);
        (r, n.(nexts := n.nexts[i := m']))
      else if c.rule.MatchAny? && m.handler.None? then
        (Success, n.(nexts := n.nexts[i := m.(handler := Some(h))]))
      else
        (ConflictHandler, n)
    else if c.empty then
      (Success, n.(nexts := n.nexts + [NewNode(c).(handler := Some(h))]))
    else if LinkLabel(c) == Lit("") then
      (EmptyNodeName, n)
    else
      var (r, m) := AddTo(NewNode(c), chain[1..], h);
      (r, n.(nexts := n.nexts + [m]))
  }

  //// Pointers into the tree: the child indices to follow from the root

  type Path = seq<nat>

  predicate IsPath(n: Node, p: Path)
    decreases |p|
  {
    p == [] || (p[0] < |n.nexts| && IsPath(n.nexts[p[0]], p[1..]))
  }

  function At(n: Node, p: Path): Node
    requires IsPath(n, p)
    decreases |p|
  {
    if p == [] then n else At(n.nexts[p[0]], p[1..])
  }

  function Put(n: Node, p: Path, m: Node): Node
    requires IsPath(n, p)
    decreases |p|
  {
    if p == [] then m else n.(nexts := n.nexts[p[0] := Put(n.nexts[p[0]], p[1..], m)])
  }

  lemma {:induction false} PutTwice(n: Node, p: Path, m: Node, m': Node)
    requires IsPath(n, p)
    ensures IsPath(Put(n, p, m), p)
    ensures At(Put(n, p, m), p) == m
    ensures Put(n, p, At(n, p)) == n
    ensures Put(Put(n, p, m), p, m') == Put(n, p, m')
    decreases |p|
  {
    if p != [] {
      PutTwice(n.nexts[p[0]], p[1..], m, m');
    }
  }

  lemma {:induction false} PutChild(n: Node, p: Path, i: nat, m: Node)
    requires IsPath(n, p) && i < |At(n, p).nexts|
    ensures IsPath(n, p + [i])
    ensures At(n, p + [i]) == At(n, p).nexts[i]
    ensures Put(n, p + [i], m) == Put(n, p, At(n, p).(nexts := At(n, p).nexts[i := m]))
    decreases |p|
  {
    if p != [] {
      PutChild(n.nexts[p[0]], p[1..], i, m);
      assert (p + [i])[1..] == p[1..] + [i];
    }
  }

  /** Where a run of `add_new_handler` stands: done is what the whole call must produce. */
  ghost predicate Continues(root: Node, p: Path, chain: Chain, h: Handler, done: (AddResult, Node)) {
    && IsChain(chain)
    && IsPath(root, p)
    && done == (AddTo(At(root, p), chain, h).0, Put(root, p, AddTo(At(root, p), chain, h).1))
  }

  lemma StepDown(root: Node, p: Path, i: nat, chain: Chain, h: Handler, done: (AddResult, Node))
    requires Continues(root, p, chain, h, done)
    requires !chain[0].empty && i < |At(root, p).nexts| && i == Index(At(root, p).nexts, LinkLabel(chain[0]))
    ensures Continues(root, p + [i], chain[1..], h, done)
  {
    PutChild(root, p, i, AddTo(At(root, p).nexts[i], chain[1..], h).1);
  }

  lemma StepNew(root: Node, p: Path, chain: Chain, h: Handler, done: (AddResult, Node))
    requires Continues(root, p, chain, h, done)
    requires !chain[0].empty && LinkLabel(chain[0]) != Lit("")
    requires Index(At(root, p).nexts, LinkLabel(chain[0])) == |At(root, p).nexts|
    ensures var n := At(root, p);
      Continues(Put(root, p, n.(nexts := n.nexts + [NewNode(chain[0])])), p + [|n.nexts|], chain[1..], h, done)
  {
    var n := At(root, p);
    var pushed := n.(nexts := n.nexts + [NewNode(chain[0])]);
    var root' := Put(root, p, pushed);
    var m := AddTo(NewNode(chain[0]), chain[1..], h).1;
    PutTwice(root, p, pushed, n.(nexts := n.nexts + [m]));
    PutChild(root', p, |n.nexts|, m);
    assert pushed.nexts[|n.nexts| := m] == n.nexts + [m];
  }

  lemma StepTakeHandler(root: Node, p: Path, i: nat, chain: Chain, h: Handler, done: (AddResult, Node))
    requires Continues(root, p, chain, h, done)
    requires chain[0].empty && chain[0].rule.MatchAny?
    requires i < |At(root, p).nexts| && i == Index(At(root, p).nexts, LinkLabel(chain[0]))
    requires At(root, p).nexts[i].handler.None?
    ensures IsPath(root, p + [i])
    ensures done == (Success, Put(root, p + [i], At(root, p).nexts[i].(handler := Some(h))))
  {
    PutChild(root, p, i, At(root, p).nexts[i].(handler := Some(h)));
  }

  lemma StepStop(root: Node, p: Path, chain: Chain, h: Handler, done: (AddResult, Node))
    requires Continues(root, p, chain, h, done)
    requires AddTo(At(root, p), chain, h).1 == At(root, p)
    ensures done == (AddTo(At(root, p), chain, h).0, root)
  {
    PutTwice(root, p, At(root, p), At(root, p));
  }

  //// Walking the trie

  datatype Walked =
    | Lost
    | Found(handler: Handler, route: Key, ids: seq<string>, vals: seq<string>, rest: string, catchAll: bool)

  function StripSlash(path: string): string {
    if path != "" && path[0] == '/' then path[1..] else path
  }

  /** One '/' in front is dropped, whatever follows it, and nothing else. */
  lemma SlashIsOptional(s: string)
    ensures StripSlash("/" + s) == s
    ensures s == "" || s[0] != '/' ==> StripSlash(s) == s
  {
    assert ("/" + s)[1..] == s;
  }

  /** The walk of `parseURL` below node n, with what it has collected so far. */
  ghost function Walk(n: Node, path: string, route: Key, vals: seq<string>, ids: seq<string>): Walked
    requires WellFormed(n.nexts)
    decreases n
  {
    var name := Head(path);
    var i, any := Index(n.nexts, Lit(name)), Index(n.nexts, Any);
    if i < |n.nexts| && n.nexts[i].nexts == [] then
      Found(n.nexts[i].handler.value, route, ids, vals, path, false)
    else if i < |n.nexts| then
      Walk(n.nexts[i], Tail(path), route + [Lit(name)], vals + [name], ids + [n.nexts[i].id])
    else if any < |n.nexts| then
      Walk(n.nexts[any], Tail(path), route + [Any], vals + [name], ids + [n.nexts[any].id])
    else if |n.nexts| == 1 && n.nexts[0].nexts == [] then
      Found(n.nexts[0].handler.value, route, ids, vals, path, true)
    else
      Lost
  }

  /** Where a run of `parseURL` stands: goal is what the whole call must find. */
  ghost predicate Walking(
    goal: Walked, n: Node, path: string, route: Key, vals: seq<string>, ids: seq<string>, mapper: map<string, nat>)
  {
    && WellFormed(n.nexts)
    && |vals| == |ids| && mapper == IdIndex(ids)
    && goal == Walk(n, path, route, vals, ids)
  }

  lemma OnlyIndex(ns: seq<Node>, i: nat)
    requires WellFormed(ns) && i < |ns|
    ensures i == Index(ns, Label(ns[i]))
  {
  }

  /** `emplace` of an id: the first segment that published it keeps it. */
  function Publish(m: map<string, nat>, id: string, at: nat): map<string, nat> {
    if id == "" || id in m then m else m[id := at]
  }

  /** `HandlerContext::get_param`. */
  function GetParam(vals: seq<string>, mapper: map<string, nat>, id: string): Option<string> {
    if id in mapper && mapper[id] < |vals| then Some(vals[mapper[id]]) else None
  }

  lemma PublishIsNext(ids: seq<string>, id: string)
    ensures Publish(IdIndex(ids), id, |ids|) == IdIndex(ids + [id])
  {
    assert (ids + [id])[..|ids|] == ids;
  }

  class StateTree {
    var root: Node

    ghost predicate Valid()
      reads this
    {
      WellFormed(root.nexts)
    }

    ghost function Routes(): Table
      reads this
    {
      TableOf(root.nexts)
    }

    constructor ()
      ensures root == EMPTY_ROOT && Valid()
    {
      root := EMPTY_ROOT;
    }

    method ClearTree()
      modifies this
      ensures root == EMPTY_ROOT && Valid()
    {
      root := EMPTY_ROOT;
    }

    method AddNewHandler(tree: Chain, handler: Option<Handler>) returns (r: AddResult)
      requires IsChain(tree)
      modifies this
      ensures handler.None? ==> r == NoHandler && root == old(root)
      ensures handler.Some? ==> (r, root) == AddTo(old(root), tree, handler.value)
    {
      if handler.None? { return NoHandler; }
      var current: Path, p := [], 0;
      ghost var done := AddTo(root, tree, handler.value);
      while true
        invariant p < |tree| && Continues(root, current, tree[p..], handler.value, done)
        decreases |tree| - p
      {
        var pnode := tree[p];
        var nexts := At(root, current).nexts;
        var ret := PushToNexts;
        var i := 0;
        while i < |nexts|
          invariant i <= |nexts| && (ret == PushToNexts || ret == ContinueSearch)
          invariant forall j :: 0 <= j < i ==> Label(nexts[j]) != LinkLabel(pnode)
        {
          ret := ContinueSearch;
          if nexts[i].rule.MatchAny? {
            if pnode.rule.MatchAny? {
              if pnode.empty {
                if nexts[i].handler.Some? {
                  StepStop(root, current, tree[p..], handler.value, done);
                  return ConflictHandler;
                }
                StepTakeHandler(root, current, i, tree[p..], handler.value, done);
                root := Put(root, current + [i], nexts[i].(handler := handler));
                return Success;
              }
              ret := NextNode;
            }
          } else if pnode.rule.MatchAny? {
            ret := PushToNexts;
          } else if nexts[i].dataStr == pnode.dataStr {
            if pnode.empty {
              StepStop(root, current, tree[p..], handler.value, done);
              return ConflictHandler;
            }
            ret := NextNode;
          }
          if ret == NextNode { break; }
          i := i + 1;
        }
        if ret == NextNode {
          StepDown(root, current, i, tree[p..], handler.value, done);
          current, p := current + [i], p + 1;
        } else {
          var node := NewNode(pnode);
          var here := At(root, current);
          if pnode.empty {
            root := Put(root, current, here.(nexts := nexts + [node.(handler := handler)]));
            return Success;
          }
          if !pnode.rule.MatchAny? && pnode.dataStr == "" {
            StepStop(root, current, tree[p..], handler.value, done);
            return EmptyNodeName;
          }
          StepNew(root, current, tree[p..], handler.value, done);
          root := Put(root, current, here.(nexts := nexts + [node]));
          current, p := current + [|nexts|], p + 1;
        }
      }
    }

    method ParseURL(path: string) returns (r: ParseResult, fn: Option<Handler>, vals: seq<string>, mapper: map<string, nat>)
      requires Valid()
      ensures path == "" ==> r == EmptyURL
      ensures path != "" ==>
                var w := Walk(root, StripSlash(path), [], [], []);
                if w.Found? then
                  && r == OK && fn == Some(w.handler)
                  && vals == Captured(w.vals, w.rest, w.catchAll) && mapper == IdIndex(w.ids)
                else r == Node404
    {
      fn, vals, mapper := None, [], map[];
      if path == "" { return EmptyURL, fn, vals, mapper; }
      var mainPath := StripSlash(path);
      var current := root;
      ghost var goal := Walk(root, mainPath, [], [], []);
      ghost var route: Key, ids := [], [];
      while true
        invariant Walking(goal, current, mainPath, route, vals, ids, mapper)
        decreases current
      {
        var name := Head(mainPath);
        var nexts := current.nexts;
        var literal, matchAny, noChild := ScanSiblings(nexts, name);
        if literal.Some? {
          mapper := Publish(mapper, literal.value.id, |vals|);
          if literal.value.nexts == [] {
            return if literal.value.handler.Some? then OK else Node404, literal.value.handler, vals, mapper;
          }
          current := literal.value;
        } else if matchAny.Some? {
          mapper := Publish(mapper, matchAny.value.id, |vals|);
          current := matchAny.value;
        } else if noChild && |nexts| == 1 {
          if |vals| >= 1 {
            vals := vals[|vals| - 1 := vals[|vals| - 1] + "/" + mainPath];
          }
          return if nexts[0].handler.Some? then OK else Node404, nexts[0].handler, vals, mapper;
        } else {
          return Node404, fn, vals, mapper;
        }
        PublishIsNext(ids, current.id);
        route, ids := route + [Label(current)], ids + [current.id];
        vals := vals + [name];
        mainPath := Tail(mainPath);
      }
    }

    /** The scan over the children of the current node: the child whose literal is name, the
        wildcard child met so far, and whether no child met so far has children. A childless
        literal ends the scan. */
    static method ScanSiblings(nexts: seq<Node>, name: string)
      returns (literal: Option<Node>, matchAny: Option<Node>, noChild: bool)
      requires WellFormed(nexts)
      ensures var i := Index(nexts, Lit(name));
        literal == (if i < |nexts| then Some(nexts[i]) else None)
      ensures literal.None? ==>
        && (var i := Index(nexts, Any); matchAny == if i < |nexts| then Some(nexts[i]) else None)
        && (noChild <==> forall j :: 0 <= j < |nexts| ==> nexts[j].nexts == [])
    {
      literal, matchAny, noChild := None, None, true;
      for i := 0 to |nexts|
        invariant noChild <==> forall j :: 0 <= j < i ==> nexts[j].nexts == []
        invariant var k := Index(nexts, Any); matchAny == if k < i then Some(nexts[k]) else None
        invariant var k := Index(nexts, Lit(name)); literal == if k < i then Some(nexts[k]) else None
      {
        var n := nexts[i];
        OnlyIndex(nexts, i);
        if noChild && n.nexts != [] { noChild := false; }
        if n.rule.MatchAny? {
          matchAny := Some(n);
        } else if n.dataStr == name {
          literal := Some(n);
          if n.nexts == [] { return; }
        }
      }
    }
  }
}
