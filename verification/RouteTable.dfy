/** Registering a route, seen on the table of routes. */
module RouteTable {
  import opened Text
  import opened Routes
  import opened RouteTree

  /** The ids found along a chain: those of existing nodes first, then the chain's own. */
  ghost function NodeIds(ns: seq<Node>, chain: Chain): (ids: seq<string>)
    requires chain != []
    ensures |ids| == |chain| - 1
    decreases |chain|
  {
    if |chain| == 1 then [] else
    var i := Index(ns, LinkLabel(chain[0]));
    if i == |ns| then IdsOf(chain) else [ns[i].id] + NodeIds(ns[i].nexts, chain[1..])
  }

  lemma {:induction false} AddKeepsWellFormed(n: Node, chain: Chain, h: Handler)
    requires WellFormed(n.nexts) && IsRoute(chain)
    ensures var (r, n') := AddTo(n, chain, h);
      WellFormed(n'.nexts) && n'.nexts != [] && n' == n.(nexts := n'.nexts)
    decreases |chain|
  {
    var c := chain[0];
    var i := Index(n.nexts, LinkLabel(c));
    if |chain| > 1 {
      var m := if i < |n.nexts| then n.nexts[i] else NewNode(c);
      AddKeepsWellFormed(m, chain[1..], h);
      var m' := AddTo(m, chain[1..], h).1;
      if i < |n.nexts| {
        PutKeepsWellFormed(n.nexts, i, m');
      } else {
        PushKeepsWellFormed(n.nexts, m');
      }
    } else if i == |n.nexts| {
      PushKeepsWellFormed(n.nexts, NewNode(c).(handler := Some(h)));
    }
  }

  ghost predicate WellFormedNode(m: Node) {
    && (m.nexts == [] <==> Label(m) == Lit(""))
    && (m.handler.Some? <==> Label(m) == Lit(""))
    && (Label(m) == Lit("") ==> m.id == "")
    && WellFormed(m.nexts)
  }

  lemma {:induction false} PutKeepsWellFormed(ns: seq<Node>, i: nat, m: Node)
    requires WellFormed(ns) && i < |ns| && Label(m) == Label(ns[i]) && WellFormedNode(m)
    ensures WellFormed(ns[i := m])
  {
  }

  lemma {:induction false} PushKeepsWellFormed(ns: seq<Node>, m: Node)
    requires WellFormed(ns) && Index(ns, Label(m)) == |ns| && WellFormedNode(m)
    ensures WellFormed(ns + [m])
  {
  }

  /** Replacing a child by one with its label, or adding a child with a new label, moves no
      other child ... */
  lemma IndexAfterPut(ns: seq<Node>, i: nat, m: Node, seg: Seg)
    requires i < |ns| && Label(m) == Label(ns[i])
    ensures Index(ns[i := m], seg) == Index(ns, seg)
  {
    var ns' := ns[i := m];
    assert forall j :: 0 <= j < |ns| ==> Label(ns'[j]) == Label(ns[j]);
  }

  lemma IndexAfterPush(ns: seq<Node>, m: Node, seg: Seg)
    requires Index(ns, Label(m)) == |ns|
    ensures Index(ns + [m], seg) ==
      if Label(m) == seg then |ns| else if Index(ns, seg) == |ns| then |ns| + 1 else Index(ns, seg)
  {
    var ns' := ns + [m];
    var i := Index(ns, seg);
    assert forall j :: 0 <= j < |ns| ==> Label(ns'[j]) == Label(ns[j]);
    assert Label(ns'[|ns|]) == Label(m);
    assert i < |ns| ==> Label(ns'[i]) == seg;
  }

  /** ... so it changes the table only for keys through that child. */
  lemma LookupAfterPut(ns: seq<Node>, i: nat, m: Node, k: Key)
    requires i < |ns| && Index(ns, Label(m)) == i && m.id == ns[i].id && Label(m) != Lit("")
    ensures Lookup(ns[i := m], k) ==
      if k != [] && k[0] == Label(m) then Below(m.id, Lookup(m.nexts, k[1..])) else Lookup(ns, k)
  {
    IndexAfterPut(ns, i, m, if k == [] then Lit("") else k[0]);
  }

  lemma LookupAfterPush(ns: seq<Node>, m: Node, k: Key)
    requires Index(ns, Label(m)) == |ns| && Label(m) != Lit("")
    ensures Lookup(ns + [m], k) ==
      if k != [] && k[0] == Label(m) then Below(m.id, Lookup(m.nexts, k[1..])) else Lookup(ns, k)
  {
    IndexAfterPush(ns, m, if k == [] then Lit("") else k[0]);
  }

  /** What registering chain below n does to key k of the table. */
  ghost predicate Registers(n: Node, chain: Chain, h: Handler, k: Key)
    requires IsRoute(chain)
  {
    var (r, n') := AddTo(n, chain, h);
    if Lookup(n.nexts, KeyOf(chain)).Some? then
      r == ConflictHandler && n' == n
    else
      r == Success && Lookup(n'.nexts, k) ==
        if k == KeyOf(chain) then Some(Entry(h, NodeIds(n.nexts, chain))) else Lookup(n.nexts, k)
  }

  lemma {:induction false} AddLookup(n: Node, chain: Chain, h: Handler, k: Key)
    requires WellFormed(n.nexts) && IsRoute(chain)
    ensures Registers(n, chain, h, k)
    decreases |chain|
  {
    if |chain| > 1 {
      var i := Index(n.nexts, LinkLabel(chain[0]));
      var m := if i < |n.nexts| then n.nexts[i] else NewNode(chain[0]);
      AddLookup(m, chain[1..], h, if k == [] then [] else k[1..]);
      AddLookupUp(n, chain, h, k);
    } else {
      AddLookupLast(n, chain, h, k);
    }
  }

  lemma {:induction false} AddLookupUp(n: Node, chain: Chain, h: Handler, k: Key)
    requires WellFormed(n.nexts) && IsRoute(chain) && |chain| > 1
    requires var i := Index(n.nexts, LinkLabel(chain[0]));
      Registers(if i < |n.nexts| then n.nexts[i] else NewNode(chain[0]), chain[1..], h, if k == [] then [] else k[1..])
    ensures Registers(n, chain, h, k)
  {
    AddLookupBelow(n, chain, h, k);
    assert KeyOf(chain) == [LinkLabel(chain[0])] + KeyOf(chain[1..]);
    assert k != [] ==> k == [k[0]] + k[1..];
    if Index(n.nexts, LinkLabel(chain[0])) == |n.nexts| {
      NewBranchIds(chain);
    }
  }

  lemma {:induction false} AddLookupLast(n: Node, chain: Chain, h: Handler, k: Key)
    requires WellFormed(n.nexts) && IsRoute(chain) && |chain| == 1
    ensures Registers(n, chain, h, k)
  {
    if Index(n.nexts, Lit("")) == |n.nexts| {
      IndexAfterPush(n.nexts, NewNode(chain[0]).(handler := Some(h)), if k == [] then Lit("") else k[0]);
    }
  }

  lemma {:induction false} AddLookupBelow(n: Node, chain: Chain, h: Handler, k: Key)
    requires WellFormed(n.nexts) && IsRoute(chain) && |chain| > 1
    ensures var (i, (r, n')) := (Index(n.nexts, LinkLabel(chain[0])), AddTo(n, chain, h));
      var m := if i < |n.nexts| then n.nexts[i] else NewNode(chain[0]);
      && r == AddTo(m, chain[1..], h).0
      && Lookup(n'.nexts, k) ==
         if k != [] && k[0] == LinkLabel(chain[0]) then Below(m.id, Lookup(AddTo(m, chain[1..], h).1.nexts, k[1..]))
         else Lookup(n.nexts, k)
  {
    var i := Index(n.nexts, LinkLabel(chain[0]));
    var m := if i < |n.nexts| then n.nexts[i] else NewNode(chain[0]);
    var m' := AddTo(m, chain[1..], h).1;
    AddKeepsWellFormed(m, chain[1..], h);
    if i < |n.nexts| {
      LookupAfterPut(n.nexts, i, m', k);
    } else {
      LookupAfterPush(n.nexts, m', k);
    }
  }

  lemma {:induction false} NewBranchIds(chain: Chain)
    requires IsChain(chain) && |chain| > 1
    ensures [chain[0].id] + NodeIds([], chain[1..]) == IdsOf(chain)
  {
  }

  lemma {:induction false} SomeRoute(ns: seq<Node>) returns (k: Key)
    requires WellFormed(ns) && ns != []
    ensures Lookup(ns, k).Some?
  {
    if Label(ns[0]) == Lit("") {
      k := [];
    } else {
      var k' := SomeRoute(ns[0].nexts);
      k := [Label(ns[0])] + k';
    }
  }

  /** A route that shares a prefix with a chain shares the ids found along that prefix. */
  lemma {:induction false} SharedIds(ns: seq<Node>, chain: Chain, k: Key, i: nat)
    requires WellFormed(ns) && IsChain(chain) && Lookup(ns, k).Some?
    requires i < |k| && i < |chain| - 1 && k[..i + 1] == KeyOf(chain)[..i + 1]
    ensures Lookup(ns, k).value.ids[i] == NodeIds(ns, chain)[i]
    decreases i
  {
    assert k[0] == k[..i + 1][0] == KeyOf(chain)[0];
    if i > 0 {
      var j := Index(ns, k[0]);
      assert k[1..][..i] == k[..i + 1][1..] == KeyOf(chain)[..i + 1][1..] == KeyOf(chain[1..])[..i];
      SharedIds(ns[j].nexts, chain[1..], k[1..], i - 1);
    }
  }

  /** Where the ids are not the chain's own, some route of the table goes through. */
  lemma {:induction false} OwnIdOrShared(ns: seq<Node>, chain: Chain, i: nat) returns (k: Key)
    requires WellFormed(ns) && IsRoute(chain) && i < |chain| - 1
    ensures NodeIds(ns, chain)[i] == IdsOf(chain)[i] || (Lookup(ns, k).Some? && i < |k| && k[..i + 1] == KeyOf(chain)[..i + 1])
    decreases i
  {
    var seg := LinkLabel(chain[0]);
    var j := Index(ns, seg);
    k := [];
    if j < |ns| {
      if i == 0 {
        k := SomeRoute(ns[j].nexts);
      } else {
        k := OwnIdOrShared(ns[j].nexts, chain[1..], i - 1);
      }
      KeyUp(seg, k, KeyOf(chain[1..]), i);
      k := [seg] + k;
    }
  }

  lemma KeyUp(seg: Seg, k: Key, key: Key, i: nat)
    requires i <= |key|
    ensures ([seg] + k)[1..] == k && ([seg] + key)[..i + 1] == [seg] + key[..i]
    ensures i <= |k| ==> ([seg] + k)[..i + 1] == [seg] + k[..i]
  {
  }

  /** `add_new_handler` is insert-if-absent on the table, and keeps the trie well formed. */
  lemma {:induction false} AddRefinesInsert(n: Node, chain: Chain, h: Handler)
    requires WellFormed(n.nexts) && IsRoute(chain)
    ensures var (r, n') := AddTo(n, chain, h);
      var t, key := TableOf(n.nexts), KeyOf(chain);
      && WellFormed(n'.nexts)
      && (key in t ==> r == ConflictHandler && n' == n)
      && (key !in t ==>
            && r == Success
            && TableOf(n'.nexts) == t[key := Entry(h, NodeIds(n.nexts, chain))]
            && Inherits(t, key, IdsOf(chain), NodeIds(n.nexts, chain)))
  {
    AddKeepsWellFormed(n, chain, h);
    AddLookup(n, chain, h, []);
    InTable(n.nexts, KeyOf(chain));
    NodeIdsInherit(n.nexts, chain);
    if KeyOf(chain) !in TableOf(n.nexts) {
      TableAfterAdd(n, chain, h);
    }
  }

  lemma {:induction false} TableAfterAdd(n: Node, chain: Chain, h: Handler)
    requires WellFormed(n.nexts) && IsRoute(chain)
    requires Lookup(n.nexts, KeyOf(chain)).None?
    ensures TableOf(AddTo(n, chain, h).1.nexts) == TableOf(n.nexts)[KeyOf(chain) := Entry(h, NodeIds(n.nexts, chain))]
  {
    var n' := AddTo(n, chain, h).1;
    AddKeepsWellFormed(n, chain, h);
    forall k: Key
      ensures k in TableOf(n'.nexts) <==> k == KeyOf(chain) || k in TableOf(n.nexts)
      ensures k == KeyOf(chain) ==> TableOf(n'.nexts)[k] == Entry(h, NodeIds(n.nexts, chain))
      ensures k != KeyOf(chain) && k in TableOf(n.nexts) ==> TableOf(n'.nexts)[k] == TableOf(n.nexts)[k]
    {
      AddLookup(n, chain, h, k);
      InTable(n.nexts, k);
      InTable(n'.nexts, k);
    }
  }

  lemma {:induction false} InTable(ns: seq<Node>, k: Key)
    requires WellFormed(ns)
    ensures Lookup(ns, k) == if k in TableOf(ns) then Some(TableOf(ns)[k]) else None
  {
    KeysAreLookups(ns, k);
  }

  lemma {:induction false} NodeIdsInherit(ns: seq<Node>, chain: Chain)
    requires WellFormed(ns) && IsRoute(chain)
    ensures Inherits(TableOf(ns), KeyOf(chain), IdsOf(chain), NodeIds(ns, chain))
  {
    var t, key, ids := TableOf(ns), KeyOf(chain), NodeIds(ns, chain);
    forall i | 0 <= i < |key|
      ensures forall k :: k in t && i < |k| && k[..i + 1] == key[..i + 1] ==> t[k].ids[i] == ids[i]
      ensures (forall k :: k in t && i < |k| ==> k[..i + 1] != key[..i + 1]) ==> ids[i] == IdsOf(chain)[i]
    {
      forall k | k in t && i < |k| && k[..i + 1] == key[..i + 1]
        ensures t[k].ids[i] == ids[i]
      {
        SharedIds(ns, chain, k, i);
      }
      var k := OwnIdOrShared(ns, chain, i);
      InTable(ns, k);
    }
  }
}
