/** Registering from a text, and what hand-built chains with empty names do. */
module RouteBuilding {
  import opened Text
  import opened Routes
  import opened RouteTree
  import opened RouteTable
  import opened RouteText

  /** A location of the configuration: parse its route text, then register the chain. */
  method RegisterText(tree: StateTree, text: string, handler: Handler) returns (code: int, r: AddResult)
    requires tree.Valid() && IdsInRange(StripSlash(text))
    modifies tree
    ensures tree.Valid()
    ensures code == 0 <==> text != "" && LinksOf(StripSlash(text)).Some?
    ensures code != 0 ==> tree.root == old(tree.root)
    ensures code == 0 ==>
              var chain := LinksOf(StripSlash(text)).value + [END];
              var key := KeyOf(chain);
              if key in old(tree.Routes()) then
                r == ConflictHandler && tree.root == old(tree.root)
              else
                && r == Success && key in tree.Routes()
                && Inherits(old(tree.Routes()), key, IdsOf(chain), tree.Routes()[key].ids)
                && tree.Routes() == old(tree.Routes())[key := Entry(handler, tree.Routes()[key].ids)]
  {
    var chain;
    code, chain := ParseFromStr(text);
    if code != 0 { return code, NoHandler; }
    AddRefinesInsert(tree.root, chain, handler);
    r := tree.AddNewHandler(chain, Some(handler));
  }

  //// Chains built by hand may have empty names

  predicate IsBuilt(chain: Chain) {
    IsChain(chain) && chain[|chain| - 1] == END
  }

  predicate EmptyNameAt(chain: Chain, j: nat) {
    j < |chain| - 1 && LinkLabel(chain[j]) == Lit("")
  }

  lemma {:induction false} EmptyNameInNewBranch(n: Node, chain: Chain, h: Handler)
    requires n.nexts == [] && IsBuilt(chain)
    ensures AddTo(n, chain, h).0 == EmptyNodeName <==> exists j: nat :: EmptyNameAt(chain, j)
    decreases |chain|
  {
    if |chain| > 1 {
      EmptyNameInNewBranch(NewNode(chain[0]), chain[1..], h);
      assert forall j: nat :: EmptyNameAt(chain[1..], j) ==> EmptyNameAt(chain, j + 1);
      assert forall j: nat :: j > 0 && EmptyNameAt(chain, j) ==> EmptyNameAt(chain[1..], j - 1);
      if LinkLabel(chain[0]) == Lit("") {
        assert EmptyNameAt(chain, 0);
      }
    }
  }

  /** The header promises EmptyNodeName for a chain with an empty literal name. It is
      returned exactly when the part of the chain before its first empty name is not yet a
      route of its own, or the chain has a second empty name. */
  lemma {:induction false} EmptyNameReported(n: Node, chain: Chain, h: Handler, j: nat)
    requires WellFormed(n.nexts) && IsBuilt(chain) && EmptyNameAt(chain, j)
    requires forall i: nat :: i < j ==> !EmptyNameAt(chain, i)
    ensures AddTo(n, chain, h).0 == EmptyNodeName <==>
      Lookup(n.nexts, KeyOf(chain)[..j]).None? || exists i: nat :: i > j && EmptyNameAt(chain, i)
    decreases |chain|
  {
    var i := Index(n.nexts, LinkLabel(chain[0]));
    var m := if i < |n.nexts| then n.nexts[i] else NewNode(chain[0]);
    LaterEmptyName(chain, j);
    if j == 0 {
      assert KeyOf(chain)[..0] == [];
      if i < |n.nexts| {
        EmptyNameInNewBranch(m, chain[1..], h);
      }
    } else {
      assert !EmptyNameAt(chain, 0);
      assert forall k: nat :: EmptyNameAt(chain[1..], k) <==> EmptyNameAt(chain, k + 1);
      EmptyNameReported(m, chain[1..], h, j - 1);
      assert KeyOf(chain)[..j] == [LinkLabel(chain[0])] + KeyOf(chain[1..])[..j - 1];
      assert i == |n.nexts| ==> Lookup(m.nexts, KeyOf(chain[1..])[..j - 1]).None?;
    }
  }

  /** The names behind the first link are those of the rest of the chain. */
  lemma {:induction false} LaterEmptyName(chain: Chain, j: nat)
    requires chain != []
    ensures (exists i: nat :: i > j && EmptyNameAt(chain, i)) <==>
      if j == 0 then exists i: nat :: EmptyNameAt(chain[1..], i)
      else exists i: nat :: i > j - 1 && EmptyNameAt(chain[1..], i)
  {
    assert forall k: nat :: EmptyNameAt(chain[1..], k) ==> EmptyNameAt(chain, k + 1);
    assert forall k: nat :: k > 0 && EmptyNameAt(chain, k) ==> EmptyNameAt(chain[1..], k - 1);
  }

  /** So the promise fails on this chain: "/" is registered, and the chain "" then succeeds,
      leaving children below the node that answers "/". */
  lemma EmptyNameCanSucceed(h: Handler)
    ensures var root := AddTo(EMPTY_ROOT, [END], h).1;
      var (r, root') := AddTo(root, [StateNode(FixedString, "", false, ""), END], h);
      r == Success && WellFormed(root.nexts) && !WellFormed(root'.nexts)
  {
    var chain := [StateNode(FixedString, "", false, ""), END];
    AddEnd(EMPTY_ROOT, h);
    var root := AddTo(EMPTY_ROOT, [END], h).1;
    assert chain[1..] == [END];
    AddEnd(root.nexts[0], h);
    AddBelowFirst(root, chain, h);
    assert root.nexts[0].nexts == [] && AddTo(root, chain, h).1.nexts[0].nexts != [];
  }

  lemma AddBelowFirst(n: Node, chain: Chain, h: Handler)
    requires IsChain(chain) && |chain| > 1 && n.nexts != [] && Label(n.nexts[0]) == LinkLabel(chain[0])
    ensures AddTo(n, chain, h) ==
      (AddTo(n.nexts[0], chain[1..], h).0, n.(nexts := n.nexts[0 := AddTo(n.nexts[0], chain[1..], h).1]))
  {
    assert Index(n.nexts, LinkLabel(chain[0])) == 0;
  }

  lemma AddEnd(n: Node, h: Handler)
    requires n.nexts == []
    ensures AddTo(n, [END], h) == (Success, n.(nexts := [NewNode(END).(handler := Some(h))]))
  {
    assert [] + [NewNode(END).(handler := Some(h))] == [NewNode(END).(handler := Some(h))];
  }
}
