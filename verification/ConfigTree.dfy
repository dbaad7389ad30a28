/** `Config::analyse_words`: a stack of pointers into the tree under construction. */
module ConfigTree {
  import opened Text
  import opened ConfigText

  datatype Node = Node(name: string, values: seq<string>, children: seq<Node>)

  datatype LoadResult = OK | EOFTooEarly | WrongGrammar

  const BLANK := Node("", [], [])

  //// Pointers: the child indices to follow from the root

  type Path = seq<nat>

  predicate IsPath(n: Node, p: Path)
    decreases |p|
  {
    p == [] || (p[0] < |n.children| && IsPath(n.children[p[0]], p[1..]))
  }

  function At(n: Node, p: Path): Node
    requires IsPath(n, p)
    decreases |p|
  {
    if p == [] then n else At(n.children[p[0]], p[1..])
  }

  function Put(n: Node, p: Path, m: Node): Node
    requires IsPath(n, p)
    decreases |p|
  {
    if p == [] then m else n.(children := n.children[p[0] := Put(n.children[p[0]], p[1..], m)])
  }

  function AddChild(n: Node, c: Node): Node {
    n.(children := n.children + [c])
  }

  function DropLast(n: Node): Node {
    if n.children == [] then n else n.(children := n.children[..|n.children| - 1])
  }

  //// The open nodes: each is the last child of the one before, and not yet among its children

  /** The tree whose open nodes these are. */
  function Close(open: seq<Node>): Node
    requires open != []
  {
    if |open| == 1 then open[0] else AddChild(open[0], Close(open[1..]))
  }

  /** The pointer to the node opened after these. */
  function Spine(open: seq<Node>): Path {
    if open == [] then [] else [|open[0].children|] + Spine(open[1..])
  }

  /** The effect of one token: none if the grammar is wrong. */
  function Step(open: seq<Node>, token: string): Option<seq<Node>>
    requires |open| >= 2
    ensures Step(open, token).Some? ==> |Step(open, token).value| >= 2
  {
    var n := |open|;
    var cur, up := open[n - 1], open[n - 2];
    if token == "{" then
      if cur.name == "" then None else Some(open + [BLANK])
    else if token == "}" then
      if n == 2 then None
      else
        var block := if cur.name == "" then up else AddChild(up, cur);
        Some(open[..n - 3] + [AddChild(open[n - 3], block), BLANK])
    else if token == ";" then
      if cur.name == "" then Some(open) else Some(open[..n - 2] + [AddChild(up, cur), BLANK])
    else
      Some(open[..n - 1] + [if cur.name == "" then cur.(name := token) else cur.(values := cur.values + [token])])
  }

  function Run(open: seq<Node>, tokens: seq<string>): Option<seq<Node>>
    requires |open| >= 2
    ensures Run(open, tokens).Some? ==> |Run(open, tokens).value| >= 2
    decreases |tokens|
  {
    if tokens == [] then Some(open) else
    match Step(open, tokens[0])
    case None => None
    case Some(open') => Run(open', tokens[1..])
  }

  const FRESH_OPEN := [BLANK, BLANK]

  /** A nameless last statement of the root is dropped at the end. */
  function Finish(root: Node): Node {
    if root.children != [] && root.children[|root.children| - 1].name == "" then DropLast(root) else root
  }

  function Analyse(tokens: seq<string>): (LoadResult, Node) {
    match Run(FRESH_OPEN, tokens)
    case None => (WrongGrammar, BLANK)
    case Some(open) => (OK, Finish(Close(open)))
  }

  //// Pointers along the open nodes

  lemma {:induction false} SpineSteps(open: seq<Node>, last: Node, m: Node)
    ensures IsPath(Close(open + [last]), Spine(open))
    ensures At(Close(open + [last]), Spine(open)) == last
    ensures Put(Close(open + [last]), Spine(open), m) == Close(open + [m])
    decreases |open|
  {
    if open != [] {
      SpineSteps(open[1..], last, m);
      assert (open + [last])[1..] == open[1..] + [last];
      assert (open + [m])[1..] == open[1..] + [m];
    }
  }

  lemma {:induction false} Absorb(open: seq<Node>, a: Node, b: Node)
    ensures Close(open + [a, b]) == Close(open + [AddChild(a, b)])
    decreases |open|
  {
    if open == [] {
      assert [a, b][1..] == [b];
    } else {
      Absorb(open[1..], a, b);
      assert (open + [a, b])[1..] == open[1..] + [a, b];
      assert (open + [AddChild(a, b)])[1..] == open[1..] + [AddChild(a, b)];
    }
  }

  lemma {:induction false} SpineOfMore(open: seq<Node>, a: Node)
    ensures Spine(open + [a]) == Spine(open) + [|a.children|]
    decreases |open|
  {
    if open != [] {
      SpineOfMore(open[1..], a);
      assert (open + [a])[1..] == open[1..] + [a];
    }
  }

  /** The stack of pointers to the open nodes. */
  ghost predicate StackHolds(stack: seq<Path>, open: seq<Node>) {
    |stack| == |open| && forall i :: 0 <= i < |stack| ==> stack[i] == Spine(open[..i])
  }

  /** The tree and the stack of pointers that the code has when these nodes are open. */
  ghost predicate Holds(config: Node, stack: seq<Path>, open: seq<Node>) {
    open != [] && config == Close(open) && StackHolds(stack, open)
  }

  lemma {:induction false} TopHolds(config: Node, stack: seq<Path>, open: seq<Node>, last: Node, m: Node)
    requires Holds(config, stack, open + [last])
    ensures var top := stack[|stack| - 1];
      IsPath(config, top) && At(config, top) == last && Holds(Put(config, top, m), stack, open + [m])
  {
    SpineSteps(open, last, m);
    assert (open + [last])[..|open|] == open;
    forall i | 0 <= i < |stack| ensures stack[i] == Spine((open + [m])[..i]) {
      assert (open + [m])[..i] == (open + [last])[..i];
    }
  }

  lemma {:induction false} PushHolds(config: Node, stack: seq<Path>, open: seq<Node>, last: Node)
    requires Holds(config, stack, open + [last])
    ensures var top := stack[|stack| - 1];
      && IsPath(config, top) && At(config, top) == last
      && Holds(Put(config, top, AddChild(last, BLANK)), stack + [top + [|last.children|]], open + [last, BLANK])
  {
    TopHolds(config, stack, open, last, AddChild(last, BLANK));
    Absorb(open, last, BLANK);
    StackOfMore(stack, open, last);
  }

  lemma {:induction false} StackOfMore(stack: seq<Path>, open: seq<Node>, last: Node)
    requires StackHolds(stack, open + [last])
    ensures StackHolds(stack + [stack[|stack| - 1] + [|last.children|]], open + [last, BLANK])
  {
    var more, open' := stack[|stack| - 1] + [|last.children|], open + [last, BLANK];
    SpineOfMore(open, last);
    assert (open + [last])[..|open|] == open && open'[..|open| + 1] == open + [last];
    forall i | 0 <= i < |stack| + 1 ensures (stack + [more])[i] == Spine(open'[..i]) {
      if i <= |open| {
        assert open'[..i] == (open + [last])[..i];
      }
    }
  }

  lemma {:induction false} PopHolds(config: Node, stack: seq<Path>, open: seq<Node>, a: Node, b: Node)
    requires Holds(config, stack, open + [a, b])
    ensures Holds(config, stack[..|stack| - 1], open + [AddChild(a, b)])
  {
    Absorb(open, a, b);
    forall i | 0 <= i < |stack| - 1 ensures stack[i] == Spine((open + [AddChild(a, b)])[..i]) {
      assert (open + [AddChild(a, b)])[..i] == (open + [a, b])[..i];
    }
  }

  class Config {
    var configNodes: Node

    constructor ()
      ensures configNodes == BLANK
    {
      configNodes := BLANK;
    }

    /** Adds a blank child to the node on top, and makes it the top. */
    method PushBlank(stack: seq<Path>, ghost open: seq<Node>, ghost last: Node) returns (stack': seq<Path>)
      requires Holds(configNodes, stack, open + [last])
      modifies this
      ensures Holds(configNodes, stack', open + [last, BLANK])
    {
      PushHolds(configNodes, stack, open, last);
      var top := stack[|stack| - 1];
      var current := At(configNodes, top);
      configNodes := Put(configNodes, top, AddChild(current, BLANK));
      stack' := stack + [top + [|current.children|]];
    }

    method OpenBlock(stack: seq<Path>, ghost open: seq<Node>) returns (ok: bool, stack': seq<Path>)
      requires |open| >= 2 && Holds(configNodes, stack, open)
      modifies this
      ensures ok == Step(open, "{").Some?
      ensures ok ==> Holds(configNodes, stack', Step(open, "{").value)
    {
      ghost var xs, cur := open[..|open| - 1], open[|open| - 1];
      assert open == xs + [cur];
      TopHolds(configNodes, stack, xs, cur, cur);
      if At(configNodes, stack[|stack| - 1]).name == "" { return false, stack; }
      stack' := PushBlank(stack, xs, cur);
      assert open + [BLANK] == xs + [cur, BLANK];
      ok := true;
    }

    method EndStatement(stack: seq<Path>, ghost open: seq<Node>) returns (stack': seq<Path>)
      requires |open| >= 2 && Holds(configNodes, stack, open)
      modifies this
      ensures Holds(configNodes, stack', Step(open, ";").value)
    {
      ghost var xs, up, cur := open[..|open| - 2], open[|open| - 2], open[|open| - 1];
      assert open == xs + [up, cur] == (xs + [up]) + [cur];
      TopHolds(configNodes, stack, xs + [up], cur, cur);
      stack' := stack;
      if At(configNodes, stack[|stack| - 1]).name != "" {
        PopHolds(configNodes, stack, xs, up, cur);
        stack' := PushBlank(stack[..|stack| - 1], xs, AddChild(up, cur));
      }
    }

    /** Leaves the block; a nameless last statement is dropped from it. */
    method CloseBlock(stack: seq<Path>, ghost open: seq<Node>) returns (ok: bool, stack': seq<Path>)
      requires |open| >= 2 && Holds(configNodes, stack, open)
      modifies this
      ensures ok == Step(open, "}").Some?
      ensures ok ==> Holds(configNodes, stack', Step(open, "}").value)
    {
      ghost var xs, up, cur := open[..|open| - 2], open[|open| - 2], open[|open| - 1];
      assert open == xs + [up, cur];
      ghost var block := if cur.name == "" then up else AddChild(up, cur);
      stack' := LeaveStatement(stack, xs, up, cur);
      stack' := CloseUpper(stack', xs, block);
      ok := stack' != [];
      assert ok ==> open[..|open| - 3] == xs[..|xs| - 1] && open[|open| - 3] == xs[|xs| - 1];
    }

    /** Pops the last statement, and drops it from its block if it has no name. */
    method LeaveStatement(stack: seq<Path>, ghost xs: seq<Node>, ghost up: Node, ghost cur: Node)
      returns (stack': seq<Path>)
      requires Holds(configNodes, stack, xs + [up, cur])
      modifies this
      ensures Holds(configNodes, stack', xs + [if cur.name == "" then up else AddChild(up, cur)])
    {
      assert xs + [up, cur] == (xs + [up]) + [cur];
      TopHolds(configNodes, stack, xs + [up], cur, cur);
      var dec := At(configNodes, stack[|stack| - 1]).name == "";
      PopHolds(configNodes, stack, xs, up, cur);
      stack' := stack[..|stack| - 1];
      if dec {
        TopHolds(configNodes, stack', xs, AddChild(up, cur), up);
        var top := stack'[|stack'| - 1];
        assert DropLast(AddChild(up, cur)) == up;
        configNodes := Put(configNodes, top, DropLast(At(configNodes, top)));
      }
    }

    /** Pops the block itself and starts the next statement beside it; nothing is left of the
        stack if the block was the root. */
    method CloseUpper(stack: seq<Path>, ghost xs: seq<Node>, ghost block: Node) returns (stack': seq<Path>)
      requires Holds(configNodes, stack, xs + [block])
      modifies this
      ensures stack' == [] <==> xs == []
      ensures xs != [] ==> Holds(configNodes, stack', xs[..|xs| - 1] + [AddChild(xs[|xs| - 1], block), BLANK])
    {
      stack' := stack[..|stack| - 1];
      if stack' != [] {
        ghost var ys, g := xs[..|xs| - 1], xs[|xs| - 1];
        assert xs + [block] == ys + [g, block];
        PopHolds(configNodes, stack, ys, g, block);
        stack' := PushBlank(stack', ys, AddChild(g, block));
      }
    }

    method AddWord(stack: seq<Path>, ghost open: seq<Node>, token: string)
      requires |open| >= 2 && Holds(configNodes, stack, open)
      requires token != "{" && token != "}" && token != ";"
      modifies this
      ensures Holds(configNodes, stack, Step(open, token).value)
    {
      ghost var xs, cur := open[..|open| - 1], open[|open| - 1];
      assert open == xs + [cur];
      var top := stack[|stack| - 1];
      ghost var cur' := if cur.name == "" then cur.(name := token) else cur.(values := cur.values + [token]);
      TopHolds(configNodes, stack, xs, cur, cur');
      var current := At(configNodes, top);
      configNodes := Put(configNodes, top,
                         if current.name == "" then current.(name := token) else current.(values := current.values + [token]));
    }

    method AnalyseWords(tokens: seq<string>) returns (r: LoadResult)
      modifies this
      ensures r == Analyse(tokens).0
      ensures r == OK ==> configNodes == Analyse(tokens).1
    {
      configNodes := AddChild(BLANK, BLANK);
      var stack: seq<Path> := [[], [0]];
      ghost var open := FRESH_OPEN;
      StartHolds();
      for i := 0 to |tokens|
        invariant |open| >= 2 && Holds(configNodes, stack, open)
        invariant Run(open, tokens[i..]) == Run(FRESH_OPEN, tokens)
      {
        var tk := tokens[i];
        ghost var before := open;
        var ok := true;
        assert tokens[i..][1..] == tokens[i + 1..];
        if tk == "{" {
          ok, stack := OpenBlock(stack, open);
        } else if tk == "}" {
          ok, stack := CloseBlock(stack, open);
        } else if tk == ";" {
          stack := EndStatement(stack, open);
        } else {
          AddWord(stack, open, tk);
        }
        if !ok { return WrongGrammar; }
        open := Step(before, tk).value;
      }
      configNodes := Finish(configNodes);
      return OK;
    }

    method LoadFromBuffer(data: string) returns (r: LoadResult)
      modifies this
      ensures r == Load(data).0
      ensures r == OK ==> configNodes == Load(data).1
    {
      if data == "" { return EOFTooEarly; }
      var tokens := Tokenize(data);
      r := AnalyseWords(tokens);
    }
  }

  lemma StartHolds()
    ensures Holds(AddChild(BLANK, BLANK), [[], [0]], FRESH_OPEN)
  {
    assert FRESH_OPEN[..0] == [] && FRESH_OPEN[..1] == [BLANK] && [BLANK][1..] == [];
    assert FRESH_OPEN[1..] == [BLANK];
  }

  function Load(data: string): (LoadResult, Node) {
    if data == "" then (EOFTooEarly, BLANK) else Analyse(Scan(FRESH, data).tokens)
  }
}
