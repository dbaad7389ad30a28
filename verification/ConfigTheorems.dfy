/** What loading a configuration promises. */
module ConfigTheorems {
  import opened Text
  import opened ConfigText
  import opened ConfigTree

  lemma {:induction false} RunAppend(open: seq<Node>, a: seq<string>, b: seq<string>)
    requires |open| >= 2
    ensures Run(open, a + b) == match Run(open, a) case None => None case Some(o) => Run(o, b)
    decreases |a|
  {
    if a == [] {
      assert a + b == b;
    } else {
      assert (a + b)[1..] == a[1..] + b;
      var next := Step(open, a[0]);
      if next.Some? {
        RunAppend(next.value, a[1..], b);
      }
    }
  }

  //// Round trip

  predicate IsName(t: string) {
    IsWord(t) && t != "{" && t != "}" && t != ";"
  }

  /** Every node of the forest has a name, and names and values can be written. */
  predicate IsForest(ns: seq<Node>) {
    forall i :: 0 <= i < |ns| ==>
      IsName(ns[i].name) && (forall j :: 0 <= j < |ns[i].values| ==> IsName(ns[i].values[j])) && IsForest(ns[i].children)
  }

  function TokensOf(n: Node): seq<string>
    decreases n, 1
  {
    [n.name] + n.values + (if n.children == [] then [";"] else ["{"] + ForestTokens(n.children) + ["}"])
  }

  function ForestTokens(ns: seq<Node>): seq<string>
    decreases ns, 0
  {
    if ns == [] then [] else TokensOf(ns[0]) + ForestTokens(ns[1..])
  }

  lemma {:induction false} ValuesAreRun(open: seq<Node>, cur: Node, values: seq<string>)
    requires open != [] && cur.name != "" && forall j :: 0 <= j < |values| ==> IsName(values[j])
    ensures Run(open + [cur], values) == Some(open + [cur.(values := cur.values + values)])
    decreases |values|
  {
    if values == [] {
      assert cur.values + values == cur.values;
    } else {
      var cur' := cur.(values := cur.values + [values[0]]);
      assert (open + [cur])[..|open|] == open;
      assert Step(open + [cur], values[0]) == Some(open + [cur']);
      ValuesAreRun(open, cur', values[1..]);
      assert cur'.values + values[1..] == cur.values + values;
    }
  }

  lemma {:induction false} LeafEnds(open: seq<Node>, up: Node, n: Node)
    requires n.name != ""
    ensures Run(open + [up, n], [";"]) == Some(open + [AddChild(up, n), BLANK])
  {
    var o := open + [up, n];
    assert o[..|open|] == open;
    RunOne(o, ";");
  }

  lemma {:induction false} BlockOpens(open: seq<Node>, up: Node, head: Node)
    requires head.name != ""
    ensures Run(open + [up, head], ["{"]) == Some((open + [up]) + [head, BLANK])
  {
    RunOne(open + [up, head], "{");
    assert (open + [up, head]) + [BLANK] == (open + [up]) + [head, BLANK];
  }

  lemma {:induction false} BlockCloses(open: seq<Node>, up: Node, n: Node)
    ensures Run((open + [up]) + [n, BLANK], ["}"]) == Some(open + [AddChild(up, n), BLANK])
  {
    var o := (open + [up]) + [n, BLANK];
    assert o[..|o| - 3] == open && o[|o| - 3] == up && o[|o| - 2] == n;
    RunOne(o, "}");
  }

  /** A statement, from its name to its ';' or its '}', adds its node to the block. */
  lemma {:induction false} NodeIsRun(open: seq<Node>, up: Node, n: Node)
    requires IsForest([n])
    ensures Run(open + [up, BLANK], TokensOf(n)) == Some(open + [AddChild(up, n), BLANK])
    decreases n, 1
  {
    assert [n][0] == n;
    var head, start, front := n.(children := []), open + [up, BLANK], [n.name] + n.values;
    HeadIsRun(open, up, n);
    if n.children == [] {
      RunAppend(start, front, [";"]);
      LeafEnds(open, up, head);
      assert n == head;
    } else {
      var inner := ForestTokens(n.children);
      Rejoin(front, ["{"] + inner, ["}"]);
      Rejoin(["{"], inner, ["}"]);
      assert TokensOf(n) == front + (["{"] + (inner + ["}"]));
      RunAppend(start, front, ["{"] + (inner + ["}"]));
      BlockIsRun(open, up, n, inner);
    }
  }

  lemma {:induction false} BlockIsRun(open: seq<Node>, up: Node, n: Node, inner: seq<string>)
    requires IsForest([n]) && n.children != [] && inner == ForestTokens(n.children)
    ensures Run(open + [up, n.(children := [])], ["{"] + (inner + ["}"])) == Some(open + [AddChild(up, n), BLANK])
    decreases n, 0
  {
    assert [n][0] == n;
    var head := n.(children := []);
    RunAppend(open + [up, head], ["{"], inner + ["}"]);
    BlockOpens(open, up, head);
    RunAppend((open + [up]) + [head, BLANK], inner, ["}"]);
    ForestIsRun(open + [up], head, n.children);
    assert head.(children := head.children + n.children) == n;
    BlockCloses(open, up, n);
  }

  lemma {:induction false} RunOne(open: seq<Node>, token: string)
    requires |open| >= 2
    ensures Run(open, [token]) == Step(open, token)
  {
    assert [token][1..] == [];
  }

  lemma {:induction false} HeadIsRun(open: seq<Node>, up: Node, n: Node)
    requires IsForest([n])
    ensures Run(open + [up, BLANK], [n.name] + n.values) == Some(open + [up, n.(children := [])])
  {
    assert [n][0] == n;
    var named := BLANK.(name := n.name);
    assert (open + [up, BLANK])[..|open| + 1] == open + [up];
    assert Step(open + [up, BLANK], n.name) == Some(open + [up] + [named]);
    RunAppend(open + [up, BLANK], [n.name], n.values);
    RunOne(open + [up, BLANK], n.name);
    ValuesAreRun(open + [up], named, n.values);
    assert named.(values := [] + n.values) == n.(children := []);
    assert open + [up] + [n.(children := [])] == open + [up, n.(children := [])];
  }

  lemma {:induction false} ForestIsRun(open: seq<Node>, up: Node, ns: seq<Node>)
    requires IsForest(ns)
    ensures Run(open + [up, BLANK], ForestTokens(ns)) == Some(open + [up.(children := up.children + ns), BLANK])
    decreases ns, 0
  {
    if ns == [] {
      assert up.children + ns == up.children;
    } else {
      RunAppend(open + [up, BLANK], TokensOf(ns[0]), ForestTokens(ns[1..]));
      NodeIsRun(open, up, ns[0]);
      ForestIsRun(open, AddChild(up, ns[0]), ns[1..]);
      assert up.children + [ns[0]] + ns[1..] == up.children + ns;
    }
  }

  lemma {:induction false} ForestTokensAreTokens(ns: seq<Node>)
    requires IsForest(ns)
    ensures forall i :: 0 <= i < |ForestTokens(ns)| ==> IsToken(ForestTokens(ns)[i])
    ensures ns != [] ==> ForestTokens(ns) != []
    decreases ns
  {
    if ns != [] {
      ForestTokensAreTokens(ns[0].children);
      ForestTokensAreTokens(ns[1..]);
    }
  }

  lemma {:induction false} BlanksInFront(lead: string, text: string)
    requires IsGap(lead)
    ensures Scan(FRESH, lead + text) == Scan(FRESH, text)
  {
    ScanAppend(FRESH, lead, text);
    GapIsRead(FRESH, lead);
  }

  /** A forest of named nodes, run through the machine on open nodes. */
  lemma {:induction false} ForestIsLoaded(ns: seq<Node>)
    requires IsForest(ns) && ns != []
    ensures Analyse(ForestTokens(ns)) == (OK, BLANK.(children := ns))
  {
    ForestIsRun([], BLANK, ns);
    assert [] + [BLANK, BLANK] == FRESH_OPEN && [] + ns == ns;
    var root := BLANK.(children := ns);
    assert [] + [root, BLANK] == [root, BLANK];
    assert [root, BLANK][1..] == [BLANK] && Close([BLANK]) == BLANK;
    assert Close([root, BLANK]) == AddChild(root, BLANK);
    assert DropLast(AddChild(root, BLANK)) == root;
    assert AddChild(BLANK.(children := []), BLANK).name == "" && root.name == "";
  }

  /** Main result: any forest of named nodes, however its tokens are written and with any
      white space that keeps them apart, loads as exactly that forest; the empty text does not
      load. */
  lemma {:induction false} LoadUndoesWrite(ns: seq<Node>, lead: string, texts: seq<string>, gaps: seq<string>)
    requires IsForest(ns) && IsGap(lead)
    requires AreWritings(texts, ForestTokens(ns)) && GapsFit(ForestTokens(ns), gaps)
    ensures Load(lead + WriteAll(texts, gaps)) ==
      if ns == [] && lead == "" then (EOFTooEarly, BLANK) else (OK, BLANK.(children := ns))
  {
    var ts := ForestTokens(ns);
    ForestTokensAreTokens(ns);
    TokensAreRead(ts, texts, gaps, "", []);
    assert [] + ts == ts;
    BlanksInFront(lead, WriteAll(texts, gaps));
    if ns != [] {
      assert IsToken(ts[0]) && Writes(texts[0], ts[0]);
      assert texts[0] != "" && WriteAll(texts, gaps) != "";
      ForestIsLoaded(ns);
    } else {
      NothingLoads();
    }
  }

  lemma NothingLoads()
    ensures Analyse([]) == (OK, BLANK)
  {
    assert [BLANK, BLANK][1..] == [BLANK];
    assert Close(FRESH_OPEN) == AddChild(BLANK, BLANK);
    assert DropLast(AddChild(BLANK, BLANK)) == BLANK;
  }

  //// A ';' behind a '}'

  /** A ';' behind a '}' changes nothing, in any text, if that '}' is not inside quotes. */
  lemma {:induction false} SemicolonAfterBlock(a: string, b: string)
    requires !Scan(FRESH, a).inStr
    ensures Load(a + "}" + ";" + b) == Load(a + "}" + b)
  {
    var x := Scan(FRESH, a);
    var y := Read(x, '}');
    ScanAppend(FRESH, a + "}" + ";", b);
    ScanAppend(FRESH, a + "}", ";");
    ScanAppend(FRESH, a + "}", b);
    ScanAppend(FRESH, a, "}");
    assert "}"[1..] == "" && ";"[1..] == "";
    var before := Flush(x).tokens;
    var z := y.(tokens := y.tokens + [";"]);
    assert Scan(y, ";") == z;
    ScanTokens(y, b);
    ScanTokens(z, b);
    assert y.(tokens := []) == z.(tokens := []);
    var rest := Scan(y.(tokens := []), b).tokens;
    assert y.tokens + rest == (before + ["}"]) + rest;
    assert z.tokens + rest == (before + ["}", ";"]) + rest;
    RunBlockSemicolon(before, rest);
  }

  /** The ';' of the last statement of a block may be left out: in front of a '}' it changes
      nothing, in any text, outside quotes. */
  lemma {:induction false} SemicolonBeforeBlockEnd(a: string, b: string)
    requires !Scan(FRESH, a).inStr
    ensures Load(a + ";" + "}" + b) == Load(a + "}" + b)
  {
    var x := Scan(FRESH, a);
    var before := Flush(x).tokens;
    var y, z := Scan(x, "}"), Scan(Scan(x, ";"), "}");
    ScanAppend(FRESH, a + ";" + "}", b);
    ScanAppend(FRESH, a + ";", "}");
    ScanAppend(FRESH, a, ";");
    ScanAppend(FRESH, a + "}", b);
    ScanAppend(FRESH, a, "}");
    assert "}"[1..] == "" && ";"[1..] == "";
    ScanTokens(y, b);
    ScanTokens(z, b);
    assert y.(tokens := []) == z.(tokens := []);
    var rest := Scan(y.(tokens := []), b).tokens;
    assert y.tokens == before + ["}"] && z.tokens == before + [";", "}"];
    RunSemicolonBlock(before, rest);
  }

  lemma {:induction false} RunSemicolonBlock(a: seq<string>, b: seq<string>)
    ensures Run(FRESH_OPEN, (a + [";", "}"]) + b) == Run(FRESH_OPEN, (a + ["}"]) + b)
  {
    RunAppend(FRESH_OPEN, a + [";", "}"], b);
    RunAppend(FRESH_OPEN, a + ["}"], b);
    assert a + [";", "}"] == (a + [";"]) + ["}"];
    RunAppend(FRESH_OPEN, a + [";"], ["}"]);
    RunAppend(FRESH_OPEN, a, [";"]);
    RunAppend(FRESH_OPEN, a, ["}"]);
    var o := Run(FRESH_OPEN, a);
    if o.Some? {
      RunOne(o.value, ";");
      RunOne(o.value, "}");
      RunOne(Step(o.value, ";").value, "}");
      EndThenClose(o.value);
    }
  }

  lemma EndThenClose(open: seq<Node>)
    requires |open| >= 2
    ensures Step(Step(open, ";").value, "}") == Step(open, "}")
  {
    var n, o := |open|, Step(open, ";").value;
    if open[n - 1].name != "" {
      assert |o| == n && o[n - 2] == AddChild(open[n - 2], open[n - 1]);
      assert n > 2 ==> o[..n - 3] == open[..n - 3] && o[n - 3] == open[n - 3];
    }
  }

  lemma {:induction false} ScanTokens(x: Lexer, text: string)
    ensures Scan(x, text).tokens == x.tokens + Scan(x.(tokens := []), text).tokens
    decreases |text|
  {
    if text != "" {
      var y, y0 := Read(x, text[0]), Read(x.(tokens := []), text[0]);
      ScanTokens(y, text[1..]);
      ScanTokens(y0, text[1..]);
      ReadTokens(x, text[0]);
      Rejoin(x.tokens, y0.tokens, Scan(y.(tokens := []), text[1..]).tokens);
    }
  }

  lemma ReadTokens(x: Lexer, c: char)
    ensures var (y, y0) := (Read(x, c), Read(x.(tokens := []), c));
      y.(tokens := []) == y0.(tokens := []) && y.tokens == x.tokens + y0.tokens
  {
  }

  lemma Rejoin(a: seq<string>, b: seq<string>, c: seq<string>)
    ensures (a + b) + c == a + (b + c)
  {
  }

  lemma {:induction false} RunBlockSemicolon(a: seq<string>, b: seq<string>)
    ensures Run(FRESH_OPEN, (a + ["}", ";"]) + b) == Run(FRESH_OPEN, (a + ["}"]) + b)
  {
    RunAppend(FRESH_OPEN, a + ["}", ";"], b);
    RunAppend(FRESH_OPEN, a + ["}"], b);
    assert a + ["}", ";"] == (a + ["}"]) + [";"];
    RunAppend(FRESH_OPEN, a + ["}"], [";"]);
    RunAppend(FRESH_OPEN, a, ["}"]);
    var o := Run(FRESH_OPEN, a);
    if o.Some? {
      RunOne(o.value, "}");
      var o' := Step(o.value, "}");
      if o'.Some? {
        RunOne(o'.value, ";");
      }
    }
  }

  //// Wrong grammar

  function Weight(token: string): int {
    if token == "{" then 1 else if token == "}" then -1 else 0
  }

  /** Blocks opened minus blocks closed. */
  function Balance(tokens: seq<string>): int {
    if tokens == [] then 0 else Weight(tokens[0]) + Balance(tokens[1..])
  }

  /** Token i is wrong behind d open blocks: a '{' without a name before it, or a '}' too
      many. named says whether the statement before the first token has a name. */
  predicate WrongAt(tokens: seq<string>, i: nat, d: int, named: bool) {
    && i < |tokens|
    && (|| (tokens[i] == "{" && if i == 0 then !named else IsMarkToken(tokens[i - 1]))
        || (tokens[i] == "}" && d + Balance(tokens[..i]) <= 0))
  }

  ghost predicate SomeWrong(tokens: seq<string>, d: int, named: bool) {
    exists i: nat :: WrongAt(tokens, i, d, named)
  }

  lemma {:induction false} StepDepth(open: seq<Node>, token: string)
    requires |open| >= 2 && token != ""
    ensures match Step(open, token)
      case None => (token == "{" && open[|open| - 1].name == "") || (token == "}" && |open| == 2)
      case Some(o) =>
        && |o| == |open| + Weight(token)
        && (o[|o| - 1].name == "" <==> IsMarkToken(token))
  {
  }

  lemma {:induction false} WrongLater(tokens: seq<string>, i: nat, d: int, named: bool)
    requires 1 <= i < |tokens|
    ensures WrongAt(tokens, i, d, named) <==>
      WrongAt(tokens[1..], i - 1, d + Weight(tokens[0]), !IsMarkToken(tokens[0]))
  {
    assert tokens[..i][1..] == tokens[1..][..i - 1];
    assert tokens[1..][i - 1] == tokens[i];
    assert i > 1 ==> tokens[1..][i - 2] == tokens[i - 1];
  }

  /** The stack always holds the open depth plus two entries, and the grammar is wrong exactly
      when some token is. */
  lemma {:induction false} WrongIsExact(open: seq<Node>, tokens: seq<string>)
    requires |open| >= 2 && "" !in tokens
    ensures Run(open, tokens).Some? ==> |Run(open, tokens).value| == |open| + Balance(tokens)
    ensures Run(open, tokens).None? <==> SomeWrong(tokens, |open| - 2, open[|open| - 1].name != "")
    decreases |tokens|
  {
    if tokens != [] {
      var d, named := |open| - 2, open[|open| - 1].name != "";
      StepDepth(open, tokens[0]);
      assert tokens[..0] == [];
      var next := Step(open, tokens[0]);
      assert WrongAt(tokens, 0, d, named) <==> next.None?;
      if next.Some? {
        WrongIsExact(next.value, tokens[1..]);
        SomeWrongLater(tokens, d, named);
      }
    }
  }

  lemma {:induction false} SomeWrongLater(tokens: seq<string>, d: int, named: bool)
    requires tokens != [] && !WrongAt(tokens, 0, d, named)
    ensures SomeWrong(tokens, d, named) <==> SomeWrong(tokens[1..], d + Weight(tokens[0]), !IsMarkToken(tokens[0]))
  {
    var d', named' := d + Weight(tokens[0]), !IsMarkToken(tokens[0]);
    if i: nat :| WrongAt(tokens[1..], i, d', named') {
      WrongLater(tokens, i + 1, d, named);
    }
    if i: nat :| WrongAt(tokens, i, d, named) {
      WrongLater(tokens, i, d, named);
    }
  }

  /** A '{' without a name before it, or a '}' that closes a block never opened. */
  predicate IsMisplaced(tokens: seq<string>, i: nat) {
    && i < |tokens|
    && (|| (tokens[i] == "{" && (i == 0 || IsMarkToken(tokens[i - 1])))
        || Balance(tokens[..i + 1]) < 0)
  }

  /** Main result: loading fails exactly when some '{' has no name before it or some prefix
      of the tokens closes more blocks than it opened. */
  lemma {:induction false} WrongGrammarIsExact(data: string)
    requires data != ""
    ensures var tokens := Scan(FRESH, data).tokens;
      Load(data).0 == WrongGrammar <==> exists i: nat :: IsMisplaced(tokens, i)
  {
    var tokens := Scan(FRESH, data).tokens;
    TokensAreNotEmpty(FRESH, data);
    WrongIsExact(FRESH_OPEN, tokens);
    if i: nat :| IsMisplaced(tokens, i) {
      MisplacedIsWrong(tokens, i);
    }
    if i: nat :| WrongAt(tokens, i, 0, false) {
      WrongIsMisplaced(tokens, i);
    }
  }

  lemma {:induction false} MisplacedIsWrong(tokens: seq<string>, i: nat)
    requires IsMisplaced(tokens, i)
    ensures SomeWrong(tokens, 0, false)
  {
    if Balance(tokens[..i + 1]) < 0 {
      var j := FirstNegative(tokens, i + 1);
      assert tokens[..j + 1] == tokens[..j] + [tokens[j]];
      BalanceAppend(tokens[..j], tokens[j]);
      assert WrongAt(tokens, j, 0, false);
    } else {
      assert WrongAt(tokens, i, 0, false);
    }
  }

  lemma {:induction false} WrongIsMisplaced(tokens: seq<string>, i: nat)
    requires WrongAt(tokens, i, 0, false)
    ensures IsMisplaced(tokens, i)
  {
    assert tokens[..i + 1] == tokens[..i] + [tokens[i]];
    BalanceAppend(tokens[..i], tokens[i]);
  }

  lemma {:induction false} BalanceAppend(a: seq<string>, t: string)
    ensures Balance(a + [t]) == Balance(a) + Weight(t)
    decreases |a|
  {
    if a == [] {
      assert a + [t] == [t] && [t][1..] == [];
    } else {
      assert (a + [t])[1..] == a[1..] + [t];
      BalanceAppend(a[1..], t);
    }
  }

  lemma {:induction false} FirstNegative(tokens: seq<string>, n: nat) returns (j: nat)
    requires n <= |tokens| && Balance(tokens[..n]) < 0
    ensures j < n && Balance(tokens[..j]) >= 0 && Balance(tokens[..j + 1]) < 0
    decreases n
  {
    assert n > 0;
    if Balance(tokens[..n - 1]) < 0 {
      j := FirstNegative(tokens, n - 1);
    } else {
      j := n - 1;
    }
  }

  //// Names

  predicate AllNamed(ns: seq<Node>) {
    forall i :: 0 <= i < |ns| ==> ns[i].name != "" && AllNamed(ns[i].children)
  }

  /** Every node is named but, perhaps, the root and the statement being read, which has no
      children yet. */
  predicate NamedSoFar(open: seq<Node>) {
    && |open| >= 2
    && open[|open| - 1].children == []
    && (forall i :: 0 <= i < |open| ==> AllNamed(open[i].children))
    && forall i :: 0 < i < |open| - 1 ==> open[i].name != ""
  }

  lemma {:induction false} StepNames(open: seq<Node>, token: string)
    requires NamedSoFar(open) && token != ""
    ensures Step(open, token).Some? ==> NamedSoFar(Step(open, token).value)
  {
  }

  lemma {:induction false} RunNames(open: seq<Node>, tokens: seq<string>)
    requires NamedSoFar(open) && "" !in tokens
    ensures Run(open, tokens).Some? ==> NamedSoFar(Run(open, tokens).value)
    decreases |tokens|
  {
    if tokens != [] {
      StepNames(open, tokens[0]);
      var next := Step(open, tokens[0]);
      if next.Some? {
        RunNames(next.value, tokens[1..]);
      }
    }
  }

  lemma {:induction false} CloseNames(open: seq<Node>)
    requires NamedSoFar(open)
    ensures AllNamed(Close(open).children) <==> open[|open| - 1].name != ""
    ensures Close(open).children != []
    ensures var last := Close(open).children[|Close(open).children| - 1];
      (last.name == "" <==> |open| == 2 && open[1].name == "") && last == Close(open[1..])
    ensures Close(open).children[..|Close(open).children| - 1] == open[0].children
    decreases |open|
  {
    if |open| == 2 {
      assert open[1..] == [open[1]];
    } else {
      assert forall i :: 0 <= i < |open[1..]| ==> open[1..][i] == open[i + 1];
      CloseNames(open[1..]);
      assert Close(open[1..]).name == open[1].name;
    }
    AllNamedAppend(open[0].children, Close(open[1..]));
  }

  lemma {:induction false} AllNamedAppend(ns: seq<Node>, n: Node)
    requires AllNamed(ns)
    ensures AllNamed(ns + [n]) <==> n.name != "" && AllNamed(n.children)
  {
    assert (ns + [n])[|ns|] == n;
  }

  /** Main result: in a loaded tree every node has a name exactly when all blocks are closed
      or the text ends inside a statement. */
  lemma {:induction false} LoadedNodesAreNamed(data: string)
    requires data != "" && Load(data).0 == OK
    ensures var tokens := Scan(FRESH, data).tokens;
      AllNamed(Load(data).1.children) <==>
        Balance(tokens) == 0 || (tokens != [] && !IsMarkToken(tokens[|tokens| - 1]))
  {
    var tokens := Scan(FRESH, data).tokens;
    TokensAreNotEmpty(FRESH, data);
    WrongIsExact(FRESH_OPEN, tokens);
    RunNames(FRESH_OPEN, tokens);
    LastNamed(FRESH_OPEN, tokens);
    FinishNames(Run(FRESH_OPEN, tokens).value);
  }

  /** When the last open statement has no name, only one that is left in the root is dropped. */
  lemma {:induction false} FinishNames(open: seq<Node>)
    requires NamedSoFar(open)
    ensures AllNamed(Finish(Close(open)).children) <==> |open| == 2 || open[|open| - 1].name != ""
  {
    CloseNames(open);
  }

  lemma {:induction false} LastNamed(open: seq<Node>, tokens: seq<string>)
    requires |open| >= 2 && "" !in tokens && Run(open, tokens).Some?
    ensures var o := Run(open, tokens).value;
      o[|o| - 1].name == "" <==>
        if tokens == [] then open[|open| - 1].name == "" else IsMarkToken(tokens[|tokens| - 1])
    decreases |tokens|
  {
    if tokens != [] {
      StepDepth(open, tokens[0]);
      LastNamed(Step(open, tokens[0]).value, tokens[1..]);
    }
  }
}
