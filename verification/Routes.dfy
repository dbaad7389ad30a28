/** What routing means, told without any tree: a table of routes and one walk over the
    segments of a path that narrows the table segment by segment. */
module Routes {
  import opened Text

  /** One segment of a route: a literal text, or a wildcard. */
  datatype Seg = Lit(text: string) | Any

  type Key = seq<Seg>

  /** A handler function, by identity. */
  type Handler = nat

  /** What a table holds for a route: its handler and, segment by segment, the ids the
      captured values are published under ("" publishes nothing). */
  datatype Entry = Entry(handler: Handler, ids: seq<string>)

  type Table = map<Key, Entry>

  /** Outcome of a walk: the route taken, the captured values, the text not walked over,
      and whether that text belongs to the last value. */
  datatype Match =
    | NoMatch
    | Match(route: Key, vals: seq<string>, rest: string, catchAll: bool)

  function Head(path: string): string {
    path[..IndexOf(path, '/')]
  }

  function Tail(path: string): string {
    var i := IndexOf(path, '/');
    if i < |path| then path[i + 1..] else ""
  }

  /** The segment derivative: what may follow seg. */
  ghost function After(keys: set<Key>, seg: Seg): (r: set<Key>)
    ensures forall k :: k in r <==> [seg] + k in keys
  {
    var r := set k | k in keys && k != [] && k[0] == seg :: k[1..];
    assert forall k :: k in keys && k != [] ==> k == [k[0]] + k[1..];
    assert forall k: Key :: ([seg] + k)[1..] == k;
    r
  }

  ghost function Longest(keys: set<Key>): (n: nat)
    ensures forall k :: k in keys ==> |k| <= n
    ensures keys != {} ==> exists k :: k in keys && |k| == n
  {
    if keys == {} then 0 else
    var k :| k in keys;
    var m := Longest(keys - {k});
    assert keys == (keys - {k}) + {k};
    if |k| >= m then |k| else m
  }

  lemma AfterIsShorter(keys: set<Key>, seg: Seg)
    requires After(keys, seg) != {}
    ensures Longest(After(keys, seg)) < Longest(keys)
  {
    var k :| k in After(keys, seg) && |k| == Longest(After(keys, seg));
    assert [seg] + k in keys;
  }

  /** The rules: a route that ends here takes an exhausted segment; else a literal segment;
      else a wildcard; else, when the only route left ends here, it takes all the rest. */
  ghost function Dispatch(keys: set<Key>, path: string, route: Key, vals: seq<string>): Match
    decreases Longest(keys)
  {
    var name := Head(path);
    if name == "" && [] in keys then
      Match(route, vals, path, false)
    else if After(keys, Lit(name)) != {} then
      AfterIsShorter(keys, Lit(name));
      Dispatch(After(keys, Lit(name)), Tail(path), route + [Lit(name)], vals + [name])
    else if After(keys, Any) != {} then
      AfterIsShorter(keys, Any);
      Dispatch(After(keys, Any), Tail(path), route + [Any], vals + [name])
    else if keys == {[]} then
      Match(route, vals, path, true)
    else
      NoMatch
  }

  /** The values handed to the handler: the last one is extended in the catch-all case. */
  function Captured(vals: seq<string>, rest: string, catchAll: bool): seq<string> {
    if catchAll && vals != [] then vals[|vals| - 1 := vals[|vals| - 1] + "/" + rest] else vals
  }

  /** The id index the handler context is given: an id names the first segment carrying it. */
  function IdIndex(ids: seq<string>): (m: map<string, nat>)
    ensures forall id :: id in m <==> id != "" && id in ids
    ensures forall id :: id in m ==> m[id] < |ids| && ids[m[id]] == id && id !in ids[..m[id]]
  {
    if ids == [] then map[] else
    var n := |ids| - 1;
    var m := IdIndex(ids[..n]);
    assert ids == ids[..n] + [ids[n]];
    assert forall i :: 0 <= i <= n ==> ids[..n][..i] == ids[..i];
    if ids[n] == "" || ids[n] in m then m else m[ids[n] := n]
  }

  /** ids are those of a new route: every segment that an older route already goes through
      keeps the id that route gave it. */
  ghost predicate Inherits(t: Table, key: Key, own: seq<string>, ids: seq<string>)
    requires |own| == |key|
    requires forall k :: k in t ==> |t[k].ids| == |k|
  {
    && |ids| == |key|
    && forall i :: 0 <= i < |key| ==>
         && (forall k :: k in t && i < |k| && k[..i + 1] == key[..i + 1] ==> t[k].ids[i] == ids[i])
         && ((forall k :: k in t && i < |k| ==> k[..i + 1] != key[..i + 1]) ==> ids[i] == own[i])
  }
}
