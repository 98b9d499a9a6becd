/** Dumping and loading again: the graph that comes back is the part reachable from the
    root, nodes in the order they were met. */
module YamlRoundTrip {
  import opened Collections
  import opened Options
  import opened YamlAnchors
  import opened YamlDumper
  import opened YamlGraph
  import opened YamlLoader

  // ----- positions in the order of meeting -----

  /** Where a node stands in the order, from 1; 0 if nowhere. */
  function Pos(o: seq<nat>, x: nat): nat {
    if o == [] then 0 else if o[0] == x then 1 else
      var p := Pos(o[1..], x);
      if p == 0 then 0 else p + 1
  }

  lemma {:induction false} PosFinds(o: seq<nat>, x: nat)
    ensures Pos(o, x) <= |o| && (Pos(o, x) > 0 <==> x in o)
    ensures Pos(o, x) > 0 ==> o[Pos(o, x) - 1] == x
  {
    if o != [] {
      PosFinds(o[1..], x);
      assert o == [o[0]] + o[1..];
    }
  }

  lemma {:induction false} PosPrefix(o: seq<nat>, more: seq<nat>, x: nat)
    requires x in o
    ensures Pos(o + more, x) == Pos(o, x)
  {
    assert (o + more)[0] == o[0] && (o + more)[1..] == o[1..] + more;
    if o[0] != x {
      PosPrefix(o[1..], more, x);
    }
  }

  lemma {:induction false} PosLast(o: seq<nat>, x: nat)
    requires x !in o
    ensures Pos(o + [x], x) == |o| + 1
  {
    if o == [] {
      assert [] + [x] == [x];
    } else {
      assert (o + [x])[0] == o[0] && (o + [x])[1..] == o[1..] + [x];
      PosLast(o[1..], x);
    }
  }

  function Positions(o: seq<nat>, cs: seq<nat>): seq<nat> {
    if cs == [] then [] else [Pos(o, cs[0])] + Positions(o, cs[1..])
  }

  /** A node as it comes back: children by their positions, the tag as loaded. */
  function Renamed(n: Node, o: seq<nat>): Node {
    match n
    case Scalar(tag, value) => Scalar(TagOr(Some(tag), SCALAR_TAG), value)
    case Sequence(tag, items) => Sequence(TagOr(Some(tag), SEQUENCE_TAG), Positions(o, items))
    case Mapping(tag, pairs) => Mapping(TagOr(Some(tag), MAPPING_TAG), RenamedPairs(pairs, o))
  }

  function RenamedPairs(pairs: seq<Pair>, o: seq<nat>): seq<Pair> {
    if pairs == [] then [] else [Pair(Pos(o, pairs[0].key), Pos(o, pairs[0].value))] + RenamedPairs(pairs[1..], o)
  }

  /** The nodes in `f`, as they come back when `o` is the order. */
  function Loaded(g: Graph, f: seq<nat>, o: seq<nat>): (r: Graph)
    ensures |r| == |f|
  {
    if f == [] then [] else
      [if 1 <= f[0] <= |g| then Renamed(g[f[0] - 1], o) else Scalar("", "")] + Loaded(g, f[1..], o)
  }

  lemma {:induction false} LoadedJoin(g: Graph, a: seq<nat>, b: seq<nat>, o: seq<nat>)
    ensures Loaded(g, a + b, o) == Loaded(g, a, o) + Loaded(g, b, o)
  {
    if a == [] {
      assert a + b == b;
    } else {
      assert (a + b)[0] == a[0] && (a + b)[1..] == a[1..] + b;
      LoadedJoin(g, a[1..], b, o);
    }
  }

  /** All children of the nodes in `f` are in `o`. */
  ghost predicate Closed(g: Graph, f: seq<nat>, o: seq<nat>) {
    f == [] || ((1 <= f[0] <= |g| ==> Covered(Children(g[f[0] - 1]), o)) && Closed(g, f[1..], o))
  }

  lemma {:induction false} ClosedJoin(g: Graph, a: seq<nat>, b: seq<nat>, o: seq<nat>)
    requires Closed(g, a, o) && Closed(g, b, o)
    ensures Closed(g, a + b, o)
  {
    if a == [] {
      assert a + b == b;
    } else {
      assert (a + b)[0] == a[0] && (a + b)[1..] == a[1..] + b;
      ClosedJoin(g, a[1..], b, o);
    }
  }

  lemma {:induction false} ClosedGrow(g: Graph, f: seq<nat>, o: seq<nat>, more: seq<nat>)
    requires Closed(g, f, o)
    ensures Closed(g, f, o + more) && Loaded(g, f, o + more) == Loaded(g, f, o)
  {
    if f != [] {
      ClosedGrow(g, f[1..], o, more);
      if 1 <= f[0] <= |g| {
        RenamedGrow(g[f[0] - 1], o, more);
      }
    }
  }

  lemma RenamedGrow(n: Node, o: seq<nat>, more: seq<nat>)
    requires Covered(Children(n), o)
    ensures Covered(Children(n), o + more) && Renamed(n, o + more) == Renamed(n, o)
  {
    match n
    case Scalar(_, _) =>
    case Sequence(_, items) => PositionsGrow(items, o, more);
    case Mapping(_, pairs) =>
      PairsCovered(pairs, o);
      RenamedPairsGrow(pairs, o, more);
  }

  lemma {:induction false} PositionsGrow(cs: seq<nat>, o: seq<nat>, more: seq<nat>)
    requires Covered(cs, o)
    ensures Positions(o + more, cs) == Positions(o, cs)
  {
    if cs != [] {
      assert cs[0] in o;
      PosPrefix(o, more, cs[0]);
      PositionsGrow(cs[1..], o, more);
    }
  }

  ghost predicate PairsIn(pairs: seq<Pair>, o: seq<nat>) {
    forall k | 0 <= k < |pairs| :: pairs[k].key in o && pairs[k].value in o
  }

  lemma PairsCovered(pairs: seq<Pair>, o: seq<nat>)
    requires Covered(Flatten(pairs), o)
    ensures PairsIn(pairs, o)
  {
    forall k | 0 <= k < |pairs| ensures pairs[k].key in o && pairs[k].value in o {
      assert Flatten(pairs)[2 * k] in Flatten(pairs) && Flatten(pairs)[2 * k + 1] in Flatten(pairs);
    }
  }

  lemma {:induction false} RenamedPairsGrow(pairs: seq<Pair>, o: seq<nat>, more: seq<nat>)
    requires PairsIn(pairs, o)
    ensures RenamedPairs(pairs, o + more) == RenamedPairs(pairs, o)
  {
    if pairs != [] {
      PosPrefix(o, more, pairs[0].key);
      PosPrefix(o, more, pairs[0].value);
      RenamedPairsGrow(pairs[1..], o, more);
    }
  }

  lemma {:induction false} WalkClosed(g: Graph, w: Walk, o: seq<nat>)
    requires Explored(g, w, o) && NoRepeats(o) && Within(|g|, o)
    ensures Closed(g, Firsts(w), o + Firsts(w))
    decreases w
  {
    match w
    case First(i, kids) =>
      var cs, o1 := Children(g[i - 1]), o + [i];
      Extended(g, o, i);
      WalksCover(g, cs, kids, o1);
      hide NoRepeats, Within, Covers, Covered;
      CoversAll(g, o1, FirstsAll(kids), MetAll(kids), cs);
      WalksClosed(g, cs, kids, o1);
      assert o1 + FirstsAll(kids) == o + Firsts(w);
      assert Firsts(w)[1..] == FirstsAll(kids);
    case Again(_) =>
  }

  lemma {:induction false} WalksClosed(g: Graph, cs: seq<nat>, ws: Walks, o: seq<nat>)
    requires ExploredAll(g, cs, ws, o) && NoRepeats(o) && Within(|g|, o)
    ensures Closed(g, FirstsAll(ws), o + FirstsAll(ws))
    decreases ws
  {
    match ws
    case Done =>
    case Next(w, rest) =>
      hide NoRepeats, Within, Closed, Covers, Explored, Firsts, Met;
      WalkCovers(g, w, o);
      CoveredSoFar(g, o, Firsts(w), Met(w), [w.node]);
      WalkClosed(g, w, o);
      WalksClosed(g, cs[1..], rest, o + Firsts(w));
      ClosedThen(g, Firsts(w), FirstsAll(rest), o);
  }

  lemma ClosedThen(g: Graph, f: seq<nat>, f': seq<nat>, o: seq<nat>)
    requires Closed(g, f, o + f) && Closed(g, f', o + f + f')
    ensures Closed(g, f + f', o + (f + f'))
  {
    ClosedGrow(g, f, o + f, f');
    ClosedJoin(g, f, f', o + f + f');
    assert o + f + f' == o + (f + f');
  }

  lemma CoversAll(g: Graph, o: seq<nat>, f: seq<nat>, met: seq<nat>, cs: seq<nat>)
    requires Covers(g, o, f, met, cs)
    ensures Covered(cs, o + f)
  {
  }

  // ----- children hung one by one -----

  function AddAll(n: Node, s: seq<nat>): Node
    decreases |s|
  {
    if s == [] then n else AddAll(AddChild(n, s[0]), s[1..])
  }

  /** The collection as it is opened. */
  function Opened(n: Node): Node {
    match n
    case Scalar(tag, value) => Scalar(TagOr(Some(tag), SCALAR_TAG), value)
    case Sequence(tag, _) => Sequence(TagOr(Some(tag), SEQUENCE_TAG), [])
    case Mapping(tag, _) => Mapping(TagOr(Some(tag), MAPPING_TAG), [])
  }

  lemma {:induction false} AddItems(tag: string, items: seq<nat>, s: seq<nat>)
    ensures AddAll(Sequence(tag, items), s) == Sequence(tag, items + s)
    decreases |s|
  {
    if s == [] {
      assert items + s == items;
    } else {
      AddItems(tag, items + [s[0]], s[1..]);
      assert items + [s[0]] + s[1..] == items + s;
    }
  }

  lemma AddPair(tag: string, done: seq<Pair>, key: nat, value: nat, rest: seq<nat>)
    requires !Pending(done) && key != 0 && value != 0
    ensures AddAll(Mapping(tag, done), [key, value] + rest) == AddAll(Mapping(tag, done + [Pair(key, value)]), rest)
    ensures !Pending(done + [Pair(key, value)])
  {
    var waiting, s := done + [Pair(key, 0)], [key, value] + rest;
    assert s[1..][0] == value && s[1..][1..] == rest;
    assert Pending(waiting) && waiting[|done| := Pair(key, value)] == done + [Pair(key, value)];
    assert AddChild(Mapping(tag, done), key) == Mapping(tag, waiting);
  }

  lemma PositionsHead(o: seq<nat>, a: nat, rest: seq<nat>)
    ensures Positions(o, [a] + rest) == [Pos(o, a)] + Positions(o, rest)
  {
    assert ([a] + rest)[0] == a && ([a] + rest)[1..] == rest;
  }

  lemma FlattenedHead(pairs: seq<Pair>, o: seq<nat>)
    requires pairs != []
    ensures Positions(o, Flatten(pairs)) == [Pos(o, pairs[0].key), Pos(o, pairs[0].value)] + Positions(o, Flatten(pairs[1..]))
  {
    hide Positions, Pos;
    var p, rest := pairs[0], Flatten(pairs[1..]);
    PositionsHead(o, p.key, [p.value] + rest);
    PositionsHead(o, p.value, rest);
    assert Flatten(pairs) == [p.key, p.value] + rest == [p.key] + ([p.value] + rest);
  }

  lemma PairsInStep(pairs: seq<Pair>, o: seq<nat>)
    requires PairsIn(pairs, o) && pairs != []
    ensures Pos(o, pairs[0].key) != 0 && Pos(o, pairs[0].value) != 0 && PairsIn(pairs[1..], o)
  {
    PosFinds(o, pairs[0].key);
    PosFinds(o, pairs[0].value);
  }

  lemma {:induction false} AddPairs(tag: string, done: seq<Pair>, pairs: seq<Pair>, o: seq<nat>)
    requires !Pending(done) && PairsIn(pairs, o)
    ensures AddAll(Mapping(tag, done), Positions(o, Flatten(pairs))) == Mapping(tag, done + RenamedPairs(pairs, o))
    decreases |pairs|
  {
    if pairs == [] {
      assert done + RenamedPairs(pairs, o) == done;
    } else {
      hide Positions, Pending, AddAll, PairsIn, Pos, Flatten;
      var key, value, rest := Pos(o, pairs[0].key), Pos(o, pairs[0].value), pairs[1..];
      PairsInStep(pairs, o);
      FlattenedHead(pairs, o);
      AddPair(tag, done, key, value, Positions(o, Flatten(rest)));
      AddPairs(tag, done + [Pair(key, value)], rest, o);
      assert done + [Pair(key, value)] + RenamedPairs(rest, o) == done + ([Pair(key, value)] + RenamedPairs(rest, o));
    }
  }

  /** All children hung below an opened node make the node that comes back. */
  lemma AddAllRenames(n: Node, o: seq<nat>)
    requires Covered(Children(n), o)
    ensures AddAll(Opened(n), Positions(o, Children(n))) == Renamed(n, o)
  {
    match n
    case Scalar(_, _) =>
    case Sequence(tag, items) =>
      AddItems(TagOr(Some(tag), SEQUENCE_TAG), [], Positions(o, items));
      assert [] + Positions(o, items) == Positions(o, items);
    case Mapping(tag, pairs) =>
      PairsCovered(pairs, o);
      AddPairs(TagOr(Some(tag), MAPPING_TAG), [], pairs, o);
      assert [] + RenamedPairs(pairs, o) == RenamedPairs(pairs, o);
  }
}
