/** Document graphs, and the one walk over them that anchoring and dumping share. */
module YamlGraph {
  import opened Collections

  datatype Pair = Pair(key: nat, value: nat)

  /** Children are indices from 1; 0 is no node. */
  datatype Node =
    | Scalar(tag: string, value: string)
    | Sequence(tag: string, items: seq<nat>)
    | Mapping(tag: string, pairs: seq<Pair>)

  type Graph = seq<Node>

  function Flatten(pairs: seq<Pair>): (r: seq<nat>)
    ensures |r| == 2 * |pairs|
    ensures forall k | 0 <= k < |pairs| :: r[2 * k] == pairs[k].key && r[2 * k + 1] == pairs[k].value
  {
    if pairs == [] then [] else [pairs[0].key, pairs[0].value] + Flatten(pairs[1..])
  }

  function Children(n: Node): seq<nat> {
    match n
    case Scalar(_, _) => []
    case Sequence(_, items) => items
    case Mapping(_, pairs) => Flatten(pairs)
  }

  ghost predicate Sound(g: Graph) {
    forall i, k | 0 <= i < |g| && 0 <= k < |Children(g[i])| :: 1 <= Children(g[i])[k] <= |g|
  }

  /** A depth-first walk: a node met first, with its children, or met again. */
  datatype Walk = First(node: nat, kids: Walks) | Again(node: nat)
  datatype Walks = Done | Next(head: Walk, tail: Walks)

  /** The nodes met first, in order. */
  function Firsts(w: Walk): seq<nat> {
    match w
    case First(i, kids) => [i] + FirstsAll(kids)
    case Again(_) => []
  }

  function FirstsAll(ws: Walks): seq<nat> {
    match ws
    case Done => []
    case Next(w, rest) => Firsts(w) + FirstsAll(rest)
  }

  /** Every node met, in order. */
  function Met(w: Walk): seq<nat> {
    match w
    case First(i, kids) => [i] + MetAll(kids)
    case Again(i) => [i]
  }

  function MetAll(ws: Walks): seq<nat> {
    match ws
    case Done => []
    case Next(w, rest) => Met(w) + MetAll(rest)
  }

  function Size(w: Walk): nat {
    match w
    case First(_, kids) => 1 + SizeAll(kids)
    case Again(_) => 1
  }

  function SizeAll(ws: Walks): nat {
    match ws
    case Done => 0
    case Next(w, rest) => Size(w) + SizeAll(rest)
  }

  /** The walk is that of the graph, after the nodes in `o` were met. */
  ghost predicate Explored(g: Graph, w: Walk, o: seq<nat>)
    decreases w
  {
    match w
    case First(i, kids) => 1 <= i <= |g| && i !in o && ExploredAll(g, Children(g[i - 1]), kids, o + [i])
    case Again(i) => i in o
  }

  ghost predicate ExploredAll(g: Graph, cs: seq<nat>, ws: Walks, o: seq<nat>)
    decreases ws
  {
    match ws
    case Done => cs == []
    case Next(w, rest) => cs != [] && w.node == cs[0] && Explored(g, w, o) && ExploredAll(g, cs[1..], rest, o + Firsts(w))
  }

  ghost function Unmet(g: Graph, o: seq<nat>): set<nat> {
    set i | 1 <= i <= |g| && i !in o
  }

  /** The walk from a node: it ends because meeting a node first uses it up. */
  ghost function Explore(g: Graph, i: nat, o: seq<nat>): (w: Walk)
    requires Sound(g) && 1 <= i <= |g|
    ensures Explored(g, w, o) && w.node == i
    decreases |Unmet(g, o)|, 0
  {
    if i in o then Again(i) else
      assert Unmet(g, o) == Unmet(g, o + [i]) + {i};
      First(i, ExploreAll(g, Children(g[i - 1]), o + [i]))
  }

  ghost function ExploreAll(g: Graph, cs: seq<nat>, o: seq<nat>): (ws: Walks)
    requires Sound(g) && forall k | 0 <= k < |cs| :: 1 <= cs[k] <= |g|
    ensures ExploredAll(g, cs, ws, o)
    decreases |Unmet(g, o)|, |cs|
  {
    if cs == [] then Done else
      var w := Explore(g, cs[0], o);
      Fewer(Unmet(g, o + Firsts(w)), Unmet(g, o));
      Next(w, ExploreAll(g, cs[1..], o + Firsts(w)))
  }

  // ----- what a walk covers -----

  ghost predicate Within(n: nat, s: seq<nat>) {
    forall k | 0 <= k < |s| :: 1 <= s[k] <= n
  }

  ghost predicate Covered(s: seq<nat>, o: seq<nat>) {
    forall x | x in s :: x in o
  }

  /** After the nodes in `o`, the nodes in `f` are first ones, once each; all those met,
      and the children asked for, are among them. */
  ghost predicate Covers(g: Graph, o: seq<nat>, f: seq<nat>, met: seq<nat>, cs: seq<nat>) {
    var all := o + f;
    NoRepeats(all) && Within(|g|, all) && Within(|g|, met) && Covered(met, all) && Covered(cs, all)
  }

  lemma CoversNone(g: Graph, o: seq<nat>)
    requires NoRepeats(o) && Within(|g|, o)
    ensures Covers(g, o, [], [], [])
  {
    assert o + [] == o;
  }

  lemma CoversAgain(g: Graph, o: seq<nat>, i: nat)
    requires NoRepeats(o) && Within(|g|, o) && i in o
    ensures Covers(g, o, [], [i], [i])
  {
    assert o + [] == o;
  }

  lemma CoversFirst(g: Graph, o: seq<nat>, i: nat, f: seq<nat>, met: seq<nat>, cs: seq<nat>)
    requires Covers(g, o + [i], f, met, cs)
    ensures Covers(g, o, [i] + f, [i] + met, [i])
  {
    assert o + ([i] + f) == (o + [i]) + f;
    assert (o + [i] + f)[|o|] == i;
  }

  lemma CoversThen(g: Graph, o: seq<nat>, f: seq<nat>, met: seq<nat>, c: nat, f': seq<nat>, met': seq<nat>, cs: seq<nat>)
    requires Covers(g, o, f, met, [c]) && Covers(g, o + f, f', met', cs)
    ensures Covers(g, o, f + f', met + met', [c] + cs)
  {
    assert o + (f + f') == (o + f) + f';
    assert c in [c];
  }

  lemma Extended(g: Graph, o: seq<nat>, i: nat)
    requires NoRepeats(o) && Within(|g|, o) && i !in o && 1 <= i <= |g|
    ensures NoRepeats(o + [i]) && Within(|g|, o + [i])
  {
  }

  lemma {:induction false} WalkCovers(g: Graph, w: Walk, o: seq<nat>)
    requires Explored(g, w, o) && NoRepeats(o) && Within(|g|, o)
    ensures Covers(g, o, Firsts(w), Met(w), [w.node])
    decreases w
  {
    hide Covers, NoRepeats, Within;
    match w
    case First(i, kids) =>
      Extended(g, o, i);
      WalksCover(g, Children(g[i - 1]), kids, o + [i]);
      CoversFirst(g, o, i, FirstsAll(kids), MetAll(kids), Children(g[i - 1]));
    case Again(i) =>
      CoversAgain(g, o, i);
  }

  lemma {:induction false} WalksCover(g: Graph, cs: seq<nat>, ws: Walks, o: seq<nat>)
    requires ExploredAll(g, cs, ws, o) && NoRepeats(o) && Within(|g|, o)
    ensures Covers(g, o, FirstsAll(ws), MetAll(ws), cs)
    decreases ws
  {
    hide Covers, NoRepeats, Within;
    match ws
    case Done =>
      CoversNone(g, o);
    case Next(w, rest) =>
      WalkCovers(g, w, o);
      CoveredSoFar(g, o, Firsts(w), Met(w), [w.node]);
      WalksCover(g, cs[1..], rest, o + Firsts(w));
      CoversThen(g, o, Firsts(w), Met(w), w.node, FirstsAll(rest), MetAll(rest), cs[1..]);
      assert cs == [cs[0]] + cs[1..];
  }

  lemma CoveredSoFar(g: Graph, o: seq<nat>, f: seq<nat>, met: seq<nat>, cs: seq<nat>)
    requires Covers(g, o, f, met, cs)
    ensures NoRepeats(o + f) && Within(|g|, o + f) && Within(|g|, met)
    ensures forall x | x in met || x in cs :: x in o + f
  {
  }

  // ----- going over the children of a node -----

  /** Part of the children are behind: `f` of them were met first, `met` met at all. */
  ghost predicate Along(g: Graph, cs: seq<nat>, kids: Walks, o: seq<nat>, k: nat, ws: Walks, f: seq<nat>, met: seq<nat>) {
    var left := |cs| - k;
    && 0 <= left && ExploredAll(g, cs[k..], ws, o + f) && NoRepeats(o + f) && Within(|g|, o + f)
    && FirstsAll(kids) == f + FirstsAll(ws) && MetAll(kids) == met + MetAll(ws) && SizeAll(ws) <= SizeAll(kids)
    && Within(|g|, met)
  }

  lemma AlongStart(g: Graph, cs: seq<nat>, kids: Walks, o: seq<nat>)
    requires ExploredAll(g, cs, kids, o) && NoRepeats(o) && Within(|g|, o)
    ensures Along(g, cs, kids, o, 0, kids, [], [])
  {
    hide ExploredAll, NoRepeats;
    assert o + [] == o && cs[0..] == cs;
    assert [] + FirstsAll(kids) == FirstsAll(kids) && [] + MetAll(kids) == MetAll(kids);
  }

  lemma AlongStep(g: Graph, cs: seq<nat>, kids: Walks, o: seq<nat>, k: nat, ws: Walks, f: seq<nat>, met: seq<nat>)
    requires Along(g, cs, kids, o, k, ws, f, met) && k < |cs|
    ensures ws.Next? && ws.head.node == cs[k] && Size(ws.head) <= SizeAll(kids) && Within(|g|, Met(ws.head)) && Within(|g|, met)
    ensures Explored(g, ws.head, o + f) && NoRepeats(o + f) && Within(|g|, o + f)
    ensures o + f + Firsts(ws.head) == o + (f + Firsts(ws.head))
    ensures Along(g, cs, kids, o, k + 1, ws.tail, f + Firsts(ws.head), met + Met(ws.head))
  {
    hide Explored, NoRepeats, Within, Met, Firsts, Covers;
    var w, rest := ws.head, ws.tail;
    WalkCovers(g, w, o + f);
    CoveredSoFar(g, o + f, Firsts(w), Met(w), [w.node]);
    WithinJoin(g, met, Met(w));
    assert cs[k..][1..] == cs[k + 1..];
    Reassociate(o, f, Firsts(w));
    Reassociate(f, Firsts(w), FirstsAll(rest));
    Reassociate(met, Met(w), MetAll(rest));
  }

  lemma Reassociate(a: seq<nat>, b: seq<nat>, c: seq<nat>)
    ensures a + b + c == a + (b + c)
  {
  }

  lemma AlongEnd(g: Graph, cs: seq<nat>, kids: Walks, o: seq<nat>, ws: Walks, f: seq<nat>, met: seq<nat>)
    requires Along(g, cs, kids, o, |cs|, ws, f, met)
    ensures ws.Done? && f == FirstsAll(kids) && met == MetAll(kids)
  {
    assert f + [] == f && met + [] == met;
  }

  lemma WithinJoin(g: Graph, s: seq<nat>, t: seq<nat>)
    requires Within(|g|, s) && Within(|g|, t)
    ensures Within(|g|, s + t)
  {
  }
}
