/** Whole documents: what dumping and loading promise together. */
module YamlDocument {
  import opened Collections
  import opened Options
  import opened YamlAnchors
  import opened YamlDumper
  import opened YamlGraph
  import opened YamlLoader
  import opened YamlReload
  import opened YamlRoundTrip

  // ----- the anchors of a dump -----

  /** A node met twice, counting those met before, has an anchor. */
  ghost predicate Enough(ids: Ids, met: seq<nat>, o: seq<nat>) {
    forall i | 1 <= i <= |ids| && Count(met, i) + (if i in o then 1 else 0) >= 2 :: ids[i - 1] != 0
  }

  lemma {:induction false} FirstsAreMet(w: Walk, x: nat)
    requires x in Firsts(w)
    ensures Count(Met(w), x) >= 1
    decreases w
  {
    if w.node != x {
      FirstsAllAreMet(w.kids, x);
    }
    assert Met(w)[1..] == MetAll(w.kids);
  }

  lemma {:induction false} FirstsAllAreMet(ws: Walks, x: nat)
    requires x in FirstsAll(ws)
    ensures Count(MetAll(ws), x) >= 1
    decreases ws
  {
    match ws
    case Next(w, rest) =>
      CountJoin(Met(w), MetAll(rest), x);
      if x in Firsts(w) {
        FirstsAreMet(w, x);
      } else {
        FirstsAllAreMet(rest, x);
      }
  }

  lemma {:induction false} WalkNamed(g: Graph, w: Walk, o: seq<nat>, ids: Ids)
    requires Explored(g, w, o) && NoRepeats(o) && Within(|g|, o) && |ids| == |g| && Enough(ids, Met(w), o)
    ensures Named(w, ids)
    decreases w
  {
    match w
    case First(i, kids) =>
      Extended(g, o, i);
      forall x | 1 <= x <= |ids| && Count(MetAll(kids), x) + (if x in o + [i] then 1 else 0) >= 2 ensures ids[x - 1] != 0 {
        assert Met(w)[1..] == MetAll(kids);
        assert Count(Met(w), x) + (if x in o then 1 else 0) >= 2;
      }
      WalksNamed(g, Children(g[i - 1]), kids, o + [i], ids);
    case Again(i) =>
      assert Count([i], i) == 1;
  }

  lemma {:induction false} WalksNamed(g: Graph, cs: seq<nat>, ws: Walks, o: seq<nat>, ids: Ids)
    requires ExploredAll(g, cs, ws, o) && NoRepeats(o) && Within(|g|, o) && |ids| == |g| && Enough(ids, MetAll(ws), o)
    ensures NamedAll(ws, ids)
    decreases ws
  {
    match ws
    case Done =>
    case Next(w, rest) =>
      hide NoRepeats, Within, Explored, Covers;
      WalkCovers(g, w, o);
      CoveredSoFar(g, o, Firsts(w), Met(w), [w.node]);
      forall x | 1 <= x <= |ids| && Count(Met(w), x) + (if x in o then 1 else 0) >= 2 ensures ids[x - 1] != 0 {
        CountJoin(Met(w), MetAll(rest), x);
        assert Count(MetAll(ws), x) + (if x in o then 1 else 0) >= 2;
      }
      WalkNamed(g, w, o, ids);
      forall x | 1 <= x <= |ids| && Count(MetAll(rest), x) + (if x in o + Firsts(w) then 1 else 0) >= 2 ensures ids[x - 1] != 0 {
        CountJoin(Met(w), MetAll(rest), x);
        if x in Firsts(w) {
          FirstsAreMet(w, x);
        }
        assert Count(MetAll(ws), x) + (if x in o then 1 else 0) >= 2;
      }
      WalksNamed(g, cs[1..], rest, o + Firsts(w), ids);
  }

  /** A node gets an anchor just when the walk meets it more than once, and no two nodes
      get the same. */
  lemma RootAnchors(g: Graph)
    requires Sound(g) && g != []
    ensures Unique(RootIds(g))
    ensures forall j | 0 <= j < |g| :: RootIds(g)[j] != 0 <==> Count(Met(RootWalk(g)), j + 1) >= 2
  {
    var zero, met := Anchoring(seq(|g|, _ => Mark(0, 0, false)), 0), Met(RootWalk(g));
    WalkCovers(g, RootWalk(g), []);
    CoveredSoFar(g, [], Firsts(RootWalk(g)), met, [1]);
    MetAnchored(zero, met);
    forall j | 0 <= j < |g| ensures RootAnchoring(g).marks[j].references == Count(met, j + 1) {
      MetCounted(zero, met, j);
    }
  }

  lemma RootNamed(g: Graph)
    requires Sound(g) && g != []
    ensures Named(RootWalk(g), RootIds(g))
  {
    hide RootWalk, RootIds;
    RootAnchors(g);
    RootExplored(g);
    WalkNamed(g, RootWalk(g), [], RootIds(g));
  }

  lemma RootExplored(g: Graph)
    requires Sound(g) && g != []
    ensures Explored(g, RootWalk(g), []) && RootWalk(g).node == 1
  {
  }

  // ----- dumping and loading -----

  /** The nodes in the order the dump meets them first. */
  ghost function Order(g: Graph): seq<nat>
    requires Sound(g) && g != []
  {
    Firsts(RootWalk(g))
  }

  /** A document within the limits its own stacks were built under. */
  ghost predicate Bounded(g: Graph) {
    |g| <= LIMIT && forall i | 0 <= i < |g| :: |Children(g[i])| <= Capacity(g[i])
  }

  /** Loading the events of a dump gives the nodes met, in order, under their new indices. */
  lemma DumpLoads(g: Graph)
    requires Sound(g) && g != [] && Bounded(g)
    ensures Steps(Loading([], [], []), Render(g, RootIds(g), RootWalk(g)))
      == Going(Loading(Loaded(g, Order(g), Order(g)), AliasesOf(Order(g), RootIds(g)), []))
  {
    hide RootWalk, RootIds, Render, Steps, Loaded, Positions, Explored, Named;
    var w, ids, st := RootWalk(g), RootIds(g), Loading([], [], []);
    RootExplored(g);
    RootAnchors(g);
    RootNamed(g);
    assert Ready(g, ids, [], st, 1);
    LoadWalk(g, ids, w, [], st);
    assert [] + Firsts(w) == Firsts(w);
    var l := Loaded(g, Order(g), Order(g));
    assert Hung([], 0, Positions(Order(g), [1])) == [] && [] + l == l;
  }

  lemma {:induction false} NoDocumentEnd(g: Graph, ids: Ids, w: Walk)
    requires |ids| == |g|
    ensures forall k | 0 <= k < |Render(g, ids, w)| :: Render(g, ids, w)[k] != DocumentEnd
    decreases w
  {
    if w.First? {
      NoDocumentEndAll(g, ids, w.kids);
    }
  }

  lemma {:induction false} NoDocumentEndAll(g: Graph, ids: Ids, ws: Walks)
    requires |ids| == |g|
    ensures forall k | 0 <= k < |RenderAll(g, ids, ws)| :: RenderAll(g, ids, ws)[k] != DocumentEnd
    decreases ws
  {
    if ws.Next? {
      NoDocumentEnd(g, ids, ws.head);
      NoDocumentEndAll(g, ids, ws.tail);
    }
  }

  /** A document through the dumper and back through the loader. */
  method Reload(document: Graph) returns (loaded: Graph)
    requires Sound(document) && document != [] && Bounded(document)
    ensures loaded == Loaded(document, Order(document), Order(document))
  {
    hide Render, RootWalk, RootIds, Steps, Loaded, Order;
    var dumper := new Dumper(document);
    dumper.Dump();
    var events := dumper.events;
    ghost var inner := Render(document, RootIds(document), RootWalk(document));
    Inside(document, events);
    DumpLoads(document);
    var loader := new Loader();
    var r := loader.LoadNodes(events[1..]);
    loaded := loader.nodes;
  }

  lemma Inside(g: Graph, events: seq<Event>)
    requires Sound(g) && g != [] && events == DumpOf(g)
    ensures |events| >= 2 && events[1..][|events| - 2] == DocumentEnd
    ensures forall k | 0 <= k < |events| - 2 :: events[1..][k] != DocumentEnd
    ensures events[1..][..|events| - 2] == Render(g, RootIds(g), RootWalk(g))
  {
    hide Render, RootIds, RootWalk;
    var inner := Render(g, RootIds(g), RootWalk(g));
    NoDocumentEnd(g, RootIds(g), RootWalk(g));
    assert events[1..] == inner + [DocumentEnd];
  }

  // ----- the graph that comes back -----

  lemma {:induction false} LoadedAt(g: Graph, f: seq<nat>, o: seq<nat>, k: nat)
    requires k < |f| && Within(|g|, f)
    ensures Loaded(g, f, o)[k] == Renamed(g[f[k] - 1], o)
  {
    if k > 0 {
      LoadedAt(g, f[1..], o, k - 1);
    }
  }

  lemma {:induction false} PositionsAt(o: seq<nat>, cs: seq<nat>, j: nat)
    requires j < |cs|
    ensures |Positions(o, cs)| == |cs| && Positions(o, cs)[j] == Pos(o, cs[j])
  {
    if |cs| > 1 {
      PositionsAt(o, cs[1..], if j > 0 then j - 1 else 0);
    }
  }

  lemma {:induction false} FlattenRenamed(pairs: seq<Pair>, o: seq<nat>)
    ensures Flatten(RenamedPairs(pairs, o)) == Positions(o, Flatten(pairs))
  {
    if pairs != [] {
      FlattenRenamed(pairs[1..], o);
      FlattenedHead(pairs, o);
      assert RenamedPairs(pairs, o)[1..] == RenamedPairs(pairs[1..], o);
    }
  }

  lemma ChildrenRenamed(n: Node, o: seq<nat>)
    ensures Children(Renamed(n, o)) == Positions(o, Children(n))
  {
    match n
    case Scalar(_, _) =>
    case Sequence(_, _) =>
    case Mapping(_, pairs) => FlattenRenamed(pairs, o);
  }

  /** The same kind of node with the same scalar value, and the tag as loading reads it. */
  ghost predicate Alike(n: Node, n': Node) {
    match n
    case Scalar(tag, value) => n' == Scalar(TagOr(Some(tag), SCALAR_TAG), value)
    case Sequence(tag, _) => n'.Sequence? && n'.tag == TagOr(Some(tag), SEQUENCE_TAG)
    case Mapping(tag, _) => n'.Mapping? && n'.tag == TagOr(Some(tag), MAPPING_TAG)
  }

  /** The order is a one-to-one correspondence between the loaded nodes and nodes of the
      document, root to root, that keeps kinds, values and the order of children. */
  lemma ReloadedIsomorphic(g: Graph, k: nat, j: nat)
    requires Sound(g) && g != [] && k < |Order(g)|
    ensures var o, l := Order(g), Loaded(g, Order(g), Order(g));
      && |l| == |o| && NoRepeats(o) && Within(|g|, o) && o[0] == 1
      && Alike(g[o[k] - 1], l[k])
      && |Children(l[k])| == |Children(g[o[k] - 1])|
      && (j < |Children(l[k])| ==>
        1 <= Children(l[k])[j] <= |o| && o[Children(l[k])[j] - 1] == Children(g[o[k] - 1])[j])
  {
    hide Renamed, Explored, Pos, Positions, Loaded, Closed, Covered;
    var o, w := Order(g), RootWalk(g);
    RootExplored(g);
    WalkCovers(g, w, []);
    CoveredSoFar(g, [], o, Met(w), [1]);
    assert [] + o == o;
    WalkClosed(g, w, []);
    var n := g[o[k] - 1];
    LoadedAt(g, o, o, k);
    ChildrenRenamed(n, o);
    PositionsLength(o, Children(n));
    RenamedAlike(n, o);
    if j < |Children(n)| {
      PositionsAt(o, Children(n), j);
      ClosedAt(g, o, o, k, j);
      PosFinds(o, Children(n)[j]);
    }
  }

  lemma RenamedAlike(n: Node, o: seq<nat>)
    ensures Alike(n, Renamed(n, o))
  {
  }

  lemma {:induction false} PositionsLength(o: seq<nat>, cs: seq<nat>)
    ensures |Positions(o, cs)| == |cs|
  {
    if cs != [] {
      PositionsLength(o, cs[1..]);
    }
  }

  lemma {:induction false} ClosedAt(g: Graph, f: seq<nat>, o: seq<nat>, k: nat, j: nat)
    requires Closed(g, f, o) && Within(|g|, f) && k < |f| && j < |Children(g[f[k] - 1])|
    ensures Children(g[f[k] - 1])[j] in o
  {
    if k > 0 {
      ClosedAt(g, f[1..], o, k - 1, j);
    }
  }

  /** Children can be followed from the root to a node. */
  ghost predicate Path(g: Graph, p: seq<nat>) {
    && p != [] && p[0] == 1 && Within(|g|, p)
    && forall k | 0 <= k < |p| - 1 :: p[k + 1] in Children(g[p[k] - 1])
  }

  ghost predicate Reachable(g: Graph, x: nat) {
    exists p :: Path(g, p) && p[|p| - 1] == x
  }

  lemma {:induction false} PathInOrder(g: Graph, o: seq<nat>, p: seq<nat>, k: nat)
    requires Path(g, p) && k < |p| && 1 in o && Within(|g|, o) && Closed(g, o, o)
    ensures p[k] in o
  {
    if k > 0 {
      PathInOrder(g, o, p, k - 1);
      var i :| 0 <= i < |o| && o[i] == p[k - 1];
      assert p[k - 1 + 1] in Children(g[p[k - 1] - 1]);
      var j :| 0 <= j < |Children(g[o[i] - 1])| && Children(g[o[i] - 1])[j] == p[k];
      ClosedAt(g, o, o, i, j);
    }
  }

  lemma {:induction false} FirstsReachable(g: Graph, w: Walk, o: seq<nat>, x: nat)
    requires Explored(g, w, o) && Reachable(g, w.node) && x in Firsts(w)
    ensures Reachable(g, x)
    decreases w
  {
    if w.node != x {
      FirstsAllReachable(g, w.node, Children(g[w.node - 1]), w.kids, o + [w.node], x);
    }
  }

  lemma {:induction false} FirstsAllReachable(g: Graph, parent: nat, cs: seq<nat>, ws: Walks, o: seq<nat>, x: nat)
    requires ExploredAll(g, cs, ws, o) && 1 <= parent <= |g| && Reachable(g, parent) && x in FirstsAll(ws)
    requires Covered(cs, Children(g[parent - 1]))
    ensures Reachable(g, x)
    decreases ws
  {
    match ws
    case Next(w, rest) =>
      TailCovered(cs, Children(g[parent - 1]));
      hide Covered, Reachable;
      if x in Firsts(w) {
        ChildReachable(g, parent, w.node);
        FirstsReachable(g, w, o, x);
      } else {
        FirstsAllReachable(g, parent, cs[1..], rest, o + Firsts(w), x);
      }
  }

  lemma TailCovered(cs: seq<nat>, o: seq<nat>)
    requires Covered(cs, o) && cs != []
    ensures cs[0] in o && Covered(cs[1..], o)
  {
    assert forall i | 0 <= i < |cs| - 1 :: cs[1..][i] == cs[i + 1];
  }

  lemma ChildReachable(g: Graph, parent: nat, c: nat)
    requires 1 <= parent <= |g| && Reachable(g, parent) && c in Children(g[parent - 1]) && 1 <= c <= |g|
    ensures Reachable(g, c)
  {
    var p :| Path(g, p) && p[|p| - 1] == parent;
    var p' := p + [c];
    assert forall k | 0 <= k < |p'| - 1 :: p'[k + 1] in Children(g[p'[k] - 1]) by {
      forall k | 0 <= k < |p'| - 1 ensures p'[k + 1] in Children(g[p'[k] - 1]) {
        assert k < |p| - 1 ==> p[k + 1] in Children(g[p[k] - 1]);
      }
    }
    assert Path(g, p') && p'[|p'| - 1] == c;
  }

  /** The nodes that come back are exactly those reachable from the root. */
  lemma OrderIsReachable(g: Graph, x: nat)
    requires Sound(g) && g != []
    ensures x in Order(g) <==> Reachable(g, x)
  {
    hide Explored, Reachable, Closed, RootWalk;
    OrderClosed(g);
    RootExplored(g);
    RootReachable(g);
    if x in Order(g) {
      FirstsReachable(g, RootWalk(g), [], x);
    }
    if Reachable(g, x) {
      ReachableInOrder(g, Order(g), x);
    }
  }

  lemma OrderClosed(g: Graph)
    requires Sound(g) && g != []
    ensures 1 in Order(g) && Within(|g|, Order(g)) && Closed(g, Order(g), Order(g))
  {
    hide Explored, Closed, RootWalk, Covers, NoRepeats, Within, Firsts, Met;
    var o, w := Order(g), RootWalk(g);
    RootExplored(g);
    NothingMet(g);
    WalkCovers(g, w, []);
    CoveredSoFar(g, [], o, Met(w), [1]);
    WalkClosed(g, w, []);
    assert [] + o == o && 1 in [1];
  }

  lemma NothingMet(g: Graph)
    ensures NoRepeats<nat>([]) && Within(|g|, [])
  {
  }

  lemma RootReachable(g: Graph)
    requires g != []
    ensures Reachable(g, 1)
  {
    var p: seq<nat> := [1];
    assert Path(g, p) && p[|p| - 1] == 1;
  }

  lemma ReachableInOrder(g: Graph, o: seq<nat>, x: nat)
    requires Reachable(g, x) && 1 in o && Within(|g|, o) && Closed(g, o, o)
    ensures x in o
  {
    var p :| Path(g, p) && p[|p| - 1] == x;
    PathInOrder(g, o, p, |p| - 1);
  }

  /** A tag survives unless it is the lone exclamation mark. */
  lemma TagKeptExactly(tag: string, default_: string)
    requires default_ in {SCALAR_TAG, SEQUENCE_TAG, MAPPING_TAG}
    ensures TagOr(Some(tag), default_) == tag <==> tag != "!"
  {
    assert |SCALAR_TAG| > 1 && |SEQUENCE_TAG| > 1 && |MAPPING_TAG| > 1;
  }

  /** A node tagged with the lone exclamation mark comes back with another tag. */
  lemma BangTagLost()
    ensures var g := [Scalar("!", "x")];
      Sound(g) && Order(g) == [1] && Loaded(g, [1], [1]) == [Scalar(SCALAR_TAG, "x")]
  {
    var g := [Scalar("!", "x")];
    assert Children(g[0]) == [];
    assert RootWalk(g) == First(1, Done);
    assert [1][1..] == [];
  }

  /** In a dump, every alias names an anchor given before it, and no anchor is given twice. */
  lemma DumpedAnchors(g: Graph, k: nat)
    requires Sound(g) && g != [] && Bounded(g) && k < |Render(g, RootIds(g), RootWalk(g))|
    ensures var events := Render(g, RootIds(g), RootWalk(g));
      && (events[k].Alias? ==> events[k].anchor.Some? && events[k].anchor.value in AllGiven(events[..k]))
      && (Given(events[k]).Some? ==> Given(events[k]).value !in AllGiven(events[..k]))
  {
    hide Render, RootIds, RootWalk, Steps, Loaded, AliasesOf;
    DumpLoads(g);
    AcceptedAnchors(Render(g, RootIds(g), RootWalk(g)), k);
  }
}
