/** From the dumper to the emitter: the events of dumped documents are well nested, and the
    emitter takes them all. */
module YamlDumped {
  import opened Options
  import opened YamlGraph
  import opened YamlNesting
  import opened YamlParsed
  import D = YamlDumper
  import E = YamlEmitter
  import P = YamlParser
  import YamlDocument
  import YamlReload

  type Parsed = P.Parsed
  type Ids = D.Ids

  lemma {:induction false} WrapJoin(a: seq<D.Event>, b: seq<D.Event>)
    ensures Wrap(a + b) == Wrap(a) + Wrap(b)
    decreases |a|
  {
    if a == [] {
      assert a + b == b;
    } else {
      assert (a + b)[1..] == a[1..] + b;
      WrapJoin(a[1..], b);
    }
  }

  lemma NestedOne(n: Nest, e: D.Event)
    ensures Nested(n, Wrap([e])) == Accept(n, P.Inside(e))
  {
    hide Accept;
    assert [e][1..] == [] && [P.Inside(e)][1..] == [];
  }

  /** An open collection with so many children more. */
  function Grown(n: Nest, k: nat): Nest
    requires n != []
  {
    if Top(n).Map? && k % 2 == 1 then Under(n) + [Map(!Top(n).odd)] else n
  }

  lemma Fills(n: Nest)
    requires n != [] && (Top(n).Seq? || Top(n).Map?)
    ensures Fill(n) == Some(Grown(n, 1)) && Top(Grown(n, 1)).Seq? == Top(n).Seq? && Top(Grown(n, 1)).Map? == Top(n).Map?
    ensures forall k: nat :: Grown(Grown(n, 1), k) == Grown(n, 1 + k)
  {
  }

  // ----- a node and what is below it -----

  /** A walk is dumped as one node. */
  lemma {:induction false} WalkNests(g: Graph, ids: Ids, w: Walk, o: seq<nat>, n: Nest)
    requires |ids| == |g| && Explored(g, w, o) && YamlReload.Named(w, ids) && Fill(n).Some?
    ensures Nested(n, Wrap(D.Render(g, ids, w))) == Fill(n)
    decreases w
  {
    hide Fill;
    match w
    case Again(i) =>
      NestedOne(n, D.Alias(D.AnchorOf(ids[i - 1])));
    case First(i, kids) =>
      var node, inside := g[i - 1], D.RenderAll(g, ids, kids);
      var open, close := D.Opening(node, ids[i - 1]), D.Closing(node);
      NestedOne(n, open);
      WrapJoin([open] + inside, close);
      WrapJoin([open], inside);
      NestedJoin(n, Wrap([open] + inside), Wrap(close));
      NestedJoin(n, Wrap([open]), Wrap(inside));
      if node.Scalar? {
        assert inside == [] && Nested(Fill(n).value, Wrap([])) == Fill(n);
      } else {
        var m := Accept(n, P.Inside(open)).value;
        CollectionOpens(n, node, ids[i - 1]);
        WalksNest(g, ids, Children(node), kids, o + [i], m);
        NestedOne(m, close[0]);
      }
  }

  lemma CollectionOpens(n: Nest, node: Node, id: nat)
    requires Fill(n).Some? && !node.Scalar?
    ensures var m, close := Accept(n, P.Inside(D.Opening(node, id))), D.Closing(node);
      && m.Some? && m.value != [] && (Top(m.value).Seq? || Top(m.value).Map?) && |close| == 1
      && Grown(m.value, |Children(node)|) == m.value && Accept(m.value, P.Inside(close[0])) == Fill(n)
  {
    hide Fill;
    var m := Accept(n, P.Inside(D.Opening(node, id))).value;
    assert Under(m) == Fill(n).value;
  }

  lemma {:induction false} WalksNest(g: Graph, ids: Ids, cs: seq<nat>, ws: Walks, o: seq<nat>, n: Nest)
    requires |ids| == |g| && ExploredAll(g, cs, ws, o) && YamlReload.NamedAll(ws, ids)
    requires n != [] && (Top(n).Seq? || Top(n).Map?)
    ensures Nested(n, Wrap(D.RenderAll(g, ids, ws))) == Some(Grown(n, |cs|))
    decreases ws
  {
    hide Fill, Grown;
    match ws
    case Done => GrownNone(n);
    case Next(w, rest) =>
      var a, b := D.Render(g, ids, w), D.RenderAll(g, ids, rest);
      Fills(n);
      WrapJoin(a, b);
      NestedJoin(n, Wrap(a), Wrap(b));
      WalkNests(g, ids, w, o, n);
      GrownSome(n, 1);
      WalksNest(g, ids, cs[1..], rest, o + Firsts(w), Grown(n, 1));
  }

  lemma GrownNone(n: Nest)
    requires n != []
    ensures Grown(n, 0) == n && Nested(n, []) == Some(n)
  {
  }

  lemma GrownSome(n: Nest, k: nat)
    requires n != []
    ensures Grown(n, k) != []
  {
  }

  // ----- documents and streams -----

  /** The events of a document keep the stream well nested, and leave no document open. */
  lemma DumpNests(g: Graph)
    requires YamlGraph.Sound(g) && g != []
    ensures Nested([Stream], Wrap(D.DumpOf(g))) == Some([Stream])
  {
    hide D.Render, D.RootWalk, D.RootIds, Explored, YamlReload.Named;
    YamlDocument.RootExplored(g);
    YamlDocument.RootNamed(g);
    var inside := D.Render(g, D.RootIds(g), D.RootWalk(g));
    WrapJoin([D.DocumentStart] + inside, [D.DocumentEnd]);
    WrapJoin([D.DocumentStart], inside);
    NestedJoin([Stream], Wrap([D.DocumentStart] + inside), Wrap([D.DocumentEnd]));
    NestedJoin([Stream], Wrap([D.DocumentStart]), Wrap(inside));
    NestedOne([Stream], D.DocumentStart);
    WalkNests(g, D.RootIds(g), D.RootWalk(g), [], [Stream, Doc(false)]);
    NestedOne([Stream, Doc(true)], D.DocumentEnd);
    assert Fill([Stream, Doc(false)]) == Some([Stream, Doc(true)]);
  }

  ghost predicate AllSound(docs: seq<Graph>) {
    forall i | 0 <= i < |docs| :: YamlGraph.Sound(docs[i])
  }

  /** Documents dumped one after another, then the end; an empty document is the end. */
  ghost function Dumps(docs: seq<Graph>): seq<Parsed>
    requires AllSound(docs)
  {
    if docs == [] || docs[0] == [] then [P.StreamEnd] else Wrap(D.DumpOf(docs[0])) + Dumps(docs[1..])
  }

  lemma {:induction false} DumpsNest(docs: seq<Graph>)
    requires AllSound(docs)
    ensures Nested([Stream], Dumps(docs)) == Some([Over])
    decreases |docs|
  {
    hide D.DumpOf;
    if docs == [] || docs[0] == [] {
      assert [P.StreamEnd][1..] == [];
    } else {
      DumpNests(docs[0]);
      DumpsNest(docs[1..]);
      NestedJoin([Stream], Wrap(D.DumpOf(docs[0])), Dumps(docs[1..]));
    }
  }

  /** Whatever documents are dumped, the emitter takes all their events to the end of the
      stream, and is back at its starting depth. */
  lemma DumpsAreEmitted(docs: seq<Graph>, gs: seq<E.Given>, best: int, canonical: bool)
    requires AllSound(docs) && E.AllFine(gs) && E.EventsOf(gs) == [P.StreamStart] + Dumps(docs)
    ensures var f := E.Feed(E.Fresh(best, canonical), [], gs);
      f.r.Went? && f.left == [] && f.taken == gs
      && f.r.m.mode.Finished? && f.r.m.modes == [] && f.r.m.indents == [] && f.r.m.indent == -1 && f.r.m.flowLevel == 0
  {
    hide Dumps, E.Feed;
    DumpsNest(docs);
    NestedJoin([], [P.StreamStart], Dumps(docs));
    assert [P.StreamStart][1..] == [] && [] + gs == gs;
    var m := E.Fresh(best, canonical);
    E.FeedRight(m, [], gs);
    E.OverIsEnd(E.Feed(m, [], gs).r.m);
  }
}
