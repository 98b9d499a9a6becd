/** Dumping a document: anchors are handed out in one walk, events issued in a second. */
module YamlDumper {
  import opened Collections
  import opened Options
  import opened YamlAnchors
  import opened YamlGraph

  const SCALAR_TAG: string := "tag:yaml.org,2002:str"
  const SEQUENCE_TAG: string := "tag:yaml.org,2002:seq"
  const MAPPING_TAG: string := "tag:yaml.org,2002:map"

  datatype Event =
    | DocumentStart
    | DocumentEnd
    | Alias(anchor: Option<string>)
    | ScalarEvent(anchor: Option<string>, tag: Option<string>, value: string, implicit_: bool)
    | SequenceStart(anchor: Option<string>, tag: Option<string>, implicit_: bool)
    | SequenceEnd
    | MappingStart(anchor: Option<string>, tag: Option<string>, implicit_: bool)
    | MappingEnd

  /** The anchor of each node, 0 for none. */
  type Ids = seq<nat>

  function AnchorOf(id: nat): Option<string> {
    if id == 0 then None else Some(AnchorText(id))
  }

  /** The event that opens a node. */
  function Opening(n: Node, id: nat): Event {
    match n
    case Scalar(tag, value) => ScalarEvent(AnchorOf(id), Some(tag), value, tag == SCALAR_TAG)
    case Sequence(tag, _) => SequenceStart(AnchorOf(id), Some(tag), tag == SEQUENCE_TAG)
    case Mapping(tag, _) => MappingStart(AnchorOf(id), Some(tag), tag == MAPPING_TAG)
  }

  /** The events that close a node. */
  function Closing(n: Node): seq<Event> {
    match n
    case Scalar(_, _) => []
    case Sequence(_, _) => [SequenceEnd]
    case Mapping(_, _) => [MappingEnd]
  }

  /** What a walk is dumped as. */
  ghost function Render(g: Graph, ids: Ids, w: Walk): seq<Event>
    requires |ids| == |g|
  {
    match w
    case First(i, kids) =>
      if 1 <= i <= |g| then [Opening(g[i - 1], ids[i - 1])] + RenderAll(g, ids, kids) + Closing(g[i - 1]) else []
    case Again(i) => if 1 <= i <= |g| then [Alias(AnchorOf(ids[i - 1]))] else []
  }

  ghost function RenderAll(g: Graph, ids: Ids, ws: Walks): seq<Event>
    requires |ids| == |g|
  {
    match ws
    case Done => []
    case Next(w, rest) => Render(g, ids, w) + RenderAll(g, ids, rest)
  }

  function IdsOf(marks: seq<Mark>): (r: Ids)
    ensures |r| == |marks|
  {
    seq(|marks|, i requires 0 <= i < |marks| => marks[i].anchor)
  }

  /** The nodes counted so far are those in `o`. */
  ghost predicate Counted(marks: seq<Mark>, o: seq<nat>) {
    forall j | 0 <= j < |marks| :: marks[j].references > 0 <==> j + 1 in o
  }

  /** The nodes dumped so far are those in `o`. */
  ghost predicate Serialized(marks: seq<Mark>, o: seq<nat>) {
    forall j | 0 <= j < |marks| :: marks[j].serialized <==> j + 1 in o
  }

  class Dumper {
    const document: Graph
    const anchors: array<Mark>
    var last: nat
    var events: seq<Event>

    constructor (document: Graph)
      ensures this.document == document && events == [] && last == 0 && fresh(anchors)
      ensures anchors[..] == seq(|document|, _ => Mark(0, 0, false))
    {
      this.document := document;
      anchors := new Mark[|document|](_ => Mark(0, 0, false));
      last, events := 0, [];
    }

    ghost function State(): Anchoring
      reads this, anchors
    {
      Anchoring(anchors[..], last)
    }

    /** Counts a node; follows its children the first time, gives it an anchor the second. */
    method AnchorNode(index: nat, ghost w: Walk, ghost o: seq<nat>)
      requires anchors.Length == |document| && Explored(document, w, o) && w.node == index
      requires NoRepeats(o) && Within(|document|, o) && Counted(anchors[..], o)
      modifies this`last, anchors
      ensures Within(anchors.Length, Met(w)) && State() == MeetSeq(old(State()), Met(w))
      ensures Counted(anchors[..], o + Firsts(w))
      decreases Size(w), 1
    {
      hide Explored, NoRepeats, Within, MeetSeq, Along, Children;
      ghost var base := State();
      Entering(document, w, o, base);
      var node := document[index - 1];
      anchors[index - 1] := anchors[index - 1].(references := anchors[index - 1].references + 1);
      if anchors[index - 1].references == 1 {
        AnchorChildren(node, w, o);
      } else if anchors[index - 1].references == 2 {
        last := last + 1;
        anchors[index - 1] := anchors[index - 1].(anchor := last);
      }
    }

    method AnchorChildren(node: Node, ghost w: Walk, ghost o: seq<nat>)
      requires anchors.Length == |document| && Explored(document, w, o) && w.First?
      requires 1 <= w.node <= |document| && node == document[w.node - 1]
      requires NoRepeats(o) && Within(|document|, o) && Counted(anchors[..], o + [w.node])
      modifies this`last, anchors
      ensures Within(anchors.Length, MetAll(w.kids)) && State() == MeetSeq(old(State()), MetAll(w.kids))
      ensures Counted(anchors[..], o + Firsts(w))
      decreases Size(w), 0
    {
      hide Explored, NoRepeats, Within, MeetSeq, Along, Progress, Counted, Firsts, MetAll;
      ghost var base := State();
      ghost var o1, ws, f, met: seq<nat> := o + [w.node], w.kids, [], [];
      ProgressStart(document, w, o, base);
      match node {
        case Sequence(_, items) =>
          for k := 0 to |items|
            invariant Progress(State(), base, document, w, o1, k, ws, f, met)
          {
            ws, f, met := AnchorChild(items[k], w, o1, k, base, ws, f, met);
          }
        case Mapping(_, pairs) =>
          for k := 0 to |pairs|
            invariant Progress(State(), base, document, w, o1, 2 * k, ws, f, met)
          {
            ws, f, met := AnchorChild(pairs[k].key, w, o1, 2 * k, base, ws, f, met);
            ws, f, met := AnchorChild(pairs[k].value, w, o1, 2 * k + 1, base, ws, f, met);
          }
        case Scalar(_, _) =>
      }
      ProgressEnd(State(), base, document, w, o, ws, f, met);
    }

    method AnchorChild(child: nat, ghost w: Walk, ghost o: seq<nat>, ghost k: nat, ghost base: Anchoring,
                       ghost ws: Walks, ghost f: seq<nat>, ghost met: seq<nat>)
      returns (ghost ws': Walks, ghost f': seq<nat>, ghost met': seq<nat>)
      requires anchors.Length == |document| && Progress(State(), base, document, w, o, k, ws, f, met)
      requires k < |Children(document[w.node - 1])| && child == Children(document[w.node - 1])[k]
      modifies this`last, anchors
      ensures Progress(State(), base, document, w, o, k + 1, ws', f', met')
      decreases SizeAll(w.kids), 2
    {
      hide Explored, NoRepeats, Within, MeetSeq, Along, Counted;
      AlongStep(document, Children(document[w.node - 1]), w.kids, o, k, ws, f, met);
      AnchorNode(child, ws.head, o + f);
      MeetJoin(base, met, Met(ws.head));
      ws', f', met' := ws.tail, f + Firsts(ws.head), met + Met(ws.head);
    }

    /** Issues the events of a node: an alias if it was dumped before, else its own. */
    method DumpNode(index: nat, ghost w: Walk, ghost o: seq<nat>, ghost ids: Ids)
      requires anchors.Length == |document| && Explored(document, w, o) && w.node == index
      requires NoRepeats(o) && Within(|document|, o) && Dumped(anchors[..], ids, o)
      modifies this`events, anchors
      ensures |ids| == |document| && events == old(events) + Render(document, ids, w)
      ensures Dumped(anchors[..], ids, o + Firsts(w))
      decreases Size(w), 1
    {
      hide Explored, NoRepeats, Within, Along, Render, RenderAll, Opening, Dumped, Firsts;
      Starting(document, w, o, anchors[..], ids);
      Rendered(document, ids, w, events);
      var node := document[index - 1];
      var anchor := AnchorOf(anchors[index - 1].anchor);
      if anchors[index - 1].serialized {
        events := events + [Alias(anchor)];
        return;
      }
      ghost var start := events;
      anchors[index - 1] := anchors[index - 1].(serialized := true);
      events := events + [Opening(node, anchors[index - 1].anchor)];
      DumpChildren(node, w, o, ids);
      events := events + Closing(node);
      assert events == start + [Opening(node, ids[index - 1])] + RenderAll(document, ids, w.kids) + Closing(node);
    }

    method DumpChildren(node: Node, ghost w: Walk, ghost o: seq<nat>, ghost ids: Ids)
      requires anchors.Length == |document| && Explored(document, w, o) && w.First?
      requires 1 <= w.node <= |document| && node == document[w.node - 1]
      requires NoRepeats(o) && Within(|document|, o) && Dumped(anchors[..], ids, o + [w.node])
      modifies this`events, anchors
      ensures |ids| == |document| && events == old(events) + RenderAll(document, ids, w.kids)
      ensures Dumped(anchors[..], ids, o + Firsts(w))
      decreases Size(w), 0
    {
      hide Explored, NoRepeats, Within, Along, RenderAll, Dumping, Dumped, Firsts;
      ghost var base := events;
      ghost var o1, ws, f, met: seq<nat> := o + [w.node], w.kids, [], [];
      DumpingStart(document, w, o, anchors[..], ids, base);
      match node {
        case Scalar(_, _) =>
        case Sequence(_, items) =>
          for k := 0 to |items|
            invariant Dumping(anchors[..], events, base, ids, document, w, o1, k, ws, f, met)
          {
            ws, f, met := DumpChild(items[k], w, o1, ids, k, base, ws, f, met);
          }
        case Mapping(_, pairs) =>
          for k := 0 to |pairs|
            invariant Dumping(anchors[..], events, base, ids, document, w, o1, 2 * k, ws, f, met)
          {
            ws, f, met := DumpChild(pairs[k].key, w, o1, ids, 2 * k, base, ws, f, met);
            ws, f, met := DumpChild(pairs[k].value, w, o1, ids, 2 * k + 1, base, ws, f, met);
          }
      }
      DumpingEnd(anchors[..], events, base, ids, document, w, o, ws, f, met);
    }

    method DumpChild(child: nat, ghost w: Walk, ghost o: seq<nat>, ghost ids: Ids, ghost k: nat, ghost base: seq<Event>,
                     ghost ws: Walks, ghost f: seq<nat>, ghost met: seq<nat>)
      returns (ghost ws': Walks, ghost f': seq<nat>, ghost met': seq<nat>)
      requires anchors.Length == |document| && Dumping(anchors[..], events, base, ids, document, w, o, k, ws, f, met)
      requires k < |Children(document[w.node - 1])| && child == Children(document[w.node - 1])[k]
      modifies this`events, anchors
      ensures Dumping(anchors[..], events, base, ids, document, w, o, k + 1, ws', f', met')
      decreases SizeAll(w.kids), 2
    {
      hide Explored, NoRepeats, Within, Along, Render, Dumped;
      AlongStep(document, Children(document[w.node - 1]), w.kids, o, k, ws, f, met);
      ghost var was := events;
      DumpNode(child, ws.head, o + f, ids);
      Longer(document, ids, w.kids, ws, was, events, base);
      ws', f', met' := ws.tail, f + Firsts(ws.head), met + Met(ws.head);
    }

    /** Dumps the document: from DOCUMENT-START to DOCUMENT-END, unless it is empty. */
    method Dump()
      requires Sound(document) && events == [] && last == 0
      requires anchors.Length == |document| && forall j | 0 <= j < anchors.Length :: anchors[j] == Mark(0, 0, false)
      modifies this, anchors
      ensures events == DumpOf(document)
    {
      hide Explored, Render, MeetSeq, Met, Firsts, NoRepeats, Within, Counted, Dumped, RootWalk, RootAnchoring, RootIds, DumpOf;
      if |document| == 0 {
        NothingToDump(document);
        return;
      }
      ghost var w, zero := RootWalk(document), Anchoring(anchors[..], 0);
      AllUnmarked(document, anchors[..]);
      events := events + [DocumentStart];
      assert State() == zero;
      AnchorNode(1, w, []);
      Marked(document, zero, State());
      DumpNode(1, w, [], RootIds(document));
      events := events + [DocumentEnd];
      Assembled(document, events);
    }
  }

  /** The ids are those of the marks, and the nodes dumped so far are those in `o`. */
  ghost predicate Dumped(marks: seq<Mark>, ids: Ids, o: seq<nat>) {
    var n := |marks|;
    |ids| == n && Serialized(marks, o) && forall j | 0 <= j < n :: ids[j] == marks[j].anchor
  }

  lemma Rendered(g: Graph, ids: Ids, w: Walk, before: seq<Event>)
    requires 1 <= w.node <= |g| == |ids|
    ensures w.Again? ==> Render(g, ids, w) == [Alias(AnchorOf(ids[w.node - 1]))]
    ensures w.First? ==> var n := g[w.node - 1];
      before + Render(g, ids, w) == before + [Opening(n, ids[w.node - 1])] + RenderAll(g, ids, w.kids) + Closing(n)
  {
    hide RenderAll, Opening, AnchorOf;
  }

  lemma Starting(g: Graph, w: Walk, o: seq<nat>, marks: seq<Mark>, ids: Ids)
    requires Explored(g, w, o) && NoRepeats(o) && Within(|g|, o) && Dumped(marks, ids, o) && |marks| == |g|
    ensures var i := w.node;
      1 <= i <= |g| == |ids| && (w.Again? <==> i in o) && ids[i - 1] == marks[i - 1].anchor && (i in o <==> marks[i - 1].serialized)
    ensures w.Again? ==> Firsts(w) == [] && Dumped(marks, ids, o + Firsts(w))
    ensures w.First? ==> Dumped(marks[w.node - 1 := marks[w.node - 1].(serialized := true)], ids, o + [w.node])
  {
    hide Explored, ExploredAll, NoRepeats, Within, Along, MeetSeq, Met, Children, Counted;
    Entering(g, w, o, Anchoring(marks, 0));
    assert o + [] == o;
  }

  /** The children of a node are being dumped: where the walk, the marks and the events are. */
  ghost predicate Dumping(marks: seq<Mark>, events: seq<Event>, base: seq<Event>, ids: Ids,
                          g: Graph, w: Walk, o: seq<nat>, k: nat, ws: Walks, f: seq<nat>, met: seq<nat>)
    ensures Dumping(marks, events, base, ids, g, w, o, k, ws, f, met) ==> w.First? && 1 <= w.node <= |g| == |ids|
  {
    var n := |g|;
    && w.First? && 1 <= w.node <= n == |ids| && Dumped(marks, ids, o + f)
    && Along(g, Children(g[w.node - 1]), w.kids, o, k, ws, f, met)
    && events + RenderAll(g, ids, ws) == base + RenderAll(g, ids, w.kids)
  }

  lemma DumpingStart(g: Graph, w: Walk, o: seq<nat>, marks: seq<Mark>, ids: Ids, base: seq<Event>)
    requires Explored(g, w, o) && NoRepeats(o) && Within(|g|, o) && |marks| == |g| && w.First?
    requires Dumped(marks, ids, o + [w.node])
    ensures Dumping(marks, base, base, ids, g, w, o + [w.node], 0, w.kids, [], [])
  {
    Entering(g, w, o, Anchoring(marks, 0));
    assert o + [w.node] + [] == o + [w.node];
  }

  lemma DumpingEnd(marks: seq<Mark>, events: seq<Event>, base: seq<Event>, ids: Ids,
                   g: Graph, w: Walk, o: seq<nat>, ws: Walks, f: seq<nat>, met: seq<nat>)
    requires w.First? && 1 <= w.node <= |g|
    requires Dumping(marks, events, base, ids, g, w, o + [w.node], |Children(g[w.node - 1])|, ws, f, met)
    ensures |ids| == |g| && events == base + RenderAll(g, ids, w.kids) && Dumped(marks, ids, o + Firsts(w))
  {
    hide Along, Dumped;
    AlongEnd(g, Children(g[w.node - 1]), w.kids, o + [w.node], ws, f, met);
    assert o + [w.node] + f == o + Firsts(w);
    assert events + [] == events;
  }

  lemma Longer(g: Graph, ids: Ids, kids: Walks, ws: Walks, was: seq<Event>, events: seq<Event>, base: seq<Event>)
    requires |ids| == |g| && ws.Next? && events == was + Render(g, ids, ws.head)
    requires was + RenderAll(g, ids, ws) == base + RenderAll(g, ids, kids)
    ensures events + RenderAll(g, ids, ws.tail) == base + RenderAll(g, ids, kids)
  {
    hide Render;
    assert RenderAll(g, ids, ws) == Render(g, ids, ws.head) + RenderAll(g, ids, ws.tail);
  }

  // ----- the whole document -----

  ghost function RootWalk(g: Graph): Walk
    requires Sound(g) && g != []
  {
    Explore(g, 1, [])
  }

  ghost function RootAnchoring(g: Graph): (a: Anchoring)
    requires Sound(g) && g != []
    ensures |a.marks| == |g|
  {
    WalkCovers(g, RootWalk(g), []);
    MeetSeq(Anchoring(seq(|g|, _ => Mark(0, 0, false)), 0), Met(RootWalk(g)))
  }

  ghost function RootIds(g: Graph): (ids: Ids)
    requires Sound(g) && g != []
    ensures |ids| == |g|
  {
    IdsOf(RootAnchoring(g).marks)
  }

  lemma AllUnmarked(g: Graph, marks: seq<Mark>)
    requires Sound(g) && g != []
    requires |marks| == |g| && forall j | 0 <= j < |marks| :: marks[j] == Mark(0, 0, false)
    ensures marks == seq(|g|, _ => Mark(0, 0, false)) && Counted(marks, []) && NoRepeats<nat>([]) && Within(|g|, [])
    ensures Explored(g, RootWalk(g), []) && RootWalk(g).node == 1
    ensures Firsts(RootWalk(g)) == [] + Firsts(RootWalk(g))
  {
  }

  lemma Marked(g: Graph, zero: Anchoring, a: Anchoring)
    requires Sound(g) && g != [] && zero == Anchoring(seq(|g|, _ => Mark(0, 0, false)), 0)
    requires Within(|g|, Met(RootWalk(g))) && a == MeetSeq(zero, Met(RootWalk(g)))
    ensures Dumped(a.marks, RootIds(g), [])
  {
    forall j | 0 <= j < |a.marks| ensures !a.marks[j].serialized {
      MetCounted(zero, Met(RootWalk(g)), j);
    }
  }

  /** The events a document is dumped as. */
  ghost function DumpOf(g: Graph): seq<Event>
    requires Sound(g)
  {
    if g == [] then [] else [DocumentStart] + Render(g, RootIds(g), RootWalk(g)) + [DocumentEnd]
  }

  /** The children of a node are being followed: where the walk and the marks are. */
  ghost predicate Progress(a: Anchoring, base: Anchoring, g: Graph, w: Walk, o: seq<nat>, k: nat, ws: Walks, f: seq<nat>, met: seq<nat>)
    ensures Progress(a, base, g, w, o, k, ws, f, met) ==> w.First? && 1 <= w.node <= |g|
  {
    var n := |g|;
    && w.First? && 1 <= w.node <= n == |base.marks| && Within(n, met) && a == MeetSeq(base, met)
    && Along(g, Children(g[w.node - 1]), w.kids, o, k, ws, f, met) && Counted(a.marks, o + f)
  }

  lemma ProgressStart(g: Graph, w: Walk, o: seq<nat>, a: Anchoring)
    requires Explored(g, w, o) && NoRepeats(o) && Within(|g|, o) && |a.marks| == |g| && w.First?
    requires Counted(a.marks, o + [w.node])
    ensures Progress(a, a, g, w, o + [w.node], 0, w.kids, [], [])
  {
    Entering(g, w, o, a);
    MeetNone(a);
    assert o + [w.node] + [] == o + [w.node];
  }

  lemma ProgressEnd(a: Anchoring, base: Anchoring, g: Graph, w: Walk, o: seq<nat>, ws: Walks, f: seq<nat>, met: seq<nat>)
    requires w.First? && 1 <= w.node <= |g|
    requires Progress(a, base, g, w, o + [w.node], |Children(g[w.node - 1])|, ws, f, met)
    ensures |base.marks| == |g| && Within(|g|, MetAll(w.kids)) && a == MeetSeq(base, MetAll(w.kids))
    ensures Counted(a.marks, o + Firsts(w))
  {
    hide Along, Counted, Within, MeetSeq;
    AlongEnd(g, Children(g[w.node - 1]), w.kids, o + [w.node], ws, f, met);
    assert o + [w.node] + f == o + Firsts(w);
  }

  lemma MeetNone(a: Anchoring)
    ensures Within(|a.marks|, []) && MeetSeq(a, []) == a
  {
  }

  /** What is known on entering a node: its place, and whether it was met before. */
  lemma Entering(g: Graph, w: Walk, o: seq<nat>, a: Anchoring)
    requires Explored(g, w, o) && NoRepeats(o) && Within(|g|, o) && |a.marks| == |g|
    ensures 1 <= w.node <= |g| && (w.Again? <==> w.node in o) && Within(|g|, Met(w))
    ensures w.Again? ==> Met(w) == [w.node] && Firsts(w) == [] && MeetSeq(a, Met(w)) == Meet(a, w.node)
    ensures w.First? ==> var i := w.node;
      && Met(w) == [i] + MetAll(w.kids) && Firsts(w) == [i] + FirstsAll(w.kids)
      && Within(|g|, MetAll(w.kids)) && MeetSeq(a, Met(w)) == MeetSeq(Meet(a, i), MetAll(w.kids))
      && ExploredAll(g, Children(g[i - 1]), w.kids, o + [i]) && NoRepeats(o + [i]) && Within(|g|, o + [i])
      && Along(g, Children(g[i - 1]), w.kids, o + [i], 0, w.kids, [], [])
  {
    hide Along, Covers, Covered, Meet;
    WalkCovers(g, w, o);
    CoveredSoFar(g, o, Firsts(w), Met(w), [w.node]);
    if w.First? {
      var i := w.node;
      Extended(g, o, i);
      AlongStart(g, Children(g[i - 1]), w.kids, o + [i]);
      MeetFirst(a, i, MetAll(w.kids));
    } else {
      MeetFirst(a, w.node, []);
      assert [w.node] + [] == [w.node];
    }
  }

  lemma MeetFirst(a: Anchoring, i: nat, met: seq<nat>)
    requires Within(|a.marks|, [i] + met)
    ensures 1 <= i <= |a.marks| && Within(|a.marks|, met)
    ensures MeetSeq(a, [i] + met) == MeetSeq(Meet(a, i), met) && MeetSeq(a, []) == a
  {
    hide Meet;
    var s := [i] + met;
    assert s[0] == i && s[1..] == met;
    assert forall k | 0 <= k < |met| :: met[k] == s[k + 1];
  }

  lemma NothingToDump(g: Graph)
    requires g == []
    ensures Sound(g) && DumpOf(g) == []
  {
  }

  lemma Assembled(g: Graph, events: seq<Event>)
    requires Sound(g) && g != []
    requires events == [] + [DocumentStart] + Render(g, RootIds(g), RootWalk(g)) + [DocumentEnd]
    ensures events == DumpOf(g)
  {
    hide Render;
    assert [] + [DocumentStart] == [DocumentStart];
  }
}
