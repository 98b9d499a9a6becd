/** How the emitter lays out what it writes: which collections are in flow style, and by how
    much each is indented. */
module YamlLayout {
  import opened Options
  import D = YamlDumper
  import opened YamlNesting
  import opened P = YamlParser
  import opened YamlEmitter

  /** In flow style, the collection entered or not. */
  predicate IsFlow(s: Mode) {
    s.FlowItemFirst? || s.FlowKeyFirst? || InFlow(s)
  }

  /** What is inside a flow collection is in flow style too. */
  predicate Inherits(ms: seq<Mode>, k: nat)
    requires k + 1 < |ms|
  {
    IsFlow(ms[k]) ==> IsFlow(ms[k + 1])
  }

  /** The outermost collection of a document is not indented, or by one step in flow style;
      any other by one step more than what is around it, but a block sequence may stand as
      far left as that. */
  predicate Indented(ms: seq<Mode>, xs: seq<int>, best: int, k: nat)
    requires k + 1 < |ms| && k + 1 < |xs|
  {
    if xs[k] < 0 then xs[k + 1] == if IsFlow(ms[k + 1]) then best else 0
    else xs[k + 1] == xs[k] + best || (ms[k + 1].BlockItem? && xs[k + 1] == xs[k])
  }

  /** The modes around, outermost first, and the indentation of each. */
  ghost predicate LaidOut(ms: seq<Mode>, xs: seq<int>, best: int, canonical: bool) {
    && 1 <= |xs| <= |ms| && xs[0] == -1 && 2 <= best <= 9
    && (forall k: nat | k + 1 < |ms| :: Inherits(ms, k))
    && (canonical ==> forall k | 1 <= k < |ms| :: IsFlow(ms[k]))
    && (forall k: nat | k + 1 < |xs| :: Indented(ms, xs, best, k))
  }

  ghost predicate Laid(m: Emitter) {
    m.mode.Beginning? || (2 <= m.best <= 9 && (Aside(m.mode) || LaidOut(m.modes + [m.mode], m.indents + [m.indent], m.best, m.canonical)))
  }

  // ----- one thing more, or less, around -----

  lemma Within(ms: seq<Mode>, xs: seq<int>, best: int, canonical: bool, n: nat, j: nat)
    requires LaidOut(ms, xs, best, canonical) && 1 <= j <= n <= |ms| && j <= |xs|
    ensures LaidOut(ms[..n], xs[..j], best, canonical)
  {
    var ms', xs' := ms[..n], xs[..j];
    forall k: nat | k + 1 < n ensures Inherits(ms', k) { assert Inherits(ms, k); }
    forall k: nat | k + 1 < j ensures Indented(ms', xs', best, k) { assert Indented(ms, xs, best, k); }
  }

  /** Another mode of the same collection. */
  lemma Instead(ms: seq<Mode>, xs: seq<int>, best: int, canonical: bool, s: Mode)
    requires LaidOut(ms, xs, best, canonical)
    requires var t := ms[|ms| - 1]; IsFlow(t) == IsFlow(s) && (|xs| == |ms| ==> t.BlockItem? ==> s.BlockItem?)
    ensures LaidOut(ms[..|ms| - 1] + [s], xs, best, canonical)
  {
    var ms' := ms[..|ms| - 1] + [s];
    hide IsFlow;
    forall k: nat | k + 1 < |ms| ensures Inherits(ms', k) { assert Inherits(ms, k); }
    forall k: nat | k + 1 < |xs| ensures Indented(ms', xs, best, k) { assert Indented(ms, xs, best, k); }
  }

  /** A collection inside. */
  lemma Inward(ms: seq<Mode>, xs: seq<int>, best: int, canonical: bool, s: Mode)
    requires LaidOut(ms, xs, best, canonical) && (IsFlow(ms[|ms| - 1]) || canonical ==> IsFlow(s))
    ensures LaidOut(ms + [s], xs, best, canonical)
  {
    var ms' := ms + [s];
    hide IsFlow;
    forall k: nat | k + 1 < |ms'| ensures Inherits(ms', k) { if k + 1 < |ms| { assert Inherits(ms, k); } }
    forall k: nat | k + 1 < |xs| ensures Indented(ms', xs, best, k) { assert Indented(ms, xs, best, k); }
  }

  /** The indentation of the innermost collection. */
  lemma Deeper(ms: seq<Mode>, xs: seq<int>, best: int, canonical: bool, x: int)
    requires LaidOut(ms, xs, best, canonical) && |xs| == |ms| - 1
    requires Indented(ms, xs + [x], best, |xs| - 1)
    ensures LaidOut(ms, xs + [x], best, canonical)
  {
    var xs' := xs + [x];
    forall k: nat | k + 1 < |xs'| ensures Indented(ms, xs', best, k) { if k + 1 < |xs| { assert Indented(ms, xs, best, k); } }
  }

  // ----- step by step -----

  /** A node where one is due, with the mode pushed for what comes after it. */
  lemma NodeLaid(m: Emitter, g: Given, empty: bool)
    requires m.modes != [] && NodeAdvance(m, g, empty).Went? && LaidOut(m.modes, m.indents + [m.indent], m.best, m.canonical)
    requires m.flowLevel == Flows(m.modes) && Piled(m.modes)
    ensures var t := NodeAdvance(m, g, empty).m; LaidOut(t.modes + [t.mode], t.indents + [t.indent], t.best, t.canonical)
    ensures 2 <= NodeAdvance(m, g, empty).m.best <= 9
  {
    hide LaidOut, Piled, Flows;
    var t := NodeAdvance(m, g, empty).m;
    var last := m.modes[|m.modes| - 1];
    LaidBest(m.modes, m.indents + [m.indent], m.best, m.canonical);
    if t.modes == m.modes {
      LastFlows(m.modes);
      Inward(m.modes, m.indents + [m.indent], m.best, m.canonical, t.mode);
    } else {
      assert m.modes[..|m.modes| - 1] + [last] == m.modes;
    }
  }

  lemma LaidBest(ms: seq<Mode>, xs: seq<int>, best: int, canonical: bool)
    requires LaidOut(ms, xs, best, canonical)
    ensures 2 <= best <= 9 && 1 <= |xs| <= |ms|
  {
  }

  /** Modes that were pushed are of collections entered. */
  lemma LastFlows(modes: seq<Mode>)
    requires Piled(modes)
    ensures IsFlow(modes[|modes| - 1]) ==> Flows(modes) > 0
  {
  }

  /** In a collection, once it is entered. */
  lemma EnteredLaid(m: Emitter, first: bool, flow: bool, indentless: bool, s: Mode)
    requires Level(m) && Laid(m) && (if first then Opening(m.mode) else Middle(m.mode) && InFlow(m.mode) == flow)
    requires first ==> flow == (m.mode.FlowItemFirst? || m.mode.FlowKeyFirst?)
    requires Middle(s) && InFlow(s) == flow && (m.mode.BlockItem? || (first && indentless) ==> s.BlockItem? && !flow)
    ensures var i := Entered(m, first, flow, indentless); LaidOut(i.modes + [s], i.indents + [i.indent], i.best, i.canonical)
  {
    hide LaidOut, Level, Entered;
    var i := Entered(m, first, flow, indentless);
    var ms, xs := m.modes + [m.mode], m.indents + [m.indent];
    EnteredParts(m, first, flow, indentless);
    LevelSize(m);
    LaidSize(m);
    assert ms[..|ms| - 1] == m.modes && ms[|ms| - 1] == m.mode;
    Instead(ms, xs, m.best, m.canonical, s);
    if first {
      Deeper(m.modes + [s], xs, m.best, m.canonical, i.indent);
    }
  }

  lemma EnteredParts(m: Emitter, first: bool, flow: bool, indentless: bool)
    ensures var i := Entered(m, first, flow, indentless);
      && i.modes == m.modes && i.best == m.best && i.canonical == m.canonical && (!first ==> i == m)
      && (first ==>
          && i.indents == m.indents + [m.indent]
          && i.indent == if m.indent < 0 then (if flow then m.best else 0) else if indentless then m.indent else m.indent + m.best)
  {
  }

  lemma LevelSize(m: Emitter)
    requires Level(m) && !Aside(m.mode)
    ensures m.modes != [] && |m.indents| == |m.modes| - (if YamlEmitter.Opening(m.mode) then 1 else 0)
  {
    hide Piled, Flows;
    PileSome(m.modes);
  }

  lemma LaidSize(m: Emitter)
    requires Laid(m) && !Aside(m.mode)
    ensures LaidOut(m.modes + [m.mode], m.indents + [m.indent], m.best, m.canonical)
  {
    hide LaidOut;
  }

  /** The end of a collection. */
  lemma ClosedLaid(m: Emitter, first: bool, flow: bool, indentless: bool)
    requires Level(m) && Laid(m) && (if first then Opening(m.mode) else Middle(m.mode) && InFlow(m.mode) == flow)
    requires Close(Entered(m, first, flow, indentless), flow).Went?
    ensures Laid(Close(Entered(m, first, flow, indentless), flow).m)
  {
    var t := Close(Entered(m, first, flow, indentless), flow).m;
    var ms, xs := m.modes + [m.mode], m.indents + [m.indent];
    assert ms[..|ms| - 1] == m.modes;
    assert t.modes + [t.mode] == m.modes;
    if first {
      assert t.indents + [t.indent] == xs;
    } else {
      assert t.indents + [t.indent] == m.indents == xs[..|xs| - 1];
    }
    assert Aside(t.mode) || |m.modes| > 1 by { hide LaidOut; }
    LaidClosed(m, t.indents + [t.indent]);
  }

  lemma LaidClosed(m: Emitter, xs': seq<int>)
    requires Level(m) && Laid(m) && !Aside(m.mode)
    requires var xs := m.indents + [m.indent]; xs' == (if Opening(m.mode) then xs else xs[..|xs| - 1])
    ensures LaidOut(m.modes, xs', m.best, m.canonical)
  {
    var ms, xs := m.modes + [m.mode], m.indents + [m.indent];
    assert ms[..|ms| - 1] == m.modes && xs[..|xs|] == xs;
    PileSome(m.modes);
    hide LaidOut, Piled, Flows;
    Within(ms, xs, m.best, m.canonical, |ms| - 1, |xs'|);
  }

  lemma StepLaid(m: Emitter, g: Given, empty: bool)
    requires Level(m) && Laid(m) && Advance(m, g, empty).Went?
    ensures Laid(Advance(m, g, empty).m)
  {
    hide Laid, Level, ItemAdvance, KeyAdvance, ValueAdvance, NodeAdvance;
    match m.mode
    case Beginning => AsideLaid(m, g, empty);
    case FirstDocument => AsideLaid(m, g, empty);
    case NextDocument => AsideLaid(m, g, empty);
    case Content => ContentLaid(m, g, empty);
    case DocumentOver => AsideLaid(m, g, empty);
    case FlowItemFirst => ItemLaid(m, g, empty, true, true);
    case FlowItem => ItemLaid(m, g, empty, false, true);
    case FlowKeyFirst => KeyLaid(m, g, empty, true, true);
    case FlowKey => KeyLaid(m, g, empty, false, true);
    case FlowSimpleValue => ValueLaid(m, g, empty, true);
    case FlowValue => ValueLaid(m, g, empty, true);
    case BlockItemFirst => ItemLaid(m, g, empty, true, false);
    case BlockItem => ItemLaid(m, g, empty, false, false);
    case BlockKeyFirst => KeyLaid(m, g, empty, true, false);
    case BlockKey => KeyLaid(m, g, empty, false, false);
    case BlockSimpleValue => ValueLaid(m, g, empty, false);
    case BlockValue => ValueLaid(m, g, empty, false);
    case Finished =>
  }

  lemma AsideLaid(m: Emitter, g: Given, empty: bool)
    requires Level(m) && Laid(m) && Aside(m.mode) && !m.mode.Content? && Advance(m, g, empty).Went?
    ensures Laid(Advance(m, g, empty).m)
  {
    hide LaidOut;
  }

  lemma ContentLaid(m: Emitter, g: Given, empty: bool)
    requires Level(m) && Laid(m) && m.mode.Content? && NodeAdvance(Pushed(m, DocumentOver), g, empty).Went?
    ensures Laid(NodeAdvance(Pushed(m, DocumentOver), g, empty).m)
  {
    var i := Pushed(m, DocumentOver);
    PictureOf([], DocumentOver);
    assert [] + [DocumentOver] == [DocumentOver] && i.modes == [DocumentOver];
    assert Flows([]) == 0;
    assert LaidOut(i.modes, i.indents + [i.indent], i.best, i.canonical);
    hide LaidOut, NodeAdvance;
    NodeLaid(i, g, empty);
  }

  /** A child of the collection. */
  lemma ChildLaid(m: Emitter, g: Given, empty: bool, first: bool, flow: bool, indentless: bool, s: Mode)
    requires Level(m) && Laid(m) && (if first then YamlEmitter.Opening(m.mode) else Middle(m.mode) && InFlow(m.mode) == flow)
    requires first ==> flow == (m.mode.FlowItemFirst? || m.mode.FlowKeyFirst?)
    requires Middle(s) && InFlow(s) == flow && (m.mode.BlockItem? || (first && indentless) ==> s.BlockItem? && !flow)
    requires NodeAdvance(Pushed(Entered(m, first, flow, indentless), s), g, empty).Went?
    ensures Laid(NodeAdvance(Pushed(Entered(m, first, flow, indentless), s), g, empty).m)
  {
    hide Laid, LaidOut, NodeAdvance, Entered, Piled, Flows, Level, Pushed;
    var i := Entered(m, first, flow, indentless);
    ChildReady(m, first, flow, indentless, s);
    NodeLaid(Pushed(i, s), g, empty);
    LaidFrom(NodeAdvance(Pushed(i, s), g, empty).m);
  }

  lemma ChildReady(m: Emitter, first: bool, flow: bool, indentless: bool, s: Mode)
    requires Level(m) && Laid(m) && (if first then YamlEmitter.Opening(m.mode) else Middle(m.mode) && InFlow(m.mode) == flow)
    requires first ==> flow == (m.mode.FlowItemFirst? || m.mode.FlowKeyFirst?)
    requires Middle(s) && InFlow(s) == flow && (m.mode.BlockItem? || (first && indentless) ==> s.BlockItem? && !flow)
    ensures var t := Pushed(Entered(m, first, flow, indentless), s);
      && t.modes != [] && LaidOut(t.modes, t.indents + [t.indent], t.best, t.canonical)
      && t.flowLevel == Flows(t.modes) && Piled(t.modes)
  {
    hide Laid, LaidOut, Entered, Piled, Flows, Level;
    var i := Entered(m, first, flow, indentless);
    EnteredIs(m, first, flow, indentless);
    EnteredLaid(m, first, flow, indentless, s);
    PictureOf(i.modes, s);
    LevelPiled(m);
  }

  lemma LaidFrom(m: Emitter)
    requires 2 <= m.best <= 9 && LaidOut(m.modes + [m.mode], m.indents + [m.indent], m.best, m.canonical)
    ensures Laid(m)
  {
  }

  lemma LevelPiled(m: Emitter)
    requires Level(m) && !Aside(m.mode)
    ensures m.modes != [] && Piled(m.modes)
  {
    hide Flows;
  }

  lemma ItemLaid(m: Emitter, g: Given, empty: bool, first: bool, flow: bool)
    requires Level(m) && Laid(m) && ItemAdvance(m, g, empty, first, flow).Went?
    requires if first then m.mode == (if flow then FlowItemFirst else BlockItemFirst) else m.mode == (if flow then FlowItem else BlockItem)
    ensures Laid(ItemAdvance(m, g, empty, first, flow).m)
  {
    hide Laid, Level, NodeAdvance, Close, Entered;
    if g.event == Inside(D.SequenceEnd) {
      ClosedLaid(m, first, flow, !flow && g.indentless);
    } else {
      ChildLaid(m, g, empty, first, flow, !flow && g.indentless, if flow then FlowItem else BlockItem);
    }
  }

  lemma KeyLaid(m: Emitter, g: Given, empty: bool, first: bool, flow: bool)
    requires Level(m) && Laid(m) && KeyAdvance(m, g, empty, first, flow).Went?
    requires if first then m.mode == (if flow then FlowKeyFirst else BlockKeyFirst) else m.mode == (if flow then FlowKey else BlockKey)
    ensures Laid(KeyAdvance(m, g, empty, first, flow).m)
  {
    hide Laid, Level, NodeAdvance, Close, Entered, SimpleKey;
    if g.event == Inside(D.MappingEnd) {
      ClosedLaid(m, first, flow, false);
    } else {
      var simple := !(flow && m.canonical) && SimpleKey(g, empty);
      ChildLaid(m, g, empty, first, flow, false, if flow then (if simple then FlowSimpleValue else FlowValue)
                                                     else if simple then BlockSimpleValue else BlockValue);
    }
  }

  lemma ValueLaid(m: Emitter, g: Given, empty: bool, flow: bool)
    requires Level(m) && Laid(m) && Middle(m.mode) && InFlow(m.mode) == flow && !m.mode.BlockItem? && ValueAdvance(m, g, empty, flow).Went?
    ensures Laid(ValueAdvance(m, g, empty, flow).m)
  {
    hide Laid, Level, NodeAdvance;
    ChildLaid(m, g, empty, false, flow, false, if flow then FlowKey else BlockKey);
  }

  // ----- all events -----

  lemma {:induction false} DrainLaid(m: Emitter, q: seq<Given>)
    requires Level(m) && Laid(m) && Drain(m, q).r.Went?
    ensures Laid(Drain(m, q).r.m) && Level(Drain(m, q).r.m)
    decreases |q|
  {
    hide Laid, Level, Advance, NeedMore, Empty;
    DrainRight(m, q);
    if !NeedMore(q) {
      StepRight(m, q[0], Empty(q));
      StepLaid(m, q[0], Empty(q));
      DrainLaid(Advance(m, q[0], Empty(q)).m, q[1..]);
    }
  }

  lemma {:induction false} FeedLaid(m: Emitter, held: seq<Given>, gs: seq<Given>)
    requires Level(m) && Laid(m) && Feed(m, held, gs).r.Went?
    ensures Laid(Feed(m, held, gs).r.m) && Level(Feed(m, held, gs).r.m)
    decreases |gs|
  {
    hide Laid, Level, Drain;
    if gs != [] {
      var d := Drain(m, held + [gs[0]]);
      DrainLaid(m, held + [gs[0]]);
      FeedLaid(d.r.m, d.left, gs[1..]);
    }
  }

  /** At any point of any run of the emitter: inside a flow collection there are only flow
      collections, in canonical mode there are no others, and each is indented by its step
      from what is around it. */
  lemma AllLaid(gs: seq<Given>, best: int, canonical: bool)
    requires Feed(Fresh(best, canonical), [], gs).r.Went?
    ensures Laid(Feed(Fresh(best, canonical), [], gs).r.m)
  {
    FeedLaid(Fresh(best, canonical), [], gs);
  }

  predicate Starts(e: Parsed) {
    e.Inside? && (e.event.SequenceStart? || e.event.MappingStart?)
  }

  /** A collection begins in flow style if and only if it stands in one, or canonical mode or
      the event asks for it, or it is empty. */
  lemma FlowExactly(m: Emitter, g: Given, empty: bool)
    requires Level(m) && Laid(m) && Advance(m, g, empty).Went? && Starts(g.event)
    ensures var t := Advance(m, g, empty).m;
      t.modes != [] && (IsFlow(t.mode) <==> IsFlow(t.modes[|t.modes| - 1]) || m.canonical || g.flow || empty)
  {
    var t := Advance(m, g, empty).m;
    StepRight(m, g, empty);
    StepLaid(m, g, empty);
    FlowStarts(m, g, empty);
    hide Advance, LaidOut, Piled, Flows;
    PileSome(t.modes);
    var ms := t.modes + [t.mode];
    assert ms[..|t.modes|] == t.modes;
    LastFlows(t.modes);
    if Flows(t.modes) > 0 { FlowLast(ms, t.indents + [t.indent], t.best, t.canonical, |t.modes|); }
  }

  lemma FlowStarts(m: Emitter, g: Given, empty: bool)
    requires Advance(m, g, empty).Went? && Starts(g.event)
    ensures var t := Advance(m, g, empty).m;
      YamlEmitter.Opening(t.mode) && (IsFlow(t.mode) <==> t.flowLevel != 0 || m.canonical || g.flow || empty)
  {
    hide SimpleKey, NodeAdvance, Entered;
    if m.mode.Content? {
      NodeStarts(Pushed(m, DocumentOver), g, empty);
    } else {
      EnteredSame(m, g);
      forall first, flow, indentless, s: Mode | NodeAdvance(Pushed(Entered(m, first, flow, indentless), s), g, empty).Went?
        ensures StartedBy(m, g, empty, NodeAdvance(Pushed(Entered(m, first, flow, indentless), s), g, empty).m)
      {
        NodeStarts(Pushed(Entered(m, first, flow, indentless), s), g, empty);
      }
    }
  }

  predicate StartedBy(m: Emitter, g: Given, empty: bool, t: Emitter) {
    YamlEmitter.Opening(t.mode) && (IsFlow(t.mode) <==> t.flowLevel != 0 || m.canonical || g.flow || empty)
  }

  lemma NodeStarts(i: Emitter, g: Given, empty: bool)
    requires Starts(g.event) && NodeAdvance(i, g, empty).Went?
    ensures StartedBy(i, g, empty, NodeAdvance(i, g, empty).m)
  {
  }

  lemma EnteredSame(m: Emitter, g: Given)
    ensures forall first, flow, indentless :: Entered(m, first, flow, indentless).canonical == m.canonical
    ensures Entered(m, false, true, false) == Entered(m, false, false, false) == m
  {
  }

  /** If flow collections are open, the innermost one is. */
  lemma {:induction false} FlowLast(ms: seq<Mode>, xs: seq<int>, best: int, canonical: bool, n: nat)
    requires LaidOut(ms, xs, best, canonical) && 1 <= n <= |ms| && Flows(ms[..n]) > 0
    ensures IsFlow(ms[n - 1])
  {
    assert ms[..n][..n - 1] == ms[..n - 1] && ms[..n][n - 1] == ms[n - 1];
    if !InFlow(ms[n - 1]) && n > 1 {
      FlowLast(ms, xs, best, canonical, n - 1);
      assert Inherits(ms, n - 2);
    }
  }

  /** A key is written as a simple one if and only if it is short, no collection that has
      children, and not in canonical flow style. */
  lemma SimpleExactly(m: Emitter, g: Given, empty: bool)
    requires Level(m) && Advance(m, g, empty).Went? && g.event != Inside(D.MappingEnd)
    requires m.mode in {FlowKeyFirst, FlowKey, BlockKeyFirst, BlockKey}
    ensures var t := Advance(m, g, empty).m;
      var after := if Starts(g.event) && t.modes != [] then t.modes[|t.modes| - 1] else t.mode;
      after in {FlowSimpleValue, BlockSimpleValue} <==>
        g.short && (Starts(g.event) ==> empty) && !(m.canonical && IsFlow(m.mode))
  {
    hide Entered, Piled, Flows, Level, NodeAdvance, SimpleKey, Close;
    EnteredSame(m, g);
    match m.mode
    case FlowKeyFirst => SimpleAfter(m, g, empty, true, true);
    case FlowKey => SimpleAfter(m, g, empty, false, true);
    case BlockKeyFirst => SimpleAfter(m, g, empty, true, false);
    case BlockKey => SimpleAfter(m, g, empty, false, false);
  }

  lemma SimpleAfter(m: Emitter, g: Given, empty: bool, first: bool, flow: bool)
    requires KeyAdvance(m, g, empty, first, flow).Went? && g.event != Inside(D.MappingEnd)
    ensures var t := KeyAdvance(m, g, empty, first, flow).m;
      var after := if Starts(g.event) && t.modes != [] then t.modes[|t.modes| - 1] else t.mode;
      after in {FlowSimpleValue, BlockSimpleValue} <==> g.short && (Starts(g.event) ==> empty) && !(m.canonical && flow)
  {
    hide Entered;
  }

  /** A collection that is entered is indented one step more than what is around it, but not
      a block sequence at a place for that; it gives the indentation back at its end. */
  lemma IndentExactly(m: Emitter, g: Given, empty: bool)
    requires Level(m) && YamlEmitter.Opening(m.mode) && m.indent >= 0 && Advance(m, g, empty).Went?
    ensures var t := Advance(m, g, empty).m;
      t.indent == if g.event in {Inside(D.SequenceEnd), Inside(D.MappingEnd)} || (m.mode.BlockItemFirst? && g.indentless) then m.indent else m.indent + m.best
  {
    hide NodeAdvance, SimpleKey, Level, Close, Entered, Pushed;
    match m.mode
    case FlowItemFirst => EnteredIndents(m, g, empty, true, false, FlowItem);
    case BlockItemFirst => EnteredIndents(m, g, empty, false, g.indentless, BlockItem);
    case FlowKeyFirst =>
      EnteredIndents(m, g, empty, true, false, FlowValue);
      EnteredIndents(m, g, empty, true, false, FlowSimpleValue);
    case BlockKeyFirst =>
      EnteredIndents(m, g, empty, false, false, BlockValue);
      EnteredIndents(m, g, empty, false, false, BlockSimpleValue);
  }

  lemma EnteredIndents(m: Emitter, g: Given, empty: bool, flow: bool, indentless: bool, s: Mode)
    requires m.indent >= 0
    ensures var i := Entered(m, true, flow, indentless);
      && i.indent == (if indentless then m.indent else m.indent + m.best)
      && (NodeAdvance(Pushed(i, s), g, empty).Went? ==> g.event !in {Inside(D.SequenceEnd), Inside(D.MappingEnd)} && NodeAdvance(Pushed(i, s), g, empty).m.indent == i.indent)
      && (Close(i, flow).Went? ==> Close(i, flow).m.indent == m.indent)
  {
  }

  // ----- the step of indentation, and what is held back -----

  /** The step asked for if it is of one digit and more than 1, else two. */
  function StepFor(best: int): int {
    if best in {2, 3, 4, 5, 6, 7, 8, 9} then best else 2
  }

  lemma AdvanceBest(m: Emitter, g: Given, empty: bool)
    requires Advance(m, g, empty).Went?
    ensures Advance(m, g, empty).m.best == if m.mode.Beginning? then StepFor(m.best) else m.best
  {
    hide NodeAdvance, SimpleKey, Entered, Close;
    forall i: Emitter ensures NodeAdvance(i, g, empty).Went? ==> NodeAdvance(i, g, empty).m.best == i.best { NodeBest(i, g, empty); }
    forall first, flow, indentless
      ensures var i := Entered(m, first, flow, indentless); i.best == m.best && (Close(i, flow).Went? ==> Close(i, flow).m.best == m.best)
    {
      EnteredBest(m, first, flow, indentless);
    }
  }

  lemma NodeBest(i: Emitter, g: Given, empty: bool)
    ensures NodeAdvance(i, g, empty).Went? ==> NodeAdvance(i, g, empty).m.best == i.best
  {
  }

  lemma EnteredBest(m: Emitter, first: bool, flow: bool, indentless: bool)
    ensures var i := Entered(m, first, flow, indentless); i.best == m.best && (Close(i, flow).Went? ==> Close(i, flow).m.best == m.best)
  {
  }

  lemma {:induction false} DrainBest(m: Emitter, q: seq<Given>)
    requires Drain(m, q).r.Went?
    ensures Drain(m, q).taken == [] ==> Drain(m, q).r.m == m
    ensures m.mode.Beginning? && Drain(m, q).taken != [] ==> Drain(m, q).r.m.best == StepFor(m.best)
    ensures m.best == StepFor(m.best) ==> Drain(m, q).r.m.best == m.best
    decreases |q|
  {
    hide Advance, NeedMore, Empty;
    if !NeedMore(q) {
      NotEmpty(q);
      AdvanceBest(m, q[0], Empty(q));
      DrainBest(Advance(m, q[0], Empty(q)).m, q[1..]);
    }
  }

  lemma {:induction false} FeedBest(m: Emitter, held: seq<Given>, gs: seq<Given>)
    requires Feed(m, held, gs).r.Went?
    ensures m.mode.Beginning? && Feed(m, held, gs).taken != [] ==> Feed(m, held, gs).r.m.best == StepFor(m.best)
    ensures m.best == StepFor(m.best) ==> Feed(m, held, gs).r.m.best == m.best
    decreases |gs|
  {
    hide Drain;
    if gs != [] {
      var d := Drain(m, held + [gs[0]]);
      DrainBest(m, held + [gs[0]]);
      FeedBest(d.r.m, d.left, gs[1..]);
    }
  }

  /** Once the stream has begun, the step is the one asked for if it is from 2 to 9, and two
      otherwise. */
  lemma StepChosen(gs: seq<Given>, best: int, canonical: bool)
    requires Feed(Fresh(best, canonical), [], gs).r.Went? && Feed(Fresh(best, canonical), [], gs).taken != []
    ensures Feed(Fresh(best, canonical), [], gs).r.m.best == StepFor(best)
  {
    FeedBest(Fresh(best, canonical), [], gs);
  }

  /** Held back is the start of a document until one event follows, of a sequence until two
      do, of a mapping until three do, unless the level comes back to that of the start
      before that; and no other event. */
  lemma HeldExactly(q: seq<Given>)
    requires q != []
    ensures var e := q[0].event;
      var more := |q| - 1;
      NeedMore(q) <==>
        && (e == Inside(D.DocumentStart) || Starts(e))
        && more < (if e == Inside(D.DocumentStart) then 1 else if e.event.SequenceStart? then 2 else 3)
        && (more >= 1 ==> Rise(q[1].event) != -1) && (more >= 2 ==> Rise(q[1].event) + Rise(q[2].event) != -1)
  {
    var e := q[0].event;
    if e == Inside(D.DocumentStart) || Starts(e) {
      assert Rise(e) == 1;
      if |q| <= 3 {
        assert forall k | 0 <= k < |q| - 1 :: q[1..][k] == q[k + 1];
        assert Closes(q, 0) == Closes(q[1..], 1);
        assert q[1..] == [] ==> !Closes(q[1..], 1);
        if |q| >= 2 {
          var two := q[1..][1..];
          assert Closes(q[1..], 1) == (Rise(q[1].event) == -1 || Closes(two, 1 + Rise(q[1].event)));
          if |q| == 3 {
            assert two[0] == q[2] && two[1..] == [];
            assert !Closes(two[1..], 1 + Rise(q[1].event) + Rise(q[2].event));
          } else {
            assert two == [] && !Closes(two, 1 + Rise(q[1].event));
          }
        }
      }
    }
  }
}
