/** The emitter's state machine: which events it takes, how its stacks follow them, and how
    many it holds back. */
module YamlEmitter {
  import opened Options
  import opened YamlDumper
  import opened YamlNesting
  import opened P = YamlParser

  /** An event, and what its data and the writing of it come to: flow style asked for, no
      error in it or in writing it, short enough for a simple key, and standing where a
      block sequence is not indented. */
  datatype Given = Given(event: Parsed, flow: bool, fine: bool, short: bool, indentless: bool)

  datatype Mode =
    | Beginning | FirstDocument | NextDocument | Content | DocumentOver
    | FlowItemFirst | FlowItem | FlowKeyFirst | FlowKey | FlowSimpleValue | FlowValue
    | BlockItemFirst | BlockItem | BlockKeyFirst | BlockKey | BlockSimpleValue | BlockValue
    | Finished

  datatype Emitter = Emitter(mode: Mode, modes: seq<Mode>, indents: seq<int>, indent: int, flowLevel: int,
                             best: int, canonical: bool)

  /** Underflow: an empty stack is popped. */
  datatype Outcome = Went(m: Emitter) | Refused | Underflow

  // ----- the steps -----

  function Popped(m: Emitter): Outcome {
    if m.modes == [] then Underflow else Went(m.(mode := m.modes[|m.modes| - 1], modes := m.modes[..|m.modes| - 1]))
  }

  function Increase(m: Emitter, flow: bool, indentless: bool): Emitter {
    m.(indents := m.indents + [m.indent],
       indent := if m.indent < 0 then (if flow then m.best else 0) else if indentless then m.indent else m.indent + m.best)
  }

  /** The end of a collection. */
  function Close(m: Emitter, flow: bool): Outcome {
    if m.indents == [] then Underflow else
      Popped(m.(indent := m.indents[|m.indents| - 1], indents := m.indents[..|m.indents| - 1],
                flowLevel := if flow then m.flowLevel - 1 else m.flowLevel))
  }

  function NodeAdvance(m: Emitter, g: Given, empty: bool): Outcome {
    var flow := m.flowLevel != 0 || m.canonical || g.flow || empty;
    match g.event
    case Inside(Alias(anchor)) => if anchor.Some? then Popped(m) else Refused
    case Inside(ScalarEvent(_, _, _, _)) => Popped(m)
    case Inside(SequenceStart(_, _, _)) => Went(m.(mode := if flow then FlowItemFirst else BlockItemFirst))
    case Inside(MappingStart(_, _, _)) => Went(m.(mode := if flow then FlowKeyFirst else BlockKeyFirst))
    case _ => Refused
  }

  function Pushed(m: Emitter, s: Mode): Emitter {
    m.(modes := m.modes + [s])
  }

  /** Into a collection whose start was the last event. */
  function Entered(m: Emitter, first: bool, flow: bool, indentless: bool): Emitter {
    if !first then m else
      var i := Increase(m, flow, indentless);
      if flow then i.(flowLevel := i.flowLevel + 1) else i
  }

  function ItemAdvance(m: Emitter, g: Given, empty: bool, first: bool, flow: bool): Outcome {
    var i := Entered(m, first, flow, !flow && g.indentless);
    if g.event == Inside(SequenceEnd) then Close(i, flow)
    else NodeAdvance(Pushed(i, if flow then FlowItem else BlockItem), g, empty)
  }

  predicate SimpleKey(g: Given, empty: bool) {
    match g.event
    case Inside(Alias(_)) => g.short
    case Inside(ScalarEvent(_, _, _, _)) => g.short
    case Inside(SequenceStart(_, _, _)) => empty && g.short
    case Inside(MappingStart(_, _, _)) => empty && g.short
    case _ => false
  }

  function KeyAdvance(m: Emitter, g: Given, empty: bool, first: bool, flow: bool): Outcome {
    var i := Entered(m, first, flow, false);
    if g.event == Inside(MappingEnd) then Close(i, flow)
    else
      var simple := !(flow && m.canonical) && SimpleKey(g, empty);
      NodeAdvance(Pushed(i, if flow then (if simple then FlowSimpleValue else FlowValue)
                         else if simple then BlockSimpleValue else BlockValue), g, empty)
  }

  function ValueAdvance(m: Emitter, g: Given, empty: bool, flow: bool): Outcome {
    NodeAdvance(Pushed(m, if flow then FlowKey else BlockKey), g, empty)
  }

  function Advance(m: Emitter, g: Given, empty: bool): Outcome {
    if !g.fine then Refused else
      match m.mode
      case Beginning =>
        if g.event.StreamStart? then
          Went(m.(best := if 2 <= m.best <= 9 then m.best else 2, indent := -1, mode := FirstDocument))
        else Refused
      case FirstDocument => DocumentAdvance(m, g)
      case NextDocument => DocumentAdvance(m, g)
      case Content => NodeAdvance(Pushed(m, DocumentOver), g, empty)
      case DocumentOver => if g.event == Inside(DocumentEnd) then Went(m.(mode := NextDocument)) else Refused
      case FlowItemFirst => ItemAdvance(m, g, empty, true, true)
      case FlowItem => ItemAdvance(m, g, empty, false, true)
      case FlowKeyFirst => KeyAdvance(m, g, empty, true, true)
      case FlowKey => KeyAdvance(m, g, empty, false, true)
      case FlowSimpleValue => ValueAdvance(m, g, empty, true)
      case FlowValue => ValueAdvance(m, g, empty, true)
      case BlockItemFirst => ItemAdvance(m, g, empty, true, false)
      case BlockItem => ItemAdvance(m, g, empty, false, false)
      case BlockKeyFirst => KeyAdvance(m, g, empty, true, false)
      case BlockKey => KeyAdvance(m, g, empty, false, false)
      case BlockSimpleValue => ValueAdvance(m, g, empty, false)
      case BlockValue => ValueAdvance(m, g, empty, false)
      case Finished => Refused
  }

  function DocumentAdvance(m: Emitter, g: Given): Outcome {
    if g.event == Inside(DocumentStart) then Went(m.(mode := Content))
    else if g.event.StreamEnd? then Went(m.(mode := Finished))
    else Refused
  }

  // ----- the stacks as a picture of the nesting -----

  function Shown(s: Mode): Nest {
    match s
    case DocumentOver => [Doc(true)]
    case FlowItemFirst => [Seq]
    case FlowItem => [Seq]
    case FlowKeyFirst => [Map(false)]
    case FlowKey => [Map(false)]
    case FlowSimpleValue => [Map(true)]
    case FlowValue => [Map(true)]
    case BlockItemFirst => [Seq]
    case BlockItem => [Seq]
    case BlockKeyFirst => [Map(false)]
    case BlockKey => [Map(false)]
    case BlockSimpleValue => [Map(true)]
    case BlockValue => [Map(true)]
    case _ => []
  }

  predicate Opening(s: Mode) {
    s.FlowItemFirst? || s.FlowKeyFirst? || s.BlockItemFirst? || s.BlockKeyFirst?
  }

  /** A mode in the middle of a collection. */
  predicate Middle(s: Mode) {
    s.FlowItem? || s.FlowKey? || s.FlowSimpleValue? || s.FlowValue? || s.BlockItem? || s.BlockKey? || s.BlockSimpleValue? || s.BlockValue?
  }

  predicate InFlow(s: Mode) {
    s.FlowItem? || s.FlowKey? || s.FlowSimpleValue? || s.FlowValue?
  }

  function Picture(modes: seq<Mode>): Nest {
    if modes == [] then [Stream] else Picture(modes[..|modes| - 1]) + Shown(modes[|modes| - 1])
  }

  function Flows(modes: seq<Mode>): nat {
    if modes == [] then 0 else Flows(modes[..|modes| - 1]) + if InFlow(modes[|modes| - 1]) then 1 else 0
  }

  /** The document at the bottom, collections above it. */
  predicate Piled(modes: seq<Mode>) {
    modes != [] &&
    var s, below := modes[|modes| - 1], modes[..|modes| - 1];
    if below == [] then s.DocumentOver? else Middle(s) && Piled(below)
  }

  function Pile(m: Emitter): Nest {
    match m.mode
    case Beginning => []
    case Finished => [Over]
    case Content => [Stream, Doc(false)]
    case _ => Picture(m.modes) + Shown(m.mode)
  }

  predicate Aside(s: Mode) {
    s.Beginning? || s.FirstDocument? || s.NextDocument? || s.Content? || s.DocumentOver? || s.Finished?
  }

  /** Outside collections both stacks are empty and the indentation is back at -1; inside,
      one indentation is kept for each collection that was entered, the first being -1. */
  predicate Level(m: Emitter) {
    var s, n := m.mode, |m.indents|;
    if s.Beginning? then m.modes == [] && m.indents == [] && m.flowLevel == 0
    else if Aside(s) then m.modes == [] && m.indents == [] && m.flowLevel == 0 && m.indent == -1
    else
      && (Middle(s) || Opening(s)) && Piled(m.modes)
      && n == |m.modes| - (if Opening(s) then 1 else 0)
      && (if n == 0 then m.indent == -1 else m.indents[0] == -1)
      && m.flowLevel == Flows(m.modes) + if InFlow(s) then 1 else 0
  }

  lemma PictureOf(modes: seq<Mode>, s: Mode)
    ensures Picture(modes + [s]) == Picture(modes) + Shown(s) && Flows(modes + [s]) == Flows(modes) + if InFlow(s) then 1 else 0
    ensures Piled(modes + [s]) <==> if modes == [] then s.DocumentOver? else Piled(modes) && Middle(s)
  {
    var t := modes + [s];
    assert t[..|t| - 1] == modes && t[|t| - 1] == s;
  }

  /** A step goes on just when the event keeps the stream well nested, and then the stacks
      follow; no empty stack is popped. */
  ghost predicate Right(n: Nest, g: Given, r: Outcome) {
    match r
    case Went(m) => Accept(n, g.event) == Some(Pile(m)) && Level(m) && g.fine
    case Refused => Accept(n, g.event).None? || !g.fine
    case Underflow => false
  }

  /** A node below modes pushed for it: `n` is the nest before it. */
  ghost predicate Due(n: Nest, m: Emitter) {
    var k := |m.modes|;
    && Piled(m.modes) && Fill(n) == Some(Picture(m.modes)) && |m.indents| == k - 1 && m.flowLevel == Flows(m.modes)
    && (if k == 1 then m.indent == -1 else m.indents[0] == -1)
  }

  lemma PopMode(modes: seq<Mode>)
    requires Piled(modes)
    ensures modes != []
    ensures var s, below := modes[|modes| - 1], modes[..|modes| - 1];
      && Picture(modes) == Picture(below) + Shown(s) && Flows(modes) == Flows(below) + (if InFlow(s) then 1 else 0)
      && if below == [] then s.DocumentOver? else Middle(s) && Piled(below)
  {
  }

  lemma PoppedRight(n: Nest, m: Emitter, g: Given)
    requires Piled(m.modes) && Accept(n, g.event) == Some(Picture(m.modes)) && g.fine
    requires |m.indents| == |m.modes| - 1 && m.flowLevel == Flows(m.modes) && (if |m.modes| == 1 then m.indent == -1 else m.indents[0] == -1)
    ensures Right(n, g, Popped(m))
  {
    hide Accept;
    PopMode(m.modes);
    hide Piled, Picture, Flows;
    if |m.modes| == 1 { PictureNone(); }
  }

  lemma PictureNone()
    ensures Picture([]) == [Stream] && Flows([]) == 0
  {
  }

  lemma NodeRight(n: Nest, m: Emitter, g: Given, empty: bool)
    requires Due(n, m) && g.fine && !g.event.StreamStart? && !g.event.StreamEnd?
    requires g.event.Inside? ==> var e := g.event.event; !e.DocumentStart? && !e.DocumentEnd? && !e.SequenceEnd? && !e.MappingEnd?
    ensures Right(n, g, NodeAdvance(m, g, empty))
  {
    hide Piled, Picture, Flows, Fill;
    var e := g.event.event;
    if (e.Alias? && e.anchor.Some?) || e.ScalarEvent? {
      hide Popped;
      PoppedRight(n, m, g);
    }
  }

  /** An event that is not a node, where only a node can come. */
  lemma NotNode(n: Nest, m: Emitter, g: Given, empty: bool)
    requires n != [] && |n| >= 2 && g.fine
    requires match g.event
      case StreamStart => true
      case StreamEnd => true
      case Inside(DocumentStart) => true
      case Inside(DocumentEnd) => n != [Stream, Doc(true)]
      case Inside(SequenceEnd) => !Top(n).Seq?
      case Inside(MappingEnd) => Top(n) != Map(false)
      case _ => false
    ensures Right(n, g, NodeAdvance(m, g, empty))
  {
  }

  predicate IsNode(e: Parsed) {
    e.Inside? && !e.event.DocumentStart? && !e.event.DocumentEnd? && !e.event.SequenceEnd? && !e.event.MappingEnd?
  }

  lemma TopOf(n: Nest, f: Frame)
    ensures Top(n + [f]) == f && Under(n + [f]) == n
    ensures f.Seq? ==> Accept(n + [f], Inside(SequenceEnd)) == Some(n)
    ensures f == Map(false) ==> Accept(n + [f], Inside(MappingEnd)) == Some(n)
    ensures Fill(n + [f]) == (if f.Seq? then Some(n + [f]) else if f.Map? then Some(n + [Map(!f.odd)]) else Fill(n + [f]))
  {
    assert (n + [f])[..|n + [f]| - 1] == n;
  }

  lemma PileLong(modes: seq<Mode>)
    requires Piled(modes)
    ensures |Picture(modes)| >= 2 && Picture(modes)[0].Stream?
  {
    PopMode(modes);
    if |modes| > 1 {
      PileLong(modes[..|modes| - 1]);
    } else {
      assert modes[..|modes| - 1] == [];
      PictureNone();
    }
  }

  /** Entering keeps the indentation of what is around. */
  lemma EnteredIs(m: Emitter, first: bool, flow: bool, indentless: bool)
    requires Level(m) && (if first then Opening(m.mode) else Middle(m.mode) && InFlow(m.mode) == flow)
    requires first ==> flow == (m.mode.FlowItemFirst? || m.mode.FlowKeyFirst?)
    ensures var i := Entered(m, first, flow, indentless);
      && i.modes == m.modes && |i.indents| == |m.modes| && i.indents[0] == -1 && i.flowLevel == Flows(m.modes) + (if flow then 1 else 0)
  {
    hide Piled, Flows;
    PileSome(m.modes);
  }

  lemma PushedDue(n: Nest, i: Emitter, f: Frame, s: Mode, flow: bool)
    requires Piled(i.modes) && |i.indents| == |i.modes| && i.indents[0] == -1 && i.flowLevel == Flows(i.modes) + (if flow then 1 else 0)
    requires Middle(s) && InFlow(s) == flow && n == Picture(i.modes) + [f] && Fill(n) == Some(Picture(i.modes) + Shown(s))
    ensures Due(n, Pushed(i, s))
  {
    hide Piled, Picture, Flows, Fill;
    PictureOf(i.modes, s);
    PileSome(i.modes);
  }

  lemma CloseRight(n: Nest, i: Emitter, g: Given, flow: bool)
    requires Piled(i.modes) && |i.indents| == |i.modes| && i.indents[0] == -1 && i.flowLevel == Flows(i.modes) + (if flow then 1 else 0)
    requires Accept(n, g.event) == Some(Picture(i.modes)) && g.fine
    ensures Right(n, g, Close(i, flow))
  {
    hide Piled, Picture, Flows, Accept, Popped, Right;
    var k := |i.indents|;
    PileSome(i.modes);
    PoppedRight(n, i.(indent := i.indents[k - 1], indents := i.indents[..k - 1],
                      flowLevel := if flow then i.flowLevel - 1 else i.flowLevel), g);
  }

  lemma PileSome(modes: seq<Mode>)
    requires Piled(modes)
    ensures modes != []
  {
  }

  /** In a collection that is entered. */
  ghost predicate Inner(n: Nest, i: Emitter, f: Frame, flow: bool) {
    var k := |i.indents|;
    && Piled(i.modes) && k == |i.modes| && k > 0 && i.indents[0] == -1 && i.flowLevel == Flows(i.modes) + (if flow then 1 else 0)
    && n == Picture(i.modes) + [f]
  }

  /** The event after which a collection is closed. */
  function EndOf(f: Frame): Parsed {
    if f.Seq? then Inside(SequenceEnd) else Inside(MappingEnd)
  }

  /** Anything but the end of the collection where a child or the end can come; anything
      where only a child can. */
  lemma ChildRight(n: Nest, i: Emitter, f: Frame, s: Mode, g: Given, empty: bool, flow: bool)
    requires Inner(n, i, f, flow) && (f.Seq? || f.Map?) && g.fine && (g.event != EndOf(f) || f == Map(true))
    requires Middle(s) && InFlow(s) == flow && Shown(s) == (if f.Seq? then [Seq] else [Map(!f.odd)])
    ensures Right(n, g, NodeAdvance(Pushed(i, s), g, empty))
  {
    hide Right, NodeAdvance, Piled, Picture, Flows, Fill, Accept, Shown, Middle, InFlow;
    TopOf(Picture(i.modes), f);
    PileLong(i.modes);
    if IsNode(g.event) {
      PushedDue(n, i, f, s, flow);
      NodeRight(n, Pushed(i, s), g, empty);
    } else {
      NotNode(n, Pushed(i, s), g, empty);
    }
  }

  lemma EndRight(n: Nest, i: Emitter, f: Frame, g: Given, flow: bool)
    requires Inner(n, i, f, flow) && (f.Seq? || f == Map(false)) && g.fine && g.event == EndOf(f)
    ensures Right(n, g, Close(i, flow))
  {
    hide Right, Piled, Picture, Flows, Fill, Accept, Close;
    TopOf(Picture(i.modes), f);
    CloseRight(n, i, g, flow);
  }

  lemma EnteredInner(n: Nest, m: Emitter, f: Frame, first: bool, flow: bool, indentless: bool)
    requires Level(m) && (if first then Opening(m.mode) else Middle(m.mode) && InFlow(m.mode) == flow)
    requires first ==> flow == (m.mode.FlowItemFirst? || m.mode.FlowKeyFirst?)
    requires n == Picture(m.modes) + [f]
    ensures Inner(n, Entered(m, first, flow, indentless), f, flow)
  {
    EnteredIs(m, first, flow, indentless);
    hide Entered, Picture, Flows, Piled;
    PileSome(m.modes);
  }

  lemma ItemRight(n: Nest, m: Emitter, g: Given, empty: bool, first: bool, flow: bool)
    requires Level(m) && g.fine && n == Picture(m.modes) + [Seq]
    requires if first then m.mode == (if flow then FlowItemFirst else BlockItemFirst) else m.mode == (if flow then FlowItem else BlockItem)
    ensures Right(n, g, ItemAdvance(m, g, empty, first, flow))
  {
    hide Right, NodeAdvance, Close, Picture, Level, Entered, Inner, Pushed;
    EnteredInner(n, m, Seq, first, flow, !flow && g.indentless);
    var i := Entered(m, first, flow, !flow && g.indentless);
    if g.event == Inside(SequenceEnd) {
      EndRight(n, i, Seq, g, flow);
    } else {
      ChildRight(n, i, Seq, if flow then FlowItem else BlockItem, g, empty, flow);
    }
  }

  lemma KeyRight(n: Nest, m: Emitter, g: Given, empty: bool, first: bool, flow: bool)
    requires Level(m) && g.fine && n == Picture(m.modes) + [Map(false)]
    requires if first then m.mode == (if flow then FlowKeyFirst else BlockKeyFirst) else m.mode == (if flow then FlowKey else BlockKey)
    ensures Right(n, g, KeyAdvance(m, g, empty, first, flow))
  {
    hide Right, NodeAdvance, Close, Picture, Level, Entered, Inner, Pushed, SimpleKey;
    EnteredInner(n, m, Map(false), first, flow, false);
    var i := Entered(m, first, flow, false);
    if g.event == Inside(MappingEnd) {
      EndRight(n, i, Map(false), g, flow);
    } else {
      var simple := !(flow && m.canonical) && SimpleKey(g, empty);
      ChildRight(n, i, Map(false), if flow then (if simple then FlowSimpleValue else FlowValue)
                                   else if simple then BlockSimpleValue else BlockValue, g, empty, flow);
    }
  }

  lemma ValueRight(n: Nest, m: Emitter, g: Given, empty: bool, flow: bool)
    requires Level(m) && g.fine && n == Picture(m.modes) + [Map(true)] && Middle(m.mode) && InFlow(m.mode) == flow
    ensures Right(n, g, ValueAdvance(m, g, empty, flow))
  {
    hide Right, NodeAdvance, Picture, Level, Inner, Pushed;
    EnteredInner(n, m, Map(true), false, flow, false);
    ChildRight(n, m, Map(true), if flow then FlowKey else BlockKey, g, empty, flow);
  }

  lemma ContentRight(m: Emitter, g: Given, empty: bool)
    requires Level(m) && m.mode.Content? && g.fine
    ensures Right([Stream, Doc(false)], g, NodeAdvance(Pushed(m, DocumentOver), g, empty))
  {
    hide Right, NodeAdvance;
    var n := [Stream, Doc(false)];
    PictureOf([], DocumentOver);
    assert [] + [DocumentOver] == [DocumentOver] && Under(n) == [Stream] && [Stream] + [Doc(true)] == [Stream, Doc(true)];
    PictureNone();
    if IsNode(g.event) {
      NodeRight(n, Pushed(m, DocumentOver), g, empty);
    } else {
      NotNode(n, Pushed(m, DocumentOver), g, empty);
    }
  }

  lemma AsideRight(m: Emitter, g: Given, empty: bool)
    requires Level(m) && Aside(m.mode)
    ensures Right(Pile(m), g, Advance(m, g, empty))
  {
    hide NodeAdvance;
    PictureNone();
    assert [Stream] + [] == [Stream] && [Stream] + [Doc(true)] == [Stream, Doc(true)];
    if g.fine && m.mode.Content? { ContentRight(m, g, empty); }
  }

  lemma StepRight(m: Emitter, g: Given, empty: bool)
    requires Level(m)
    ensures Right(Pile(m), g, Advance(m, g, empty))
  {
    hide ItemAdvance, KeyAdvance, ValueAdvance, Picture, Piled, Flows;
    if Aside(m.mode) {
      AsideRight(m, g, empty);
    } else if g.fine {
      hide Right, NodeAdvance, DocumentAdvance;
      var n := Pile(m);
      match m.mode
      case FlowItemFirst => ItemRight(n, m, g, empty, true, true);
      case FlowItem => ItemRight(n, m, g, empty, false, true);
      case FlowKeyFirst => KeyRight(n, m, g, empty, true, true);
      case FlowKey => KeyRight(n, m, g, empty, false, true);
      case FlowSimpleValue => ValueRight(n, m, g, empty, true);
      case FlowValue => ValueRight(n, m, g, empty, true);
      case BlockItemFirst => ItemRight(n, m, g, empty, true, false);
      case BlockItem => ItemRight(n, m, g, empty, false, false);
      case BlockKeyFirst => KeyRight(n, m, g, empty, true, false);
      case BlockKey => KeyRight(n, m, g, empty, false, false);
      case BlockSimpleValue => ValueRight(n, m, g, empty, false);
      case BlockValue => ValueRight(n, m, g, empty, false);
    }
  }

  // ----- the queue -----

  /** How many events are waited for after a start. */
  function Accumulate(e: Parsed): nat {
    match e
    case Inside(DocumentStart) => 1
    case Inside(SequenceStart(_, _, _)) => 2
    case Inside(MappingStart(_, _, _)) => 3
    case _ => 0
  }

  function Rise(e: Parsed): int {
    match e
    case StreamStart => 1
    case StreamEnd => -1
    case Inside(DocumentStart) => 1
    case Inside(DocumentEnd) => -1
    case Inside(SequenceStart(_, _, _)) => 1
    case Inside(SequenceEnd) => -1
    case Inside(MappingStart(_, _, _)) => 1
    case Inside(MappingEnd) => -1
    case _ => 0
  }

  /** The level comes to 0 within the queue. */
  predicate Closes(q: seq<Given>, level: int)
    decreases |q|
  {
    q != [] && (level + Rise(q[0].event) == 0 || Closes(q[1..], level + Rise(q[0].event)))
  }

  predicate NeedMore(q: seq<Given>) {
    q == [] || (Accumulate(q[0].event) > 0 && |q| <= Accumulate(q[0].event) && !Closes(q, 0))
  }

  predicate Ends(a: Parsed, b: Parsed) {
    (a.Inside? && a.event.SequenceStart? && b == Inside(SequenceEnd)) || (a.Inside? && a.event.MappingStart? && b == Inside(MappingEnd))
  }

  /** The collection at the head of the queue is empty. */
  predicate Empty(q: seq<Given>) {
    |q| >= 2 && Ends(q[0].event, q[1].event)
  }

  /** A collection is judged to be empty only after the event after its start has come: what
      comes later in the queue does not change it. */
  lemma EmptyIsSettled(q: seq<Given>, later: seq<Given>)
    requires !NeedMore(q)
    ensures Empty(q + later) == Empty(q) && !NeedMore(q + later)
  {
    if |q| == 1 {
      assert q[1..] == [] && !Closes(q[1..], Rise(q[0].event));
    } else {
      assert (q + later)[1] == q[1];
    }
    if Closes(q, 0) { ClosesMore(q, later, 0); }
    assert (q + later)[0] == q[0];
  }

  lemma {:induction false} ClosesMore(q: seq<Given>, later: seq<Given>, level: int)
    requires Closes(q, level)
    ensures Closes(q + later, level)
    decreases |q|
  {
    assert (q + later)[0] == q[0] && (q + later)[1..] == q[1..] + later;
    if level + Rise(q[0].event) != 0 {
      ClosesMore(q[1..], later, level + Rise(q[0].event));
    }
  }

  /** The machine, and what was taken from and what is left in the queue. */
  datatype Drained = Drained(r: Outcome, taken: seq<Given>, left: seq<Given>)

  function Drain(m: Emitter, q: seq<Given>): Drained
    decreases |q|
  {
    if NeedMore(q) then Drained(Went(m), [], q) else
      var r := Advance(m, q[0], Empty(q));
      if !r.Went? then Drained(r, [], q) else
        var d := Drain(r.m, q[1..]);
        d.(taken := [q[0]] + d.taken)
  }

  function EventsOf(q: seq<Given>): seq<Parsed> {
    if q == [] then [] else [q[0].event] + EventsOf(q[1..])
  }

  predicate Refusal(n: Nest, g: Given) {
    !g.fine || Accept(n, g.event).None?
  }

  /** What was taken is well nested, and if the machine stopped it is the next event that is
      not, or that has an error. */
  lemma {:induction false} DrainRight(m: Emitter, q: seq<Given>)
    requires Level(m)
    ensures var d := Drain(m, q);
      && d.taken + d.left == q && !d.r.Underflow?
      && Nested(Pile(m), EventsOf(d.taken)).Some?
      && (d.r.Went? ==> Level(d.r.m) && Nested(Pile(m), EventsOf(d.taken)) == Some(Pile(d.r.m)) && NeedMore(d.left))
      && (d.r.Refused? ==> d.left != [] && Refusal(Nested(Pile(m), EventsOf(d.taken)).value, d.left[0]))
    decreases |q|
  {
    hide Level, Advance, Accept, NeedMore, Pile;
    var d := Drain(m, q);
    if NeedMore(q) {
      assert [] + q == q;
    } else {
      NotEmpty(q);
      StepRight(m, q[0], Empty(q));
      var r := Advance(m, q[0], Empty(q));
      if r.Went? {
        DrainRight(r.m, q[1..]);
        var t := Drain(r.m, q[1..]);
        assert d.taken[1..] == t.taken && EventsOf(d.taken)[1..] == EventsOf(t.taken);
        assert [q[0]] + t.taken + t.left == q;
      } else {
        assert [] + q == q;
      }
    }
  }

  lemma NotEmpty(q: seq<Given>)
    requires !NeedMore(q)
    ensures q != []
  {
  }

  // ----- all events -----

  /** Events handed over one by one: what was taken, and what is held back. */
  function Feed(m: Emitter, held: seq<Given>, gs: seq<Given>): Drained
    decreases |gs|
  {
    if gs == [] then Drained(Went(m), [], held) else
      var d := Drain(m, held + [gs[0]]);
      if !d.r.Went? then d else
        var f := Feed(d.r.m, d.left, gs[1..]);
        f.(taken := d.taken + f.taken)
  }

  predicate AllFine(gs: seq<Given>) {
    forall i | 0 <= i < |gs| :: gs[i].fine
  }

  lemma {:induction false} EventsJoin(a: seq<Given>, b: seq<Given>)
    ensures EventsOf(a + b) == EventsOf(a) + EventsOf(b)
    decreases |a|
  {
    if a == [] {
      assert a + b == b;
    } else {
      assert (a + b)[1..] == a[1..] + b;
      EventsJoin(a[1..], b);
    }
  }

  /** Depth of the nest, counting the stream. */
  function Depth(n: Nest): nat {
    if n == [Over] then 0 else |n|
  }

  /** A nest that a stream can have: collections stand only inside the stream. */
  predicate Shaped(n: Nest) {
    n == [] || n == [Over] || n[0].Stream?
  }

  lemma LevelShaped(m: Emitter)
    requires Level(m)
    ensures Shaped(Pile(m))
  {
    PictureNone();
    if !Aside(m.mode) { PileLong(m.modes); }
  }

  lemma FillKeeps(n: Nest)
    requires Fill(n).Some?
    ensures |Fill(n).value| == |n| && Fill(n).value != [Over] && n != [Over] && (|n| > 1 ==> Fill(n).value[0] == n[0])
  {
    assert !Top(Fill(n).value).Over?;
  }

  lemma AcceptRises(n: Nest, e: Parsed)
    requires Accept(n, e).Some? && Shaped(n)
    ensures Shaped(Accept(n, e).value) && Depth(Accept(n, e).value) == Depth(n) + Rise(e)
  {
    hide Fill;
    if Fill(n).Some? { FillKeeps(n); FillShaped(n); }
  }

  lemma FillShaped(n: Nest)
    requires Fill(n).Some? && Shaped(n)
    ensures |n| > 1
  {
  }

  /** If a stream that has begun comes to its end within the queue, the level of the head
      comes back to 0 before. */
  lemma {:induction false} ClosesByEnd(n: Nest, q: seq<Given>, level: int)
    requires q != [] && Nested(n, EventsOf(q)) == Some([Over]) && Shaped(n) && 0 <= level <= Depth(n)
    requires level == 0 ==> Rise(q[0].event) == 1
    ensures Closes(q, level)
    decreases |q|
  {
    hide Accept, Shaped;
    var e := q[0].event;
    assert EventsOf(q)[1..] == EventsOf(q[1..]);
    AcceptRises(n, e);
    RiseIs(e);
    hide Rise;
    var n', level' := Accept(n, e).value, level + Rise(e);
    if level' != 0 {
      if q[1..] == [] {
        assert false;
      } else {
        ClosesByEnd(n', q[1..], level');
      }
    }
  }

  lemma RiseIs(e: Parsed)
    ensures -1 <= Rise(e) <= 1
  {
  }

  /** Nothing is held back of a stream that is complete. */
  lemma NothingHeld(n: Nest, q: seq<Given>)
    requires Nested(n, EventsOf(q)) == Some([Over]) && NeedMore(q) && Shaped(n)
    ensures q == []
  {
    hide Nested, Closes, Shaped, Accumulate;
    if q != [] {
      StartRises(q[0].event);
      ClosesByEnd(n, q, 0);
    }
  }

  lemma StartRises(e: Parsed)
    requires Accumulate(e) > 0
    ensures Rise(e) == 1
  {
  }

  /** Every well nested, complete stream of events without errors is taken to its last event,
      whatever was held back on the way; every stack is empty then. */
  lemma {:induction false} FeedRight(m: Emitter, held: seq<Given>, gs: seq<Given>)
    requires Level(m) && NeedMore(held) && AllFine(held) && AllFine(gs)
    requires Nested(Pile(m), EventsOf(held + gs)) == Some([Over])
    ensures var f := Feed(m, held, gs);
      f.r.Went? && f.left == [] && f.taken == held + gs && Pile(f.r.m) == [Over] && Level(f.r.m)
    decreases |gs|
  {
    hide Level, Accept, NeedMore, Pile, Advance, AllFine, Closes;
    if gs == [] {
      assert held + gs == held;
      LevelShaped(m);
      NothingHeld(Pile(m), held);
      assert EventsOf(held) == [] && held + gs == [];
    } else {
      var q := held + [gs[0]];
      assert held + gs == q + gs[1..];
      FineParts(held, gs);
      DrainRight(m, q);
      var d := Drain(m, q);
      EventsJoin(d.taken, d.left + gs[1..]);
      assert d.taken + (d.left + gs[1..]) == q + gs[1..];
      NestedJoin(Pile(m), EventsOf(d.taken), EventsOf(d.left + gs[1..]));
      if d.r.Refused? {
        FineSuffix(q, d.taken, d.left);
        NextAccepted(Nested(Pile(m), EventsOf(d.taken)).value, d.left + gs[1..]);
      } else {
        FineSuffix(q, d.taken, d.left);
        FeedRight(d.r.m, d.left, gs[1..]);
      }
    }
  }

  lemma FineParts(held: seq<Given>, gs: seq<Given>)
    requires AllFine(held) && AllFine(gs) && gs != []
    ensures AllFine(held + [gs[0]]) && AllFine(gs[1..])
  {
  }

  lemma FineSuffix(q: seq<Given>, a: seq<Given>, b: seq<Given>)
    requires AllFine(q) && q == a + b
    ensures AllFine(b) && (b != [] ==> b[0].fine)
  {
    forall i | 0 <= i < |b| ensures b[i].fine {
      assert q[|a| + i] == b[i];
    }
  }

  lemma NextAccepted(n: Nest, q: seq<Given>)
    requires q != [] && Nested(n, EventsOf(q)).Some?
    ensures Accept(n, q[0].event).Some?
  {
  }

  function Fresh(best: int, canonical: bool): Emitter {
    Emitter(Beginning, [], [], 0, 0, best, canonical)
  }

  /** What the parser makes of any tokens to their end, the emitter takes to its end. */
  lemma ParsedIsEmitted(tokens: seq<Token>, gs: seq<Given>, best: int, canonical: bool)
    requires AllFine(gs) && Run(Initial(tokens)).stop.None? && EventsOf(gs) == Run(Initial(tokens)).events
    ensures var f := Feed(Fresh(best, canonical), [], gs);
      f.r.Went? && f.left == [] && f.taken == gs
      && f.r.m.mode.Finished? && f.r.m.modes == [] && f.r.m.indents == [] && f.r.m.indent == -1 && f.r.m.flowLevel == 0
  {
    hide Run, Feed, Nested;
    RunGood(Initial(tokens));
    assert [] + gs == gs;
    var m := Fresh(best, canonical);
    FeedRight(m, [], gs);
    OverIsEnd(Feed(m, [], gs).r.m);
  }

  lemma OverIsEnd(m: Emitter)
    requires Level(m)
    ensures Pile(m) == [Over] ==> m.mode.Finished?
  {
    PictureNone();
    if Aside(m.mode) {
      assert m.mode.FirstDocument? || m.mode.NextDocument? || m.mode.DocumentOver? ==> Pile(m)[0].Stream?;
    } else {
      PileLong(m.modes);
    }
  }

  /** Whatever the events: what was taken is well nested and the rest is held back or, if
      the machine stopped, begins with an event that is not accepted or has an error. */
  lemma {:induction false} FeedFollows(m: Emitter, held: seq<Given>, gs: seq<Given>)
    requires Level(m) && NeedMore(held)
    ensures var f := Feed(m, held, gs);
      && !f.r.Underflow? && Nested(Pile(m), EventsOf(f.taken)).Some? && f.taken + f.left <= held + gs
      && (f.r.Went? ==> f.taken + f.left == held + gs && |f.left| <= 3 && Level(f.r.m)
                        && Nested(Pile(m), EventsOf(f.taken)) == Some(Pile(f.r.m)))
      && (f.r.Refused? ==> f.left != [] && Refusal(Nested(Pile(m), EventsOf(f.taken)).value, f.left[0]))
    decreases |gs|
  {
    hide Level, Accept, NeedMore, Pile, Advance, Closes, Refusal;
    if gs == [] {
      HeldBack(held);
      assert held + gs == held && [] + held == held;
    } else {
      var q := held + [gs[0]];
      assert q + gs[1..] == held + gs;
      DrainRight(m, q);
      var d := Drain(m, q);
      if d.r.Went? {
        FeedFollows(d.r.m, d.left, gs[1..]);
        var f := Feed(d.r.m, d.left, gs[1..]);
        EventsJoin(d.taken, f.taken);
        NestedJoin(Pile(m), EventsOf(d.taken), EventsOf(f.taken));
        Behind(d.taken, d.left, f.taken, f.left, gs[1..]);
      }
    }
  }

  lemma HeldBack(q: seq<Given>)
    requires NeedMore(q)
    ensures |q| <= 3
  {
  }

  lemma Behind(a: seq<Given>, b: seq<Given>, c: seq<Given>, d: seq<Given>, gs: seq<Given>)
    requires c + d <= b + gs
    ensures a + c + d <= a + b + gs && (c + d == b + gs ==> a + c + d == a + b + gs)
  {
    assert a + c + d == a + (c + d) && a + b + gs == a + (b + gs);
  }

  // ----- the emitter with its fields -----

  class Machine {
    var events: seq<Given>
    var mode: Mode
    var modes: seq<Mode>
    var indents: seq<int>
    var indent: int
    var flowLevel: int
    var best: int
    var canonical: bool
    var failed: bool

    ghost function View(): Emitter
      reads this
    {
      Emitter(mode, modes, indents, indent, flowLevel, best, canonical)
    }

    ghost predicate Did(ok: bool, expected: Outcome)
      reads this
    {
      match expected
      case Went(m) => ok && View() == m && !failed
      case _ => !ok && failed
    }

    constructor (best: int, canonical: bool)
      ensures View() == Fresh(best, canonical) && events == [] && !failed
    {
      events, mode, modes, indents, indent, flowLevel := [], Beginning, [], [], 0, 0;
      this.best, this.canonical, failed := best, canonical, false;
    }

    /** Takes an event, and then all that need not be held back. */
    method Emit(g: Given) returns (ok: bool)
      requires !failed
      modifies this
      ensures var d := Drain(old(View()), old(events) + [g]); Did(ok, d.r) && events == d.left
    {
      hide Advance, NeedMore;
      events := events + [g];
      ghost var q := events;
      ok := true;
      ghost var m := View();
      while true
        invariant !failed && ok && Drain(View(), events).r == Drain(m, q).r && Drain(View(), events).left == Drain(m, q).left
        decreases |events|
      {
        var more := NeedMoreEvents();
        if more {
          return;
        }
        NotEmpty(events);
        ok := StateMachine(events[0]);
        if !ok {
          return;
        }
        events := events[1..];
      }
    }

    method NeedMoreEvents() returns (more: bool)
      ensures more == NeedMore(events)
    {
      if events == [] {
        return true;
      }
      var accumulate := match events[0].event
        case Inside(DocumentStart) => 1
        case Inside(SequenceStart(_, _, _)) => 2
        case Inside(MappingStart(_, _, _)) => 3
        case _ => 0;
      if accumulate == 0 || |events| > accumulate {
        return false;
      }
      var level := 0;
      assert events[0..] == events;
      for k := 0 to |events|
        invariant Closes(events, 0) == Closes(events[k..], level)
      {
        assert events[k..][0] == events[k] && events[k..][1..] == events[k + 1..];
        level := level + Rise(events[k].event);
        if level == 0 {
          return false;
        }
      }
      more := true;
    }

    method Error() returns (ok: bool)
      modifies this`failed
      ensures failed && !ok
    {
      failed, ok := true, false;
    }

    method StateMachine(g: Given) returns (ok: bool)
      requires !failed && events != [] && events[0] == g
      modifies this
      ensures events == old(events) && Did(ok, Advance(old(View()), g, Empty(events)))
    {
      hide ItemAdvance, KeyAdvance, ValueAdvance, NodeAdvance, DocumentAdvance;
      if !g.fine {
        ok := Error();
        return;
      }
      match mode
      case Beginning => ok := EmitStreamStart(g);
      case FirstDocument => ok := EmitDocumentStart(g);
      case NextDocument => ok := EmitDocumentStart(g);
      case Content =>
        modes := modes + [DocumentOver];
        ok := EmitNode(g);
      case DocumentOver =>
        if g.event == Inside(DocumentEnd) {
          mode := NextDocument;
          ok := true;
        } else {
          ok := Error();
        }
      case FlowItemFirst => ok := EmitSequenceItem(g, true, true);
      case FlowItem => ok := EmitSequenceItem(g, false, true);
      case FlowKeyFirst => ok := EmitMappingKey(g, true, true);
      case FlowKey => ok := EmitMappingKey(g, false, true);
      case FlowSimpleValue => ok := EmitMappingValue(g, true);
      case FlowValue => ok := EmitMappingValue(g, true);
      case BlockItemFirst => ok := EmitSequenceItem(g, true, false);
      case BlockItem => ok := EmitSequenceItem(g, false, false);
      case BlockKeyFirst => ok := EmitMappingKey(g, true, false);
      case BlockKey => ok := EmitMappingKey(g, false, false);
      case BlockSimpleValue => ok := EmitMappingValue(g, false);
      case BlockValue => ok := EmitMappingValue(g, false);
      case Finished => ok := Error();
    }

    method EmitStreamStart(g: Given) returns (ok: bool)
      requires !failed && g.fine && mode.Beginning?
      modifies this
      ensures events == old(events) && Did(ok, Advance(old(View()), g, Empty(events)))
    {
      if !g.event.StreamStart? {
        ok := Error();
        return;
      }
      if best < 2 || best > 9 {
        best := 2;
      }
      indent := -1;
      mode := FirstDocument;
      ok := true;
    }

    method EmitDocumentStart(g: Given) returns (ok: bool)
      requires !failed
      modifies this
      ensures events == old(events) && Did(ok, DocumentAdvance(old(View()), g))
    {
      ok := true;
      if g.event == Inside(DocumentStart) {
        mode := Content;
      } else if g.event.StreamEnd? {
        mode := Finished;
      } else {
        ok := Error();
      }
    }

    method IncreaseIndent(flow: bool, indentless: bool)
      modifies this`indents, this`indent
      ensures View() == Increase(old(View()), flow, indentless)
    {
      indents := indents + [indent];
      if indent < 0 {
        indent := if flow then best else 0;
      } else if !indentless {
        indent := indent + best;
      }
    }

    /** The end of a collection: the indentation and the mode before it come back. */
    method End(flow: bool) returns (ok: bool)
      requires !failed
      modifies this
      ensures events == old(events) && Did(ok, Close(old(View()), flow))
    {
      if indents == [] || modes == [] {
        ok := Error();
        return;
      }
      if flow {
        flowLevel := flowLevel - 1;
      }
      indent := indents[|indents| - 1];
      indents := indents[..|indents| - 1];
      mode := modes[|modes| - 1];
      modes := modes[..|modes| - 1];
      ok := true;
    }

    method EmitSequenceItem(g: Given, first: bool, flow: bool) returns (ok: bool)
      requires !failed && events != [] && events[0] == g
      modifies this
      ensures events == old(events) && Did(ok, ItemAdvance(old(View()), g, Empty(events), first, flow))
    {
      hide NodeAdvance, Close;
      if first {
        IncreaseIndent(flow, !flow && g.indentless);
        if flow {
          flowLevel := flowLevel + 1;
        }
      }
      if g.event == Inside(SequenceEnd) {
        ok := End(flow);
      } else {
        modes := modes + [if flow then FlowItem else BlockItem];
        ok := EmitNode(g);
      }
    }

    method EmitMappingKey(g: Given, first: bool, flow: bool) returns (ok: bool)
      requires !failed && events != [] && events[0] == g
      modifies this
      ensures events == old(events) && Did(ok, KeyAdvance(old(View()), g, Empty(events), first, flow))
    {
      hide NodeAdvance, Close, SimpleKey, Empty;
      if first {
        IncreaseIndent(flow, false);
        if flow {
          flowLevel := flowLevel + 1;
        }
      }
      if g.event == Inside(MappingEnd) {
        ok := End(flow);
      } else {
        var simple := !(flow && canonical) && SimpleKey(g, Empty(events));
        modes := modes + [if flow then (if simple then FlowSimpleValue else FlowValue)
                          else if simple then BlockSimpleValue else BlockValue];
        ok := EmitNode(g);
      }
    }

    method EmitMappingValue(g: Given, flow: bool) returns (ok: bool)
      requires !failed && events != [] && events[0] == g
      modifies this
      ensures events == old(events) && Did(ok, ValueAdvance(old(View()), g, Empty(events), flow))
    {
      hide NodeAdvance;
      modes := modes + [if flow then FlowKey else BlockKey];
      ok := EmitNode(g);
    }

    /** A node: a leaf brings the mode below back, a collection begins in flow or block style. */
    method EmitNode(g: Given) returns (ok: bool)
      requires !failed && events != [] && events[0] == g
      modifies this
      ensures events == old(events) && Did(ok, NodeAdvance(old(View()), g, Empty(events)))
    {
      ok := true;
      var flow := flowLevel != 0 || canonical || g.flow || Empty(events);
      if g.event.Inside? && (g.event.event.ScalarEvent? || (g.event.event.Alias? && g.event.event.anchor.Some?)) {
        if modes == [] {
          ok := Error();
          return;
        }
        mode := modes[|modes| - 1];
        modes := modes[..|modes| - 1];
      } else if g.event.Inside? && g.event.event.SequenceStart? {
        mode := if flow then FlowItemFirst else BlockItemFirst;
      } else if g.event.Inside? && g.event.event.MappingStart? {
        mode := if flow then FlowKeyFirst else BlockKeyFirst;
      } else {
        ok := Error();
      }
    }
  }
}
