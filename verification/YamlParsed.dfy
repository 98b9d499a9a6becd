/** The loader on the parser's events: what the parser emits never trips the loader's
    assertions, whatever the tokens were. */
module YamlParsed {
  import opened Options
  import opened YamlDumper
  import opened YamlGraph
  import opened YamlLoader
  import opened YamlNesting
  import P = YamlParser

  /** The node for an open collection is of its kind, and a mapping's last pair waits for
      its value just when it has an odd number of children. */
  predicate Kind(n: Node, f: Frame) {
    (f.Seq? && n.Sequence?) || (f.Map? && n.Mapping? && Pending(n.pairs) == f.odd)
  }

  predicate Held(st: Loading, nest: Nest, i: nat)
    requires i < |st.ctx| && i + 2 < |nest|
  {
    1 <= st.ctx[i] <= |st.nodes| && Kind(st.nodes[st.ctx[i] - 1], nest[i + 2])
  }

  /** The loader's stack of open collections is the nest inside the document. */
  ghost predicate Matches(st: Loading, nest: Nest) {
    var d := |st.ctx|;
    && |nest| == d + 2 && nest[0].Stream? && nest[1].Doc?
    && (forall i | 0 <= i < d :: Held(st, nest, i))
    && (forall i, j | 0 <= i < j < d :: st.ctx[i] != st.ctx[j])
    && (forall k | 0 <= k < |st.aliases| :: 1 <= st.aliases[k].index)
  }

  lemma {:induction false} AliasFound(aliases: seq<AliasData>, anchor: string)
    requires Registered(aliases, anchor) && forall k | 0 <= k < |aliases| :: 1 <= aliases[k].index
    ensures FindAlias(aliases, anchor) >= 1
  {
    if aliases[0].anchor != anchor {
      var k :| 0 <= k < |aliases| && aliases[k].anchor == anchor;
      assert aliases[1..][k - 1].anchor == anchor;
      AliasFound(aliases[1..], anchor);
    }
  }

  /** One child more below the innermost open collection, if there is one. */
  lemma HangMatches(st: Loading, nest: Nest, index: nat)
    requires Matches(st, nest) && Fill(nest).Some? && index >= 1
    ensures match Hang(st, index)
      case Going(t) => Matches(t, Fill(nest).value) && t.ctx == st.ctx && |t.nodes| == |st.nodes|
      case Failed(why) => !why.AssertionFailed?
  {
    if st.ctx != [] {
      var d := |st.ctx|;
      assert Held(st, nest, d - 1);
      var parent := st.ctx[d - 1];
      var n := st.nodes[parent - 1];
      if !Full(n) {
        var t, m := Hang(st, index).state, Fill(nest).value;
        Added(n, nest[d + 1], index);
        forall i | 0 <= i < d ensures Held(t, m, i) {
          assert Held(st, nest, i);
        }
      }
    }
  }

  lemma Added(n: Node, f: Frame, index: nat)
    requires Kind(n, f) && index >= 1
    ensures Kind(AddChild(n, index), if f.Map? then Map(!f.odd) else f)
  {
  }

  lemma PutMatches(st: Loading, nest: Nest, n: Node, anchor: Option<string>)
    requires Matches(st, nest) && Fill(nest).Some?
    ensures match Put(st, n, anchor)
      case Going(t) => Matches(t, Fill(nest).value) && t.ctx == st.ctx && |t.nodes| == |st.nodes| + 1
        && (forall i | 0 <= i < |st.ctx| :: st.ctx[i] <= |st.nodes|) && t.nodes[|st.nodes|] == n
      case Failed(why) => !why.AssertionFailed?
  {
    hide Matches, Fill, Hang, Registered;
    if |st.nodes| < LIMIT && !(anchor.Some? && Registered(st.aliases, anchor.value)) {
      var index := |st.nodes| + 1;
      var aliases := if anchor.Some? then st.aliases + [AliasData(anchor.value, index)] else st.aliases;
      var t := Loading(st.nodes + [n], aliases, st.ctx);
      Grown(st, nest, n, anchor);
      HangMatches(t, nest, index);
      Untouched(t, index);
    }
  }

  lemma Grown(st: Loading, nest: Nest, n: Node, anchor: Option<string>)
    requires Matches(st, nest)
    ensures forall i | 0 <= i < |st.ctx| :: st.ctx[i] <= |st.nodes|
    ensures var aliases := if anchor.Some? then st.aliases + [AliasData(anchor.value, |st.nodes| + 1)] else st.aliases;
      Matches(Loading(st.nodes + [n], aliases, st.ctx), nest)
  {
    hide Kind;
    var aliases := if anchor.Some? then st.aliases + [AliasData(anchor.value, |st.nodes| + 1)] else st.aliases;
    var t := Loading(st.nodes + [n], aliases, st.ctx);
    forall i | 0 <= i < |t.ctx| ensures Held(t, nest, i) && st.ctx[i] <= |st.nodes| {
      assert Held(st, nest, i);
    }
  }

  lemma Untouched(st: Loading, index: nat)
    requires forall i | 0 <= i < |st.ctx| :: st.ctx[i] < |st.nodes|
    ensures match Hang(st, index)
      case Going(t) => |t.nodes| == |st.nodes| && (st.nodes != [] ==> t.nodes[|t.nodes| - 1] == st.nodes[|st.nodes| - 1])
      case Failed(_) => true
  {
  }

  /** The collection just put is the innermost open one. */
  lemma EnterMatches(st: Loading, nest: Nest, f: Frame)
    requires Matches(st, nest) && st.nodes != [] && Kind(st.nodes[|st.nodes| - 1], f)
    requires forall i | 0 <= i < |st.ctx| :: st.ctx[i] < |st.nodes|
    ensures match Enter(Going(st))
      case Going(t) => Matches(t, nest + [f])
      case Failed(why) => !why.AssertionFailed?
  {
    if |st.ctx| < LIMIT {
      var t := Enter(Going(st)).state;
      forall i | 0 <= i < |t.ctx| ensures Held(t, nest + [f], i) {
        if i < |st.ctx| { assert Held(st, nest, i); }
      }
    }
  }

  lemma LeaveMatches(st: Loading, nest: Nest, mapping: bool)
    requires Matches(st, nest) && Top(nest) == if mapping then Map(false) else Seq
    ensures match Leave(st, mapping)
      case Going(t) => Matches(t, Under(nest))
      case Failed(_) => false
  {
    var d := |st.ctx|;
    assert Held(st, nest, d - 1);
    var t := Leave(st, mapping).state;
    forall i | 0 <= i < |t.ctx| ensures Held(t, Under(nest), i) {
      assert Held(st, nest, i);
    }
  }

  predicate InDocument(e: Event) {
    !e.DocumentStart? && !e.DocumentEnd?
  }

  /** A well nested event keeps the two stacks alike, and fails no assertion. */
  lemma StepMatches(st: Loading, nest: Nest, e: Event)
    requires Matches(st, nest) && InDocument(e) && Accept(nest, P.Inside(e)).Some?
    ensures match Step(st, e)
      case Going(t) => Matches(t, Accept(nest, P.Inside(e)).value)
      case Failed(why) => !why.AssertionFailed?
  {
    match e
    case Alias(anchor) =>
      if Registered(st.aliases, anchor.value) {
        AliasFound(st.aliases, anchor.value);
        hide Registered, Matches, Hang, Fill;
        HangMatches(st, nest, FindAlias(st.aliases, anchor.value));
      }
    case ScalarEvent(anchor, tag, value, _) =>
      hide Matches, Hang, Fill, Put;
      PutMatches(st, nest, Scalar(TagOr(tag, SCALAR_TAG), value), anchor);
    case SequenceStart(anchor, tag, _) =>
      hide Matches, Hang, Fill, Put, Enter;
      var n := Sequence(TagOr(tag, SEQUENCE_TAG), []);
      PutMatches(st, nest, n, anchor);
      var r := Put(st, n, anchor);
      if r.Going? { EnterMatches(r.state, Fill(nest).value, Seq); } else { EnterFailed(r); }
    case MappingStart(anchor, tag, _) =>
      hide Matches, Hang, Fill, Put, Enter;
      var n := Mapping(TagOr(tag, MAPPING_TAG), []);
      PutMatches(st, nest, n, anchor);
      var r := Put(st, n, anchor);
      if r.Going? { EnterMatches(r.state, Fill(nest).value, Map(false)); } else { EnterFailed(r); }
    case SequenceEnd =>
      hide Matches;
      LeaveMatches(st, nest, false);
    case MappingEnd =>
      hide Matches;
      LeaveMatches(st, nest, true);
  }

  lemma EnterFailed(r: Outcome)
    requires r.Failed?
    ensures Enter(r) == r
  {
  }

  function Wrap(es: seq<Event>): seq<P.Parsed> {
    if es == [] then [] else [P.Inside(es[0])] + Wrap(es[1..])
  }

  /** Any part of a document, from any point that matches. */
  lemma {:induction false} StepsMatch(st: Loading, nest: Nest, es: seq<Event>)
    requires Matches(st, nest) && Nested(nest, Wrap(es)).Some? && forall e | e in es :: InDocument(e)
    ensures match Steps(st, es)
      case Going(t) => Matches(t, Nested(nest, Wrap(es)).value)
      case Failed(why) => !why.AssertionFailed?
    decreases |es|
  {
    if es != [] {
      hide Matches, Accept, Step;
      assert es[0] in es;
      assert Wrap(es)[1..] == Wrap(es[1..]);
      StepMatches(st, nest, es[0]);
      var r := Step(st, es[0]);
      if r.Going? {
        StepsMatch(r.state, Accept(nest, P.Inside(es[0])).value, es[1..]);
      }
    }
  }

  const START: Loading := Loading([], [], [])

  /** Whatever the tokens, wherever a document starts in what the parser emits: loading
      what follows, up to its end, fails only for an undefined alias, a repeated anchor or
      a full stack, and at its end no collection is open. */
  lemma ParsedLoads(tokens: seq<P.Token>, before: seq<P.Parsed>, body: seq<Event>, after: seq<P.Parsed>)
    requires Run(Initial(tokens)).events == before + [P.Inside(DocumentStart)] + Wrap(body) + after
    requires forall e | e in body :: InDocument(e)
    ensures match Steps(START, body)
      case Going(t) => after != [] && after[0] == P.Inside(DocumentEnd) ==> t.ctx == []
      case Failed(why) => !why.AssertionFailed?
  {
    hide Run, Accept, Matches, Step;
    var all := Run(Initial(tokens)).events;
    RunGood(Initial(tokens));
    var upto := before + [P.Inside(DocumentStart)];
    NestedJoin([], upto + Wrap(body), after);
    NestedJoin([], upto, Wrap(body));
    NestedJoin([], before, [P.Inside(DocumentStart)]);
    DocumentOpens(Nested([], before).value);
    StartMatches();
    StepsMatch(START, [Stream, Doc(false)], body);
    if after != [] && after[0] == P.Inside(DocumentEnd) && Steps(START, body).Going? {
      DocumentCloses(Steps(START, body).state, Nested([], upto + Wrap(body)).value, after);
    }
  }

  lemma DocumentOpens(nest: Nest)
    requires Nested(nest, [P.Inside(DocumentStart)]).Some?
    ensures Nested(nest, [P.Inside(DocumentStart)]) == Some([Stream, Doc(false)])
  {
    assert [P.Inside(DocumentStart)][1..] == [];
    assert Nested([Stream, Doc(false)], []) == Some([Stream, Doc(false)]);
  }

  lemma DocumentCloses(st: Loading, nest: Nest, after: seq<P.Parsed>)
    requires Matches(st, nest) && after != [] && after[0] == P.Inside(DocumentEnd) && Nested(nest, after).Some?
    ensures st.ctx == []
  {
  }

  lemma StartMatches()
    ensures Matches(START, [Stream, Doc(false)])
  {
  }
}
