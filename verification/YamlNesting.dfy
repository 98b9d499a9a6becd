/** Well-nested event streams, and the parser's stacks as a picture of the nesting. */
module YamlNesting {
  import opened Options
  import opened YamlDumper
  import opened YamlParser

  /** What is open, outermost first: a document with its root or not yet, a sequence, a
      mapping with an even or an odd number of children so far. */
  datatype Frame = Stream | Over | Doc(full: bool) | Seq | Map(odd: bool)

  type Nest = seq<Frame>

  function Top(n: Nest): Frame
    requires n != []
  {
    n[|n| - 1]
  }

  function Under(n: Nest): Nest
    requires n != []
  {
    n[..|n| - 1]
  }

  /** One node more for the innermost open collection or document. */
  function Fill(n: Nest): Option<Nest> {
    if n == [] then None else
      match Top(n)
      case Doc(full) => if full then None else Some(Under(n) + [Doc(true)])
      case Seq => Some(n)
      case Map(odd) => Some(Under(n) + [Map(!odd)])
      case _ => None
  }

  /** An event that keeps the stream well nested: a mapping ends only with as many values
      as keys, a document only with one root. */
  function Accept(n: Nest, e: Parsed): Option<Nest> {
    match e
    case StreamStart => if n == [] then Some([Stream]) else None
    case StreamEnd => if n == [Stream] then Some([Over]) else None
    case Inside(DocumentStart) => if n == [Stream] then Some([Stream, Doc(false)]) else None
    case Inside(DocumentEnd) => if n == [Stream, Doc(true)] then Some([Stream]) else None
    case Inside(Alias(anchor)) => if anchor.Some? then Fill(n) else None
    case Inside(ScalarEvent(_, _, _, _)) => Fill(n)
    case Inside(SequenceStart(_, _, _)) => if Fill(n).None? then None else Some(Fill(n).value + [Seq])
    case Inside(MappingStart(_, _, _)) => if Fill(n).None? then None else Some(Fill(n).value + [Map(false)])
    case Inside(SequenceEnd) => if n != [] && Top(n) == Seq then Some(Under(n)) else None
    case Inside(MappingEnd) => if n != [] && Top(n) == Map(false) then Some(Under(n)) else None
  }

  // ----- the picture -----

  /** What a state stands for: the collections it is in the middle of. */
  function Here(s: State): Nest {
    match s
    case AtDocumentEnd => [Doc(true)]
    case BlockSequenceFirst => [Seq]
    case BlockSequenceEntry => [Seq]
    case IndentlessEntry => [Seq]
    case BlockMappingFirst => [Map(false)]
    case BlockMappingKey => [Map(false)]
    case BlockMappingValue => [Map(true)]
    case FlowSequenceFirst => [Seq]
    case FlowSequenceEntry => [Seq]
    case PairKey => [Seq, Map(false)]
    case PairValue => [Seq, Map(true)]
    case PairEnd => [Seq, Map(false)]
    case FlowMappingFirst => [Map(false)]
    case FlowMappingKey => [Map(false)]
    case FlowMappingValue => [Map(true)]
    case FlowMappingEmpty => [Map(true)]
    case _ => []
  }

  /** A state to come back to in the middle of a collection. */
  predicate Resumed(s: State) {
    s.BlockSequenceEntry? || s.IndentlessEntry? || s.BlockMappingKey? || s.BlockMappingValue?
    || s.FlowSequenceEntry? || s.PairValue? || s.PairEnd?
    || s.FlowMappingKey? || s.FlowMappingValue? || s.FlowMappingEmpty?
  }

  predicate Starts(s: State) {
    s.BlockSequenceFirst? || s.BlockMappingFirst? || s.FlowSequenceFirst? || s.FlowMappingFirst?
  }

  /** The collections whose mark is kept. */
  function Marked(s: State): nat {
    if s.IndentlessEntry? || s.AtDocumentEnd? || Starts(s) then 0 else 1
  }

  function Pictures(states: seq<State>): Nest {
    if states == [] then [Stream] else Pictures(states[..|states| - 1]) + Here(states[|states| - 1])
  }

  function MarksOf(states: seq<State>): nat {
    if states == [] then 0 else MarksOf(states[..|states| - 1]) + Marked(states[|states| - 1])
  }

  /** An indentless sequence stands only in a block mapping. */
  predicate Fits(states: seq<State>, s: State) {
    s.IndentlessEntry? ==> states != [] && (states[|states| - 1].BlockMappingKey? || states[|states| - 1].BlockMappingValue?)
  }

  predicate Stacked(states: seq<State>) {
    states != [] &&
    var s, below := states[|states| - 1], states[..|states| - 1];
    if below == [] then s.AtDocumentEnd? else Resumed(s) && Fits(below, s) && Stacked(below)
  }

  /** A state between documents. */
  predicate Outside(s: State) {
    s.AtStreamStart? || s.AtImplicitDocument? || s.AtDocument? || s.AtDocumentEnd? || s.AtEnd?
  }

  /** The token that a state just pushed for a collection has yet to skip. */
  predicate Ready(s: State, tokens: seq<Token>) {
    Starts(s) ==> tokens != [] && !tokens[0].EndStream?
  }

  predicate Sound(p: Parser) {
    var s := p.state;
    && (p.ended <==> s.AtEnd?)
    && (if Outside(s) then p.states == [] && p.marks == []
        else if s.AtContent? || s.AtBlockNode? then p.states == [AtDocumentEnd] && p.marks == []
        else Amid(p))
  }

  predicate Amid(p: Parser) {
    var s := p.state;
    && (Resumed(s) || Starts(s) || s.PairKey?) && Stacked(p.states) && Fits(p.states, s) && Ready(s, p.tokens)
    && |p.marks| == MarksOf(p.states) + Marked(s)
  }

  function NestOf(p: Parser): Nest {
    match p.state
    case AtStreamStart => []
    case AtEnd => [Over]
    case AtContent => [Stream, Doc(false)]
    case AtBlockNode => [Stream, Doc(false)]
    case _ => Pictures(p.states) + Here(p.state)
  }

  // ----- how far there is to go -----

  /** How many events can come in a row without a token being skipped. */
  function Rank(s: State): nat {
    match s
    case AtImplicitDocument => 2
    case AtContent => 2
    case IndentlessEntry => 2
    case AtBlockNode => 1
    case AtDocumentEnd => 1
    case BlockMappingValue => 1
    case PairKey => 1
    case PairValue => 2
    case PairEnd => 1
    case FlowMappingValue => 1
    case FlowMappingEmpty => 1
    case _ => 0
  }

  function Distance(p: Parser): nat {
    3 * |p.tokens| + Rank(p.state)
  }

  /** An event keeps the stream well nested, the stacks in shape, and gets nearer the end. */
  ghost predicate Good(n: Nest, far: nat, r: Result) {
    match r
    case Emit(q, e) => Accept(n, e) == Some(NestOf(q)) && Sound(q) && Distance(q) < far
    case Fail(why) => !why.Broken?
  }

  lemma PictureTop(states: seq<State>, s: State)
    ensures Pictures(states + [s]) == Pictures(states) + Here(s) && MarksOf(states + [s]) == MarksOf(states) + Marked(s)
    ensures Stacked(states + [s]) <==> if states == [] then s.AtDocumentEnd? else Resumed(s) && Fits(states, s) && Stacked(states)
  {
    var t := states + [s];
    assert t[..|t| - 1] == states && t[|t| - 1] == s;
  }

  /** A node has yet to come, and the state to come back to is pushed already. */
  ghost predicate Owing(n: Nest, p: Parser, marks: nat) {
    var k := MarksOf(p.states);
    !p.ended && Stacked(p.states) && Fill(n) == Some(Pictures(p.states)) && marks == k
  }

  ghost predicate Within(n: Nest, p: Parser, s: State) {
    var k := MarksOf(p.states);
    !p.ended && Stacked(p.states) && Resumed(s) && Fits(p.states, s) && n == Pictures(p.states) + Here(s) && |p.marks| == k + Marked(s)
  }

  lemma Pop(states: seq<State>)
    requires Stacked(states)
    ensures states != [] && var s, below := states[|states| - 1], states[..|states| - 1];
      && Pictures(states) == Pictures(below) + Here(s) && MarksOf(states) == MarksOf(below) + Marked(s)
      && if below == [] then s.AtDocumentEnd? else Resumed(s) && Fits(below, s) && Stacked(below)
  {
  }

  /** Coming back to the state last pushed, with the nest it pictures. */
  lemma PoppedGood(n: Nest, p: Parser, e: Event, far: nat)
    requires Stacked(p.states) && !p.ended && |p.marks| == MarksOf(p.states)
    requires Accept(n, Inside(e)) == Some(Pictures(p.states))
    requires 3 * |p.tokens| + Rank(p.states[|p.states| - 1]) < far
    ensures Good(n, far, Popped(p, e))
  {
    hide Accept, Fits, Stacked, Pictures, MarksOf, Marked, Here;
    Pop(p.states);
    if |p.states| == 1 { NothingBelow(); } else { ResumedIs(p.states[|p.states| - 1]); }
  }

  lemma NothingBelow()
    ensures Pictures([]) == [Stream] && MarksOf([]) == 0 && Marked(AtDocumentEnd) == 0
  {
  }

  lemma ResumedIs(s: State)
    requires Resumed(s)
    ensures !Outside(s) && !s.AtContent? && !s.AtBlockNode? && !Starts(s)
  {
  }

  lemma MissingGood(n: Nest, p: Parser, s: State, far: nat)
    requires Stacked(p.states) && !p.ended && Resumed(s) && Fits(p.states, s) && |p.marks| == MarksOf(p.states) + Marked(s)
    requires Fill(n) == Some(Pictures(p.states) + Here(s)) && 3 * |p.tokens| + Rank(s) < far
    ensures Good(n, far, Missing(p, s))
  {
    hide Fits, Stacked, Pictures, MarksOf, Fill;
  }

  lemma StartGood(n: Nest, p: Parser, s: State, e: Event, far: nat)
    requires Owing(n, p, |p.marks|) && 3 * |p.tokens| + Rank(s) < far && Fits(p.states, s) && Ready(s, p.tokens)
    requires (e.SequenceStart? && (s.BlockSequenceFirst? || s.FlowSequenceFirst? || s.IndentlessEntry?))
             || (e.MappingStart? && (s.BlockMappingFirst? || s.FlowMappingFirst?))
    ensures Good(n, far, Emit(p.(state := s), Inside(e)))
  {
    hide Fits, Stacked, Pictures, MarksOf, Fill;
  }

  // ----- every step -----

  lemma PropertiesKeep(p: Parser)
    requires p.tokens != [] && !p.ended
    ensures Propertied(p).Some? ==>
      var q, r := Propertied(p).value.0, Propertied(p).value.1;
      && q.tokens != [] && q == p.(tokens := q.tokens)
      && |q.tokens| + (if r.anchor.Some? || r.handle.Some? then 1 else 0) <= |p.tokens|
  {
  }

  lemma ContentGood(n: Nest, p: Parser, anchor: Option<string>, tag: Option<string>, block: bool, indentless: bool, far: nat)
    requires Owing(n, p, |p.marks|) && p.tokens != []
    requires 3 * |p.tokens| + (if anchor.Some? || tag.Some? then 4 else 1) <= far
    requires indentless ==> 3 * |p.tokens| + 3 <= far && Fits(p.states, IndentlessEntry)
    ensures Good(n, far, ContentStep(p, anchor, tag, block, indentless))
  {
    hide Good, Stacked, MarksOf, Pictures, Fits, Fill;
    var t, none := p.tokens[0], tag.None? || tag.value == "";
    Pop2(p.states);
    if indentless && t.Dash? {
      StartGood(n, p, IndentlessEntry, SequenceStart(anchor, tag, none), far);
    } else if t.Text? {
      PoppedGood(n, Skip(p), ScalarEvent(anchor, tag, t.text, (t.plain && tag.None?) || tag == Some("!")), far);
    } else if t.StartFlowSequence? {
      StartGood(n, p, FlowSequenceFirst, SequenceStart(anchor, tag, none), far);
    } else if t.StartFlowMapping? {
      StartGood(n, p, FlowMappingFirst, MappingStart(anchor, tag, none), far);
    } else if block && t.StartBlockSequence? {
      StartGood(n, p, BlockSequenceFirst, SequenceStart(anchor, tag, none), far);
    } else if block && t.StartBlockMapping? {
      StartGood(n, p, BlockMappingFirst, MappingStart(anchor, tag, none), far);
    } else if anchor.Some? || tag.Some? {
      PoppedGood(n, p, ScalarEvent(anchor, tag, "", none), far);
    } else {
      FailGood(n, far, Syntax);
    }
  }

  lemma Pop2(states: seq<State>)
    requires Stacked(states)
    ensures states != []
    ensures forall s: State :: !s.IndentlessEntry? ==> Fits(states, s)
  {
  }

  lemma FailGood(n: Nest, far: nat, why: Failure)
    requires !why.Broken?
    ensures Good(n, far, Fail(why))
  {
  }

  lemma NodeGood(n: Nest, p: Parser, block: bool, indentless: bool, far: nat)
    requires Owing(n, p, |p.marks|) && 3 * |p.tokens| + 1 <= far
    requires indentless ==> 3 * |p.tokens| + 3 <= far && Fits(p.states, IndentlessEntry)
    ensures Good(n, far, NodeStep(p, block, indentless))
  {
    hide Good, Stacked, MarksOf, Pictures, Fits, Fill, ContentStep;
    if p.tokens == [] {
      FailGood(n, far, NoToken);
    } else if p.tokens[0].AliasToken? {
      Pop2(p.states);
      PoppedGood(n, Skip(p), Alias(Some(p.tokens[0].name)), far);
    } else {
      PropertiesKeep(p);
      hide Propertied;
      FailGood(n, far, NoToken);
      FailGood(n, far, Syntax);
      if Propertied(p).Some? {
        var q, r := Propertied(p).value.0, Propertied(p).value.1;
        var tag := FullTag(p.tags, r);
        if tag.Some? {
          ContentGood(n, q, r.anchor, tag.value, block, indentless, far);
        }
      }
    }
  }

  /** A node after a state is pushed. */
  lemma PushedGood(n: Nest, p: Parser, s: State, block: bool, indentless: bool, far: nat)
    requires Stacked(p.states) && !p.ended && Resumed(s) && Fits(p.states, s) && |p.marks| == MarksOf(p.states) + Marked(s)
    requires Fill(n) == Some(Pictures(p.states) + Here(s)) && 3 * |p.tokens| + 1 <= far
    requires indentless ==> 3 * |p.tokens| + 3 <= far && (s.BlockMappingKey? || s.BlockMappingValue?)
    ensures Good(n, far, NodeStep(Push(p, s), block, indentless))
  {
    hide Good, NodeStep, Pictures, Stacked, MarksOf, Fill;
    PictureTop(p.states, s);
    Pop2(p.states);
    NodeGood(n, Push(p, s), block, indentless, far);
  }

  lemma ClosedGood(n: Nest, p: Parser, e: Event, far: nat)
    requires Stacked(p.states) && !p.ended && |p.marks| == MarksOf(p.states) + 1 && p.tokens != [] && !p.tokens[0].EndStream?
    requires Accept(n, Inside(e)) == Some(Pictures(p.states)) && 3 * |p.tokens| <= far
    ensures Good(n, far, Closed(p, e))
  {
    hide Good, Accept, Pictures, Stacked, MarksOf, Popped;
    Pop2(p.states);
    PoppedGood(n, Skip(p).(marks := p.marks[..|p.marks| - 1]), e, far);
  }

  /** What filling and ending do to the nest of a state. */
  lemma FillHere(n: Nest, s: State)
    requires Here(s) != []
    ensures Fill(n + Here(s)) == (if Top(Here(s)).Seq? then Some(n + Here(s))
                                  else if |Here(s)| == 2 then Some(n + [Seq, Map(!Top(Here(s)).odd)])
                                  else if Top(Here(s)).Map? then Some(n + [Map(!Top(Here(s)).odd)]) else Fill(n + Here(s)))
    ensures |Here(s)| == 1 ==> Under(n + Here(s)) == n
    ensures |Here(s)| == 2 ==> Under(n + Here(s)) == n + [Seq]
    ensures Top(n + Here(s)) == Top(Here(s))
  {
    var h := Here(s);
    assert (n + h)[..|n + h| - 1] == n + h[..|h| - 1];
    assert |h| == 1 ==> h[..0] == [] && n + [] == n;
    assert |h| == 2 ==> h[..1] == [Seq] && forall x: Frame :: n + [Seq] + [x] == n + [Seq, x];
  }

  lemma BlockSequenceGood(n: Nest, p: Parser, far: nat)
    requires Within(n, p, BlockSequenceEntry) && 3 * |p.tokens| <= far
    ensures Good(n, far, BlockSequenceStep(p))
  {
    hide Good, NodeStep, Pictures, Stacked, MarksOf, Fill, Missing, Closed, Fits;
    FillHere(Pictures(p.states), BlockSequenceEntry);
    FailGood(n, far, NoToken);
    FailGood(n, far, Syntax);
    Pop2(p.states);
    if p.tokens != [] && p.tokens[0].Dash? && |p.tokens| > 1 {
      var q := Skip(p);
      if !q.tokens[0].Dash? && !q.tokens[0].EndBlock? {
        PushedGood(n, q, BlockSequenceEntry, true, false, far);
      } else {
        MissingGood(n, q, BlockSequenceEntry, far);
      }
    } else if p.tokens != [] && p.tokens[0].EndBlock? {
      ClosedGood(n, p, SequenceEnd, far);
    }
  }

  lemma IndentlessGood(n: Nest, p: Parser, far: nat)
    requires Within(n, p, IndentlessEntry) && 3 * |p.tokens| + 2 <= far
    ensures Good(n, far, IndentlessStep(p))
  {
    hide Good, NodeStep, Pictures, Stacked, MarksOf, Fill, Missing, Popped;
    FillHere(Pictures(p.states), IndentlessEntry);
    FailGood(n, far, NoToken);
    if p.tokens != [] && p.tokens[0].Dash? && |p.tokens| > 1 {
      var q := Skip(p);
      var t := q.tokens[0];
      if !t.Dash? && !t.Key? && !t.Value? && !t.EndBlock? {
        PushedGood(n, q, IndentlessEntry, true, false, far);
      } else {
        MissingGood(n, q, IndentlessEntry, far);
      }
    } else if p.tokens != [] && !p.tokens[0].Dash? {
      PoppedGood(n, p, SequenceEnd, far);
    }
  }

  lemma BlockMappingKeyGood(n: Nest, p: Parser, far: nat)
    requires Within(n, p, BlockMappingKey) && 3 * |p.tokens| <= far
    ensures Good(n, far, BlockMappingKeyStep(p))
  {
    hide Good, NodeStep, Pictures, Stacked, MarksOf, Fill, Missing, Closed, Fits;
    FillHere(Pictures(p.states), BlockMappingKey);
    FailGood(n, far, NoToken);
    FailGood(n, far, Syntax);
    Pop2(p.states);
    if p.tokens != [] && p.tokens[0].Key? && |p.tokens| > 1 {
      var q := Skip(p);
      var t := q.tokens[0];
      if !t.Key? && !t.Value? && !t.EndBlock? {
        PushedGood(n, q, BlockMappingValue, true, true, far);
      } else {
        MissingGood(n, q, BlockMappingValue, far);
      }
    } else if p.tokens != [] && p.tokens[0].EndBlock? {
      ClosedGood(n, p, MappingEnd, far);
    }
  }

  lemma BlockMappingValueGood(n: Nest, p: Parser, far: nat)
    requires Within(n, p, BlockMappingValue) && 3 * |p.tokens| + 1 <= far
    ensures Good(n, far, BlockMappingValueStep(p))
  {
    hide Good, NodeStep, Pictures, Stacked, MarksOf, Fill, Missing, Fits;
    FillHere(Pictures(p.states), BlockMappingValue);
    FailGood(n, far, NoToken);
    Pop2(p.states);
    if p.tokens != [] && p.tokens[0].Value? && |p.tokens| > 1 {
      var q := Skip(p);
      var t := q.tokens[0];
      if !t.Key? && !t.Value? && !t.EndBlock? {
        PushedGood(n, q, BlockMappingKey, true, true, far);
      } else {
        MissingGood(n, q, BlockMappingKey, far);
      }
    } else if p.tokens != [] && !p.tokens[0].Value? {
      MissingGood(n, p, BlockMappingKey, far);
    }
  }

  lemma FlowSequenceGood(n: Nest, p: Parser, first: bool, far: nat)
    requires Within(n, p, FlowSequenceEntry) && 3 * |p.tokens| + (if first then 3 else 0) <= far
    ensures Good(n, far, FlowSequenceStep(p, first))
  {
    hide Good, NodeStep, Pictures, Stacked, MarksOf, Fill, Closed, Fits;
    FillHere(Pictures(p.states), FlowSequenceEntry);
    FailGood(n, far, NoToken);
    FailGood(n, far, Syntax);
    Pop2(p.states);
    if p.tokens != [] && p.tokens[0].EndFlowSequence? {
      ClosedGood(n, p, SequenceEnd, far);
    } else if p.tokens != [] && PastComma(p, first).Some? && PastComma(p, first).value.tokens != [] {
      var q := PastComma(p, first).value;
      if q.tokens[0].Key? {
        PairGood(n, q, far);
      } else if q.tokens[0].EndFlowSequence? {
        ClosedGood(n, q, SequenceEnd, far);
      } else {
        PushedGood(n, q, FlowSequenceEntry, false, false, far);
      }
    }
  }

  lemma PairGood(n: Nest, p: Parser, far: nat)
    requires Within(n, p, FlowSequenceEntry) && p.tokens != [] && p.tokens[0].Key? && 3 * |p.tokens| <= far
    ensures Good(n, far, Emit(Skip(p).(state := PairKey), Inside(MappingStart(None, None, true))))
  {
    hide Pictures, Stacked, MarksOf, Fill;
    FillHere(Pictures(p.states), FlowSequenceEntry);
    assert Pictures(p.states) + [Seq] + [Map(false)] == Pictures(p.states) + [Seq, Map(false)];
  }

  lemma PairKeyGood(n: Nest, p: Parser, far: nat)
    requires Stacked(p.states) && !p.ended && |p.marks| == MarksOf(p.states) + 1
    requires n == Pictures(p.states) + Here(PairKey) && 3 * |p.tokens| + 1 <= far
    ensures Good(n, far, PairKeyStep(p))
  {
    hide Good, NodeStep, Pictures, Stacked, MarksOf, Fill, Missing, Fits;
    FillHere(Pictures(p.states), PairKey);
    FailGood(n, far, NoToken);
    Pop2(p.states);
    if p.tokens != [] {
      var t := p.tokens[0];
      if !t.Value? && !t.Comma? && !t.EndFlowSequence? {
        PushedGood(n, p, PairValue, false, false, far);
      } else {
        MissingGood(n, Skip(p), PairValue, far);
      }
    }
  }

  lemma PairValueGood(n: Nest, p: Parser, far: nat)
    requires Within(n, p, PairValue) && 3 * |p.tokens| + 2 <= far
    ensures Good(n, far, PairValueStep(p))
  {
    hide Good, NodeStep, Pictures, Stacked, MarksOf, Fill, Missing, Fits;
    FillHere(Pictures(p.states), PairValue);
    FailGood(n, far, NoToken);
    Pop2(p.states);
    if p.tokens != [] && p.tokens[0].Value? && |p.tokens| > 1 {
      var q := Skip(p);
      if !q.tokens[0].Comma? && !q.tokens[0].EndFlowSequence? {
        PushedGood(n, q, PairEnd, false, false, far);
      } else {
        MissingGood(n, q, PairEnd, far);
      }
    } else if p.tokens != [] && !p.tokens[0].Value? {
      MissingGood(n, p, PairEnd, far);
    }
  }

  lemma PairEndGood(n: Nest, p: Parser, far: nat)
    requires Within(n, p, PairEnd) && 3 * |p.tokens| + 1 <= far
    ensures Good(n, far, PairEndStep(p))
  {
    hide Pictures, Stacked, MarksOf, Fill;
    FillHere(Pictures(p.states), PairEnd);
  }

  lemma FlowMappingKeyGood(n: Nest, p: Parser, first: bool, far: nat)
    requires Within(n, p, FlowMappingKey) && 3 * |p.tokens| + (if first then 3 else 0) <= far
    ensures Good(n, far, FlowMappingKeyStep(p, first))
  {
    hide Good, NodeStep, Pictures, Stacked, MarksOf, Fill, Closed, Fits, Missing;
    FillHere(Pictures(p.states), FlowMappingKey);
    FailGood(n, far, NoToken);
    FailGood(n, far, Syntax);
    Pop2(p.states);
    if p.tokens != [] && p.tokens[0].EndFlowMapping? {
      ClosedGood(n, p, MappingEnd, far);
    } else if p.tokens != [] && PastComma(p, first).Some? && PastComma(p, first).value.tokens != [] {
      var q := PastComma(p, first).value;
      if q.tokens[0].Key? {
        var r := Skip(q);
        if r.tokens != [] {
          var t := r.tokens[0];
          if !t.Value? && !t.Comma? && !t.EndFlowMapping? {
            PushedGood(n, r, FlowMappingValue, false, false, far);
          } else {
            MissingGood(n, r, FlowMappingValue, far);
          }
        }
      } else if q.tokens[0].EndFlowMapping? {
        ClosedGood(n, q, MappingEnd, far);
      } else {
        PushedGood(n, q, FlowMappingEmpty, false, false, far);
      }
    }
  }

  lemma FlowMappingValueGood(n: Nest, p: Parser, empty: bool, far: nat)
    requires Within(n, p, FlowMappingValue) && 3 * |p.tokens| + 1 <= far
    ensures Good(n, far, FlowMappingValueStep(p, empty))
  {
    hide Good, NodeStep, Pictures, Stacked, MarksOf, Fill, Missing, Fits;
    FillHere(Pictures(p.states), FlowMappingValue);
    FailGood(n, far, NoToken);
    Pop2(p.states);
    if p.tokens != [] && !empty && p.tokens[0].Value? && |p.tokens| > 1 {
      var q := Skip(p);
      if !q.tokens[0].Comma? && !q.tokens[0].EndFlowMapping? {
        PushedGood(n, q, FlowMappingKey, false, false, far);
      } else {
        MissingGood(n, q, FlowMappingKey, far);
      }
    } else if p.tokens != [] && (empty || !p.tokens[0].Value?) {
      MissingGood(n, p, FlowMappingKey, far);
    }
  }

  // ----- documents -----

  lemma {:induction false} DirectivesKeep(p: Parser, versioned: bool)
    requires !p.ended
    ensures match Directives(p, versioned)
      case Directed(q) => q.tokens != [] && |q.tokens| <= |p.tokens| && q == p.(tokens := q.tokens, tags := q.tags)
      case Misdirected(why) => !why.Broken?
    decreases |p.tokens|
  {
    if p.tokens != [] {
      if p.tokens[0].VersionDirective? {
        DirectivesKeep(Skip(p), true);
      } else if p.tokens[0].TagDirective? && Append(p.tags, p.tokens[0].directive, false).Some? {
        DirectivesKeep(Skip(p.(tags := Append(p.tags, p.tokens[0].directive, false).value)), versioned);
      }
    }
  }

  lemma {:induction false} PastEndsKeep(p: Parser)
    requires !p.ended
    ensures |PastEnds(p).tokens| <= |p.tokens| && PastEnds(p) == p.(tokens := PastEnds(p).tokens)
    decreases |p.tokens|
  {
    if p.tokens != [] && p.tokens[0].EndDocument? {
      PastEndsKeep(Skip(p));
    }
  }

  lemma DocumentStartGood(p: Parser, isImplicit: bool, far: nat)
    requires !p.ended && p.states == [] && p.marks == [] && 3 * |p.tokens| + (if isImplicit then 2 else 0) <= far
    ensures Good([Stream], far, DocumentStartStep(p, isImplicit))
  {
    PastEndsKeep(p);
    var q := if isImplicit then p else PastEnds(p);
    if q.tokens != [] && !q.tokens[0].EndStream? {
      DirectivesKeep(q, false);
    }
    hide Directives, PastEnds, Pictures, MarksOf, Stacked;
  }

  lemma ContentsGood(p: Parser, far: nat)
    requires !p.ended && p.states == [AtDocumentEnd] && p.marks == [] && 3 * |p.tokens| + 1 <= far
    ensures Good([Stream, Doc(false)], far, NodeStep(p, true, false))
    ensures 3 * |p.tokens| + 2 <= far ==> Good([Stream, Doc(false)], far, Popped(p, EMPTY_SCALAR))
  {
    hide NodeStep;
    PictureTop([], AtDocumentEnd);
    var none: seq<State> := [];
    assert none + [AtDocumentEnd] == p.states && Pictures(none) == [Stream] && MarksOf(none) == 0;
    assert Pictures(p.states) == [Stream] + [Doc(true)] == [Stream, Doc(true)];
    assert Under([Stream, Doc(false)]) == [Stream];
    NodeGood([Stream, Doc(false)], p, true, false, far);
    if 3 * |p.tokens| + 2 <= far {
      PoppedGood([Stream, Doc(false)], p, EMPTY_SCALAR, far);
    }
  }

  /** Every step from a sound parser: never a pop of an empty stack or a missing token,
      an event that keeps the stream well nested, and the end nearer. */
  lemma StepGood(p: Parser)
    requires Sound(p) && !p.state.AtEnd?
    ensures Good(NestOf(p), Distance(p), Step(p))
  {
    hide Good, Stacked, MarksOf, Pictures;
    var n, far, s := NestOf(p), Distance(p), p.state;
    if Outside(s) {
      OutsideGood(p);
    } else if s.AtContent? || s.AtBlockNode? {
      hide NodeStep, Popped;
      FailGood(n, far, NoToken);
      ContentsGood(p, far);
    } else {
      AmidGood(p);
    }
  }

  lemma OutsideGood(p: Parser)
    requires Sound(p) && Outside(p.state) && !p.state.AtEnd?
    ensures Good(NestOf(p), Distance(p), Step(p))
  {
    hide Stacked, DocumentStartStep, MarksOf;
    var s := p.state;
    assert p.states == [] && Pictures(p.states) == [Stream] && Pictures(p.states) + [Doc(true)] == [Stream, Doc(true)];
    assert Pictures(p.states) + [] == [Stream];
    if s.AtImplicitDocument? {
      DocumentStartGood(p, true, Distance(p));
    } else if s.AtDocument? {
      DocumentStartGood(p, false, Distance(p));
    }
  }

  lemma AmidGood(p: Parser)
    requires Amid(p) && !p.ended
    ensures Good(NestOf(p), Distance(p), Step(p))
  {
    hide Good, Stacked, MarksOf, Pictures, BlockSequenceStep, IndentlessStep, BlockMappingKeyStep, BlockMappingValueStep,
      FlowSequenceStep, PairKeyStep, PairValueStep, PairEndStep, FlowMappingKeyStep, FlowMappingValueStep;
    Pop2(p.states);
    var n, far := NestOf(p), Distance(p);
    match p.state
    case BlockSequenceFirst => BlockSequenceGood(n, Begun(p), far);
    case BlockSequenceEntry => BlockSequenceGood(n, p, far);
    case IndentlessEntry => IndentlessGood(n, p, far);
    case BlockMappingFirst => BlockMappingKeyGood(n, Begun(p), far);
    case BlockMappingKey => BlockMappingKeyGood(n, p, far);
    case BlockMappingValue => BlockMappingValueGood(n, p, far);
    case FlowSequenceFirst => FlowSequenceGood(n, Begun(p), true, far);
    case FlowSequenceEntry => FlowSequenceGood(n, p, false, far);
    case PairKey => PairKeyGood(n, p, far);
    case PairValue => PairValueGood(n, p, far);
    case PairEnd => PairEndGood(n, p, far);
    case FlowMappingFirst => FlowMappingKeyGood(n, Begun(p), true, far);
    case FlowMappingKey => FlowMappingKeyGood(n, p, false, far);
    case FlowMappingValue => FlowMappingValueGood(n, p, false, far);
    case FlowMappingEmpty => FlowMappingValueGood(n, p, true, far);
  }

  // ----- whole runs -----

  /** All events from here on, and why they stop, if not at the end of the stream. */
  datatype Whole = Whole(events: seq<Parsed>, stop: Option<Failure>)

  function Run(p: Parser): Whole
    requires Sound(p)
    decreases Distance(p)
  {
    if p.state.AtEnd? then Whole([], None) else
      StepGood(p);
      match Step(p)
      case Emit(q, e) => var w := Run(q); Whole([e] + w.events, w.stop)
      case Fail(why) => Whole([], Some(why))
  }

  /** The nest after a stream of events, if it is well nested. */
  function Nested(n: Nest, events: seq<Parsed>): Option<Nest>
    decreases |events|
  {
    if events == [] then Some(n) else
      var m := Accept(n, events[0]);
      if m.None? then None else Nested(m.value, events[1..])
  }

  const INITIAL: Nest := []

  function Initial(tokens: seq<Token>): Parser {
    Parser(tokens, AtStreamStart, [], [], [], false)
  }

  /** The events of any token stream are well nested, complete unless the run failed, and
      at most three for each token; a run never pops an empty stack. */
  lemma {:induction false} RunGood(p: Parser)
    requires Sound(p)
    ensures var w := Run(p);
      && Nested(NestOf(p), w.events).Some? && (w.stop.None? ==> Nested(NestOf(p), w.events) == Some([Over]))
      && w.stop != Some(Broken) && |w.events| <= Distance(p)
    decreases Distance(p)
  {
    hide Sound, Accept, Step;
    if !p.state.AtEnd? {
      StepGood(p);
      match Step(p)
      case Emit(q, e) =>
        RunGood(q);
        var w := Run(q);
        assert ([e] + w.events)[1..] == w.events;
      case Fail(_) =>
    }
  }

  /** One part of a stream after another. */
  lemma {:induction false} NestedJoin(n: Nest, a: seq<Parsed>, b: seq<Parsed>)
    ensures Nested(n, a + b) == if Nested(n, a).None? then None else Nested(Nested(n, a).value, b)
    decreases |a|
  {
    hide Accept;
    if a == [] {
      assert a + b == b;
    } else {
      assert (a + b)[0] == a[0] && (a + b)[1..] == a[1..] + b;
      if Accept(n, a[0]).Some? { NestedJoin(Accept(n, a[0]).value, a[1..], b); }
    }
  }
}
