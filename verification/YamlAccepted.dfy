/** What the parser takes is a derivation: from any run to the end of a stream, its tree. */
module YamlAccepted {
  import opened Options
  import opened YamlDumper
  import opened YamlGrammar
  import opened YamlNesting
  import opened YamlParser

  // ----- one step of a run that reaches the end -----

  lemma First(r: Result, es: seq<Parsed>, z: Parser)
    requires Goes(r, es, z)
    ensures es != [] && r.Emit? && es == [r.event] + es[1..] && Parses(r.next, es[1..], z)
  {
    hide Parses;
  }

  lemma Onward(p: Parser, es: seq<Parsed>, z: Parser)
    requires Parses(p, es, z) && z.state.AtEnd? && !p.state.AtEnd?
    ensures es != [] && Goes(Step(p), es, z)
  {
    hide Goes, Step;
  }

  // ----- nodes -----

  lemma PropsDerived(p: Parser, block: bool, indentless: bool) returns (r: Props, rest: seq<Token>)
    requires NodeStep(p, block, indentless).Emit? && !p.tokens[0].AliasToken? && !p.ended
    ensures p.tokens == PropsThen(r, rest) && rest != [] && Resolved(r, p.tags)
    ensures NodeStep(p, block, indentless) == ContentStep(p.(tokens := rest), r.anchor, TagText(r, p.tags), block, indentless)
  {
    hide ContentStep, FullTag;
    var q := Propertied(p).value;
    rest := q.0.tokens;
    var tag := if q.1.handle.None? then None else Some((q.1.handle.value, q.1.suffix));
    r := Props(q.1.anchor, tag, p.tokens[0].Tag?);
    assert q.0 == p.(tokens := rest);
    assert p.tokens == [p.tokens[0]] + p.tokens[1..];
    if r.anchor.Some? && r.tag.Some? {
      assert p.tokens[1..] == [p.tokens[1]] + rest;
    }
  }

  lemma {:induction false} NodeDerived(p: Parser, es: seq<Parsed>, z: Parser, block: bool, indentless: bool)
    returns (t: Tree, rest: seq<Token>, later: seq<Parsed>)
    requires Goes(NodeStep(p, block, indentless), es, z) && z.state.AtEnd? && p.states != [] && !p.ended
    ensures Proper(t, p.tags, block, indentless) && !t.Empty? && p.tokens == TokensThen(t, rest)
    ensures es == EventsThen(t, p.tags, later) && Parses(Back(p, rest), later, z) && |later| < |es|
    decreases |es|, 1
  {
    hide Parses, Goes, ContentStep, FullTag, Propertied;
    First(NodeStep(p, block, indentless), es, z);
    if p.tokens[0].AliasToken? {
      t, rest, later := AliasTree(p.tokens[0].name), p.tokens[1..], es[1..];
    } else {
      var r, inner := PropsDerived(p, block, indentless);
      hide NodeStep;
      t, rest, later := ContentDerived(p.(tokens := inner), r, es, z, block, indentless);
    }
  }

  lemma {:induction false} ContentDerived(p: Parser, r: Props, es: seq<Parsed>, z: Parser, block: bool, indentless: bool)
    returns (t: Tree, rest: seq<Token>, later: seq<Parsed>)
    requires p.tokens != [] && Goes(ContentStep(p, r.anchor, TagText(r, p.tags), block, indentless), es, z) && Resolved(r, p.tags)
    requires z.state.AtEnd? && p.states != [] && !p.ended
    ensures Proper(t, p.tags, block, indentless) && !t.Empty? && PropsThen(r, p.tokens) == TokensThen(t, rest)
    ensures es == EventsThen(t, p.tags, later) && Parses(Back(p, rest), later, z) && |later| < |es|
    decreases |es|, 0
  {
    hide Parses, Goes, FullTag, PropsThen, ItemTokens, PairTokens, EntryTokens, ItemEvents, PairEvents, EntryEvents,
      ProperItems, ProperPairs, ProperEntries;
    TagThere(r, p.tags);
    var step := ContentStep(p, r.anchor, TagText(r, p.tags), block, indentless);
    First(step, es, z);
    var first, q := p.tokens[0], step.next;
    if indentless && first.Dash? {
      var items;
      items, rest, later := IndentlessDerived(q, es[1..], z);
      t := Indentless(r, items);
    } else if first.Text? {
      t, rest, later := Leaf(r, first.text, first.plain), p.tokens[1..], es[1..];
      assert p.tokens == [first] + rest;
    } else if first.StartFlowSequence? {
      var entries;
      entries, rest, later := FlowSeqDerived(q, es[1..], z);
      t := FlowSeq(r, entries);
    } else if first.StartFlowMapping? {
      var entries;
      entries, rest, later := FlowMapDerived(q, es[1..], z);
      t := FlowMap(r, entries);
    } else if first.StartBlockSequence? && block {
      var items;
      items, rest, later := BlockSeqDerived(q, es[1..], z);
      t := BlockSeq(r, items);
    } else if first.StartBlockMapping? && block {
      var pairs;
      pairs, rest, later := BlockMapDerived(q, es[1..], z);
      t := BlockMap(r, pairs);
    } else {
      t, rest, later := Bare(r), p.tokens, es[1..];
    }
  }

  // ----- block sequences -----

  lemma {:induction false} BlockSeqDerived(p: Parser, es: seq<Parsed>, z: Parser) returns (items: Items, rest: seq<Token>, later: seq<Parsed>)
    requires p.state.BlockSequenceFirst? && Parses(p, es, z) && z.state.AtEnd? && p.states != [] && !p.ended
    requires p.tokens != [] && p.tokens[0].StartBlockSequence?
    ensures ProperItems(items, p.tags) && p.tokens == [StartBlockSequence] + ItemTokens(items, [EndBlock] + rest)
    ensures es == ItemEvents(items, p.tags, [Inside(SequenceEnd)] + later) && Parses(Back(p, rest), later, z) && |later| < |es|
    decreases |es|, 4
  {
    hide Parses, Goes, ItemTokens, ItemEvents, ProperItems, BlockSequenceStep;
    Onward(p, es, z);
    var q := Begun(p);
    items, rest, later := ItemsDerived(q, es, z);
    assert Back(Unmarked(q), rest) == Back(p, rest);
    assert p.tokens == [StartBlockSequence] + q.tokens;
  }

  lemma {:induction false} ItemsDerived(p: Parser, es: seq<Parsed>, z: Parser) returns (items: Items, rest: seq<Token>, later: seq<Parsed>)
    requires Goes(BlockSequenceStep(p), es, z) && z.state.AtEnd? && p.states != [] && p.marks != [] && !p.ended
    ensures ProperItems(items, p.tags) && p.tokens == ItemTokens(items, [EndBlock] + rest)
    ensures es == ItemEvents(items, p.tags, [Inside(SequenceEnd)] + later)
    ensures Parses(Back(Unmarked(p), rest), later, z) && |later| < |es|
    decreases |es|, 3
  {
    hide Parses, Goes, NodeStep, Proper, BlockSequenceStep, TokensThen, EventsThen;
    ItemsHeads(p, es, z);
    if p.tokens[0].EndBlock? {
      items, rest, later := NoItems, p.tokens[1..], es[1..];
    } else {
      var t, after, more := ItemDerived(p, es, z);
      var q := p.(tokens := after, state := BlockSequenceEntry);
      Onward(q, more, z);
      var tail;
      tail, rest, later := ItemsDerived(q, more, z);
      assert Back(Unmarked(q), rest) == Back(Unmarked(p), rest);
      items := Item(t, tail);
    }
  }

  lemma ItemsHeads(p: Parser, es: seq<Parsed>, z: Parser)
    requires Goes(BlockSequenceStep(p), es, z) && p.states != [] && p.marks != [] && !p.ended
    ensures p.tokens != [] && p.tokens == [p.tokens[0]] + p.tokens[1..] && (p.tokens[0].EndBlock? || p.tokens[0].Dash?)
    ensures p.tokens[0].EndBlock? ==>
      es != [] && es == [Inside(SequenceEnd)] + es[1..] && Parses(Back(Unmarked(p), p.tokens[1..]), es[1..], z)
  {
    hide Parses, Goes, NodeStep;
    First(BlockSequenceStep(p), es, z);
  }

  lemma {:induction false} ItemDerived(p: Parser, es: seq<Parsed>, z: Parser) returns (t: Tree, after: seq<Token>, more: seq<Parsed>)
    requires Goes(BlockSequenceStep(p), es, z) && z.state.AtEnd? && p.states != [] && !p.ended && p.tokens[0].Dash?
    ensures Proper(t, p.tags, true, false) && p.tokens == [Dash] + TokensThen(t, after) && es == EventsThen(t, p.tags, more)
    ensures Parses(p.(tokens := after, state := BlockSequenceEntry), more, z) && |more| < |es|
    decreases |es|, 2
  {
    hide Parses, Goes, NodeStep;
    First(BlockSequenceStep(p), es, z);
    var q := Skip(p);
    assert p.tokens == [Dash] + q.tokens;
    if q.tokens[0].Dash? || q.tokens[0].EndBlock? {
      t, after, more := Empty, q.tokens, es[1..];
    } else {
      hide TokensThen, EventsThen, Proper;
      t, after, more := NodeDerived(Push(q, BlockSequenceEntry), es, z, true, false);
      PushedBack(q, BlockSequenceEntry, after);
    }
  }

  // ----- indentless sequences -----

  lemma {:induction false} IndentlessDerived(p: Parser, es: seq<Parsed>, z: Parser) returns (items: Items, rest: seq<Token>, later: seq<Parsed>)
    requires p.state.IndentlessEntry? && Parses(p, es, z) && z.state.AtEnd? && p.states != [] && !p.ended
    ensures ProperItems(items, p.tags) && p.tokens == ItemTokens(items, rest) && (p.tokens != [] && p.tokens[0].Dash? ==> items.Item?)
    ensures es == ItemEvents(items, p.tags, [Inside(SequenceEnd)] + later) && Parses(Back(p, rest), later, z) && |later| < |es|
    decreases |es|, 3
  {
    hide Parses, Goes, NodeStep, Proper;
    Onward(p, es, z);
    First(IndentlessStep(p), es, z);
    if !p.tokens[0].Dash? {
      items, rest, later := NoItems, p.tokens, es[1..];
    } else {
      var t, after, more := IndentlessItemDerived(p, es, z);
      var q := p.(tokens := after, state := IndentlessEntry);
      var tail;
      hide IndentlessStep, TokensThen, EventsThen;
      tail, rest, later := IndentlessDerived(q, more, z);
      assert Back(q, rest) == Back(p, rest);
      items := Item(t, tail);
    }
  }

  lemma {:induction false} IndentlessItemDerived(p: Parser, es: seq<Parsed>, z: Parser) returns (t: Tree, after: seq<Token>, more: seq<Parsed>)
    requires Goes(IndentlessStep(p), es, z) && z.state.AtEnd? && p.states != [] && !p.ended && p.tokens[0].Dash?
    ensures Proper(t, p.tags, true, false) && p.tokens == [Dash] + TokensThen(t, after) && es == EventsThen(t, p.tags, more)
    ensures Parses(p.(tokens := after, state := IndentlessEntry), more, z) && |more| < |es|
    decreases |es|, 2
  {
    hide Parses, Goes, NodeStep;
    First(IndentlessStep(p), es, z);
    var q := Skip(p);
    assert p.tokens == [Dash] + q.tokens;
    var s := q.tokens[0];
    if s.Dash? || s.Key? || s.Value? || s.EndBlock? {
      t, after, more := Empty, q.tokens, es[1..];
    } else {
      hide TokensThen, EventsThen, Proper;
      t, after, more := NodeDerived(Push(q, IndentlessEntry), es, z, true, false);
      PushedBack(q, IndentlessEntry, after);
    }
  }

  // ----- block mappings -----

  lemma {:induction false} BlockMapDerived(p: Parser, es: seq<Parsed>, z: Parser) returns (pairs: Pairs, rest: seq<Token>, later: seq<Parsed>)
    requires p.state.BlockMappingFirst? && Parses(p, es, z) && z.state.AtEnd? && p.states != [] && !p.ended
    requires p.tokens != [] && p.tokens[0].StartBlockMapping?
    ensures ProperPairs(pairs, p.tags) && p.tokens == [StartBlockMapping] + PairTokens(pairs, [EndBlock] + rest)
    ensures es == PairEvents(pairs, p.tags, [Inside(MappingEnd)] + later) && Parses(Back(p, rest), later, z) && |later| < |es|
    decreases |es|, 4
  {
    hide Parses, Goes, PairTokens, PairEvents, ProperPairs, BlockMappingKeyStep;
    Onward(p, es, z);
    var q := Begun(p);
    pairs, rest, later := PairsDerived(q, es, z);
    assert Back(Unmarked(q), rest) == Back(p, rest);
    assert p.tokens == [StartBlockMapping] + q.tokens;
  }

  lemma {:induction false} PairsDerived(p: Parser, es: seq<Parsed>, z: Parser) returns (pairs: Pairs, rest: seq<Token>, later: seq<Parsed>)
    requires Goes(BlockMappingKeyStep(p), es, z) && z.state.AtEnd? && p.states != [] && p.marks != [] && !p.ended
    ensures ProperPairs(pairs, p.tags) && p.tokens == PairTokens(pairs, [EndBlock] + rest)
    ensures es == PairEvents(pairs, p.tags, [Inside(MappingEnd)] + later)
    ensures Parses(Back(Unmarked(p), rest), later, z) && |later| < |es|
    decreases |es|, 3
  {
    hide Parses, Goes, NodeStep, Proper, ValueTokens, BlockMappingKeyStep, TokensThen, EventsThen;
    PairsHeads(p, es, z);
    if p.tokens[0].EndBlock? {
      pairs, rest, later := NoPairs, p.tokens[1..], es[1..];
    } else {
      var k, held, more := KeyDerived(p, es, z);
      var q := p.(tokens := held, state := BlockMappingValue);
      var h, v, after, most := ValueDerived(q, more, z);
      var n := p.(tokens := after, state := BlockMappingKey);
      Onward(n, most, z);
      var tail;
      tail, rest, later := PairsDerived(n, most, z);
      assert Back(Unmarked(n), rest) == Back(Unmarked(p), rest);
      pairs := Pair(k, h, v, tail);
    }
  }

  lemma PairsHeads(p: Parser, es: seq<Parsed>, z: Parser)
    requires Goes(BlockMappingKeyStep(p), es, z) && p.states != [] && p.marks != [] && !p.ended
    ensures p.tokens != [] && p.tokens == [p.tokens[0]] + p.tokens[1..] && (p.tokens[0].EndBlock? || p.tokens[0].Key?)
    ensures p.tokens[0].EndBlock? ==>
      es != [] && es == [Inside(MappingEnd)] + es[1..] && Parses(Back(Unmarked(p), p.tokens[1..]), es[1..], z)
  {
    hide Parses, Goes, NodeStep;
    First(BlockMappingKeyStep(p), es, z);
  }

  lemma {:induction false} KeyDerived(p: Parser, es: seq<Parsed>, z: Parser) returns (t: Tree, after: seq<Token>, more: seq<Parsed>)
    requires Goes(BlockMappingKeyStep(p), es, z) && z.state.AtEnd? && p.states != [] && !p.ended && p.tokens[0].Key?
    ensures Proper(t, p.tags, true, true) && p.tokens == [Key] + TokensThen(t, after) && es == EventsThen(t, p.tags, more)
    ensures Parses(p.(tokens := after, state := BlockMappingValue), more, z) && |more| < |es|
    decreases |es|, 2
  {
    hide Parses, Goes, NodeStep;
    First(BlockMappingKeyStep(p), es, z);
    var q := Skip(p);
    assert p.tokens == [Key] + q.tokens;
    var s := q.tokens[0];
    if s.Key? || s.Value? || s.EndBlock? {
      t, after, more := Empty, q.tokens, es[1..];
    } else {
      hide TokensThen, EventsThen, Proper;
      t, after, more := NodeDerived(Push(q, BlockMappingValue), es, z, true, true);
      PushedBack(q, BlockMappingValue, after);
    }
  }

  lemma {:induction false} ValueDerived(p: Parser, es: seq<Parsed>, z: Parser) returns (h: bool, t: Tree, after: seq<Token>, more: seq<Parsed>)
    requires p.state.BlockMappingValue? && Parses(p, es, z) && z.state.AtEnd? && p.states != [] && !p.ended
    ensures Proper(t, p.tags, true, true) && (h || t.Empty?) && p.tokens == ValueTokens(h, t, after) && es == EventsThen(t, p.tags, more)
    ensures Parses(p.(tokens := after, state := BlockMappingKey), more, z) && |more| < |es|
    decreases |es|, 2
  {
    hide Parses, Goes, NodeStep;
    Onward(p, es, z);
    First(BlockMappingValueStep(p), es, z);
    h := p.tokens[0].Value?;
    if !h {
      t, after, more := Empty, p.tokens, es[1..];
    } else {
      var q := Skip(p);
      assert p.tokens == [Value] + q.tokens;
      var s := q.tokens[0];
      if s.Key? || s.Value? || s.EndBlock? {
        t, after, more := Empty, q.tokens, es[1..];
      } else {
        hide TokensThen, EventsThen, Proper;
        t, after, more := NodeDerived(Push(q, BlockMappingKey), es, z, true, true);
        PushedBack(q, BlockMappingKey, after);
      }
    }
  }

  // ----- flow sequences -----

  lemma {:induction false} FlowSeqDerived(p: Parser, es: seq<Parsed>, z: Parser) returns (entries: Entries, rest: seq<Token>, later: seq<Parsed>)
    requires p.state.FlowSequenceFirst? && Parses(p, es, z) && z.state.AtEnd? && p.states != [] && !p.ended
    requires p.tokens != [] && p.tokens[0].StartFlowSequence?
    ensures ProperEntries(entries, p.tags, false) && !(entries.NoEntries? && entries.comma)
    ensures p.tokens == [StartFlowSequence] + EntryTokens(entries, true, [EndFlowSequence] + rest)
    ensures es == EntryEvents(entries, p.tags, false, [Inside(SequenceEnd)] + later) && Parses(Back(p, rest), later, z) && |later| < |es|
    decreases |es|, 4
  {
    hide Parses, Goes, EntryTokens, EntryEvents, ProperEntries, FlowSequenceStep;
    Onward(p, es, z);
    var q := Begun(p);
    entries, rest, later := SequenceDerived(true, q, es, z);
    assert Back(Unmarked(q), rest) == Back(p, rest);
    assert p.tokens == [StartFlowSequence] + q.tokens;
  }

  lemma {:induction false} SequenceDerived(first: bool, p: Parser, es: seq<Parsed>, z: Parser)
    returns (entries: Entries, rest: seq<Token>, later: seq<Parsed>)
    requires Goes(FlowSequenceStep(p, first), es, z) && z.state.AtEnd? && p.states != [] && p.marks != [] && !p.ended
    ensures ProperEntries(entries, p.tags, false) && (first ==> !(entries.NoEntries? && entries.comma))
    ensures p.tokens == EntryTokens(entries, first, [EndFlowSequence] + rest)
    ensures es == EntryEvents(entries, p.tags, false, [Inside(SequenceEnd)] + later)
    ensures Parses(Back(Unmarked(p), rest), later, z) && |later| < |es|
    decreases |es|, 3
  {
    hide Parses, Goes, NodeStep, Proper, TokensThen, EventsThen, ValueTokens, EntryTokens, EntryEvents, ProperEntries, FlowSequenceStep;
    if SequenceCloses(p, first) {
      entries, rest, later := SequenceEnded(first, p, es, z);
    } else {
      var e, after, more := EntryDerived(first, p, es, z);
      var n := p.(tokens := after, state := FlowSequenceEntry);
      Onward(n, more, z);
      var tail;
      tail, rest, later := SequenceDerived(false, n, more, z);
      assert Back(Unmarked(n), rest) == Back(Unmarked(p), rest);
      entries := Ahead(e, tail);
      AheadIs(e, tail, first, p.tags, [EndFlowSequence] + rest, [Inside(SequenceEnd)] + later);
    }
  }

  /** The bracket comes next, or a comma and the bracket. */
  predicate SequenceCloses(p: Parser, first: bool) {
    p.tokens != [] && (p.tokens[0].EndFlowSequence? || (!first && p.tokens[0].Comma? && |p.tokens| > 1 && p.tokens[1].EndFlowSequence?))
  }

  lemma SequenceEnded(first: bool, p: Parser, es: seq<Parsed>, z: Parser)
    returns (entries: Entries, rest: seq<Token>, later: seq<Parsed>)
    requires Goes(FlowSequenceStep(p, first), es, z) && p.states != [] && p.marks != [] && !p.ended && SequenceCloses(p, first)
    ensures ProperEntries(entries, p.tags, false) && (first ==> !(entries.NoEntries? && entries.comma))
    ensures p.tokens == EntryTokens(entries, first, [EndFlowSequence] + rest)
    ensures es == EntryEvents(entries, p.tags, false, [Inside(SequenceEnd)] + later)
    ensures Parses(Back(Unmarked(p), rest), later, z) && |later| < |es|
  {
    hide Parses, Goes, NodeStep;
    First(FlowSequenceStep(p, first), es, z);
    later := es[1..];
    assert p.tokens == [p.tokens[0]] + p.tokens[1..];
    if p.tokens[0].EndFlowSequence? {
      entries, rest := NoEntries(false), p.tokens[1..];
    } else {
      var q := Skip(p);
      entries, rest := NoEntries(true), q.tokens[1..];
      assert q.tokens == [EndFlowSequence] + rest;
      assert Back(Unmarked(q), rest) == Back(Unmarked(p), rest);
    }
  }

  /** An entry in front of others. */
  function Ahead(e: Entries, more: Entries): Entries {
    if e.NoEntries? then more else e.(rest := more)
  }

  /** An entry of a flow sequence by itself: its tokens and its events, before others. */
  function Own(e: Entries, first: bool, after: seq<Token>): seq<Token> {
    match e
    case NoEntries(_) => after
    case Plain(t, _) => CommaThen(!first, TokensThen(t, after))
    case Keyed(k, h, v, _) => CommaThen(!first, [Key] + TokensThen(k, ValueTokens(h, v, after)))
    case Odd(t, h, v, _) => CommaThen(!first, [Key] + ([t] + ValueTokens(h, v, after)))
  }

  function OwnEvents(e: Entries, tags: seq<Directive>, later: seq<Parsed>): seq<Parsed> {
    match e
    case NoEntries(_) => later
    case Plain(t, _) => EventsThen(t, tags, later)
    case Keyed(k, _, v, _) =>
      [Inside(MappingStart(None, None, true))] + EventsThen(k, tags, EventsThen(v, tags, [Inside(MappingEnd)] + later))
    case Odd(_, _, v, _) =>
      [Inside(MappingStart(None, None, true))] + ([Inside(EMPTY_SCALAR)] + EventsThen(v, tags, [Inside(MappingEnd)] + later))
  }

  predicate OwnProper(e: Entries, tags: seq<Directive>) {
    match e
    case NoEntries(_) => false
    case Plain(t, _) => !t.Empty? && Proper(t, tags, false, false)
    case Keyed(k, h, v, _) => !k.Empty? && Proper(k, tags, false, false) && Proper(v, tags, false, false) && (h || v.Empty?)
    case Odd(t, h, v, _) => Skippable(t) && Proper(v, tags, false, false) && (h || v.Empty?)
  }

  lemma AheadIs(e: Entries, more: Entries, first: bool, tags: seq<Directive>, rest: seq<Token>, later: seq<Parsed>)
    requires OwnProper(e, tags) && ProperEntries(more, tags, false)
    ensures ProperEntries(Ahead(e, more), tags, false) && !Ahead(e, more).NoEntries?
    ensures EntryTokens(Ahead(e, more), first, rest) == Own(e, first, EntryTokens(more, false, rest))
    ensures EntryEvents(Ahead(e, more), tags, false, later) == OwnEvents(e, tags, EntryEvents(more, tags, false, later))
  {
    hide Proper, TokensThen, EventsThen, ValueTokens;
  }

  lemma {:induction false} EntryDerived(first: bool, p: Parser, es: seq<Parsed>, z: Parser)
    returns (e: Entries, after: seq<Token>, more: seq<Parsed>)
    requires Goes(FlowSequenceStep(p, first), es, z) && z.state.AtEnd? && p.states != [] && !p.ended
    requires !SequenceCloses(p, first)
    ensures OwnProper(e, p.tags) && p.tokens == Own(e, first, after) && es == OwnEvents(e, p.tags, more)
    ensures Parses(p.(tokens := after, state := FlowSequenceEntry), more, z) && |more| < |es|
    decreases |es|, 2
  {
    hide Parses, Goes, NodeStep, TokensThen, EventsThen, Proper, ValueTokens;
    First(FlowSequenceStep(p, first), es, z);
    var q := PastComma(p, first).value;
    assert p.tokens == CommaThen(!first, q.tokens) && q == p.(tokens := q.tokens) by {
      assert p.tokens == [p.tokens[0]] + p.tokens[1..];
    }
    if q.tokens[0].Key? {
      var k := Skip(q).(state := PairKey);
      assert q.tokens == [Key] + k.tokens;
      hide FlowSequenceStep;
      e, after, more := PairDerived(k, es[1..], z);
      assert p.(tokens := after, state := FlowSequenceEntry) == k.(tokens := after, state := FlowSequenceEntry);
    } else {
      var t;
      t, after, more := NodeDerived(Push(q, FlowSequenceEntry), es, z, false, false);
      PushedBack(q, FlowSequenceEntry, after);
      e := Plain(t, NoEntries(false));
    }
  }

  lemma {:induction false} PairDerived(p: Parser, es: seq<Parsed>, z: Parser) returns (e: Entries, after: seq<Token>, more: seq<Parsed>)
    requires p.state.PairKey? && Parses(p, es, z) && z.state.AtEnd? && p.states != [] && !p.ended
    ensures OwnProper(e, p.tags) && !e.Plain? && CommaThen(false, [Key] + p.tokens) == Own(e, true, after)
    ensures [Inside(MappingStart(None, None, true))] + es == OwnEvents(e, p.tags, more)
    ensures Parses(p.(tokens := after, state := FlowSequenceEntry), more, z) && |more| < |es|
    decreases |es|, 2
  {
    hide Parses, Goes, NodeStep, TokensThen, EventsThen, Proper, ValueTokens;
    Onward(p, es, z);
    First(PairKeyStep(p), es, z);
    if Skippable(p.tokens[0]) {
      var q := Skip(p).(state := PairValue);
      assert p.tokens == [p.tokens[0]] + q.tokens;
      var h, v;
      h, v, after, more := PairValueDerived(q, es[1..], z);
      e := Odd(p.tokens[0], h, v, NoEntries(false));
    } else {
      var k, held, most := NodeDerived(Push(p, PairValue), es, z, false, false);
      PushedBack(p, PairValue, held);
      var h, v;
      h, v, after, more := PairValueDerived(p.(tokens := held, state := PairValue), most, z);
      e := Keyed(k, h, v, NoEntries(false));
    }
  }

  lemma {:induction false} PairValueDerived(p: Parser, es: seq<Parsed>, z: Parser) returns (h: bool, t: Tree, after: seq<Token>, more: seq<Parsed>)
    requires p.state.PairValue? && Parses(p, es, z) && z.state.AtEnd? && p.states != [] && !p.ended
    ensures Proper(t, p.tags, false, false) && (h || t.Empty?) && p.tokens == ValueTokens(h, t, after)
    ensures es == EventsThen(t, p.tags, [Inside(MappingEnd)] + more)
    ensures Parses(p.(tokens := after, state := FlowSequenceEntry), more, z) && |more| < |es|
    decreases |es|, 2
  {
    hide Parses, Goes, NodeStep, FlowSequenceStep;
    Onward(p, es, z);
    First(PairValueStep(p), es, z);
    var ended;
    h := p.tokens[0].Value?;
    if !h {
      t, after, ended := Empty, p.tokens, es[1..];
    } else {
      var q := Skip(p);
      assert p.tokens == [Value] + q.tokens;
      if q.tokens[0].Comma? || q.tokens[0].EndFlowSequence? {
        t, after, ended := Empty, q.tokens, es[1..];
      } else {
        hide TokensThen, EventsThen, Proper;
        t, after, ended := NodeDerived(Push(q, PairEnd), es, z, false, false);
        PushedBack(q, PairEnd, after);
      }
    }
    var e := p.(tokens := after, state := PairEnd);
    Onward(e, ended, z);
    First(PairEndStep(e), ended, z);
    more := ended[1..];
  }

  // ----- flow mappings -----

  lemma {:induction false} FlowMapDerived(p: Parser, es: seq<Parsed>, z: Parser) returns (entries: Entries, rest: seq<Token>, later: seq<Parsed>)
    requires p.state.FlowMappingFirst? && Parses(p, es, z) && z.state.AtEnd? && p.states != [] && !p.ended
    requires p.tokens != [] && p.tokens[0].StartFlowMapping?
    ensures ProperEntries(entries, p.tags, true) && !(entries.NoEntries? && entries.comma)
    ensures p.tokens == [StartFlowMapping] + EntryTokens(entries, true, [EndFlowMapping] + rest)
    ensures es == EntryEvents(entries, p.tags, true, [Inside(MappingEnd)] + later) && Parses(Back(p, rest), later, z) && |later| < |es|
    decreases |es|, 5
  {
    hide Parses, Goes, EntryTokens, EntryEvents, ProperEntries, FlowMappingKeyStep;
    Onward(p, es, z);
    var q := Begun(p);
    entries, rest, later := MappingDerived(true, q, es, z);
    assert Back(Unmarked(q), rest) == Back(p, rest);
    assert p.tokens == [StartFlowMapping] + q.tokens;
  }

  lemma {:induction false} MappingDerived(first: bool, p: Parser, es: seq<Parsed>, z: Parser)
    returns (entries: Entries, rest: seq<Token>, later: seq<Parsed>)
    requires Goes(FlowMappingKeyStep(p, first), es, z) && z.state.AtEnd? && p.states != [] && p.marks != [] && !p.ended
    ensures ProperEntries(entries, p.tags, true) && (first ==> !(entries.NoEntries? && entries.comma))
    ensures p.tokens == EntryTokens(entries, first, [EndFlowMapping] + rest)
    ensures es == EntryEvents(entries, p.tags, true, [Inside(MappingEnd)] + later)
    ensures Parses(Back(Unmarked(p), rest), later, z) && |later| < |es|
    decreases |es|, 4
  {
    hide Parses, Goes, NodeStep, Proper, TokensThen, EventsThen, ValueTokens, EntryTokens, EntryEvents, ProperEntries, FlowMappingKeyStep;
    if MappingCloses(p, first) {
      entries, rest, later := MappingEnded(first, p, es, z);
    } else {
      var e, after, more := MappingEntryDerived(first, p, es, z);
      var n := p.(tokens := after, state := FlowMappingKey);
      Onward(n, more, z);
      var tail;
      tail, rest, later := MappingDerived(false, n, more, z);
      assert Back(Unmarked(n), rest) == Back(Unmarked(p), rest);
      entries := Ahead(e, tail);
      AheadInMapping(e, tail, first, p.tags, [EndFlowMapping] + rest, [Inside(MappingEnd)] + later);
    }
  }

  /** The bracket comes next, or a comma and the bracket. */
  predicate MappingCloses(p: Parser, first: bool) {
    p.tokens != [] && (p.tokens[0].EndFlowMapping? || (!first && p.tokens[0].Comma? && |p.tokens| > 1 && p.tokens[1].EndFlowMapping?))
  }

  lemma MappingEnded(first: bool, p: Parser, es: seq<Parsed>, z: Parser)
    returns (entries: Entries, rest: seq<Token>, later: seq<Parsed>)
    requires Goes(FlowMappingKeyStep(p, first), es, z) && p.states != [] && p.marks != [] && !p.ended && MappingCloses(p, first)
    ensures ProperEntries(entries, p.tags, true) && (first ==> !(entries.NoEntries? && entries.comma))
    ensures p.tokens == EntryTokens(entries, first, [EndFlowMapping] + rest)
    ensures es == EntryEvents(entries, p.tags, true, [Inside(MappingEnd)] + later)
    ensures Parses(Back(Unmarked(p), rest), later, z) && |later| < |es|
  {
    hide Parses, Goes, NodeStep;
    First(FlowMappingKeyStep(p, first), es, z);
    later := es[1..];
    assert p.tokens == [p.tokens[0]] + p.tokens[1..];
    if p.tokens[0].EndFlowMapping? {
      entries, rest := NoEntries(false), p.tokens[1..];
    } else {
      var q := Skip(p);
      entries, rest := NoEntries(true), q.tokens[1..];
      assert q.tokens == [EndFlowMapping] + rest;
      assert Back(Unmarked(q), rest) == Back(Unmarked(p), rest);
    }
  }

  /** The events of an entry of a flow mapping by itself. */
  function OwnInMapping(e: Entries, tags: seq<Directive>, later: seq<Parsed>): seq<Parsed> {
    match e
    case NoEntries(_) => later
    case Plain(t, _) => EventsThen(t, tags, [Inside(EMPTY_SCALAR)] + later)
    case Keyed(k, _, v, _) => EventsThen(k, tags, EventsThen(v, tags, later))
    case Odd(_, _, _, _) => later
  }

  predicate MappingProper(e: Entries, tags: seq<Directive>) {
    match e
    case NoEntries(_) => false
    case Plain(t, _) => !t.Empty? && Proper(t, tags, false, false)
    case Keyed(k, h, v, _) => Proper(k, tags, false, false) && Proper(v, tags, false, false) && (h || v.Empty?)
    case Odd(_, _, _, _) => false
  }

  lemma AheadInMapping(e: Entries, more: Entries, first: bool, tags: seq<Directive>, rest: seq<Token>, later: seq<Parsed>)
    requires MappingProper(e, tags) && ProperEntries(more, tags, true)
    ensures ProperEntries(Ahead(e, more), tags, true) && !Ahead(e, more).NoEntries?
    ensures EntryTokens(Ahead(e, more), first, rest) == Own(e, first, EntryTokens(more, false, rest))
    ensures EntryEvents(Ahead(e, more), tags, true, later) == OwnInMapping(e, tags, EntryEvents(more, tags, true, later))
  {
    hide Proper, TokensThen, EventsThen, ValueTokens;
  }

  lemma {:induction false} MappingEntryDerived(first: bool, p: Parser, es: seq<Parsed>, z: Parser)
    returns (e: Entries, after: seq<Token>, more: seq<Parsed>)
    requires Goes(FlowMappingKeyStep(p, first), es, z) && z.state.AtEnd? && p.states != [] && !p.ended
    requires !MappingCloses(p, first)
    ensures MappingProper(e, p.tags) && p.tokens == Own(e, first, after) && es == OwnInMapping(e, p.tags, more)
    ensures Parses(p.(tokens := after, state := FlowMappingKey), more, z) && |more| < |es|
    decreases |es|, 3
  {
    hide Parses, Goes, NodeStep, TokensThen, EventsThen, Proper, ValueTokens;
    First(FlowMappingKeyStep(p, first), es, z);
    var q := PastComma(p, first).value;
    assert p.tokens == CommaThen(!first, q.tokens) && q == p.(tokens := q.tokens) by {
      assert p.tokens == [p.tokens[0]] + p.tokens[1..];
    }
    if q.tokens[0].Key? {
      var k, held, most := MappingKeyDerived(p, q, first, es, z);
      hide FlowMappingKeyStep;
      var h, v;
      h, v, after, more := MappingValueDerived(p.(tokens := held, state := FlowMappingValue), most, z);
      e := Keyed(k, h, v, NoEntries(false));
    } else {
      var t, empty;
      t, after, empty := NodeDerived(Push(q, FlowMappingEmpty), es, z, false, false);
      PushedBack(q, FlowMappingEmpty, after);
      var n := p.(tokens := after, state := FlowMappingEmpty);
      Onward(n, empty, z);
      First(FlowMappingValueStep(n, true), empty, z);
      more := empty[1..];
      e := Plain(t, NoEntries(false));
    }
  }

  lemma {:induction false} MappingKeyDerived(p: Parser, q: Parser, first: bool, es: seq<Parsed>, z: Parser)
    returns (k: Tree, held: seq<Token>, more: seq<Parsed>)
    requires Goes(FlowMappingKeyStep(p, first), es, z) && z.state.AtEnd? && p.states != [] && !p.ended
    requires p.tokens != [] && !p.tokens[0].EndFlowMapping? && PastComma(p, first) == Some(q)
    requires q == p.(tokens := q.tokens) && q.tokens != [] && q.tokens[0].Key?
    ensures Proper(k, p.tags, false, false) && q.tokens == [Key] + TokensThen(k, held) && es == EventsThen(k, p.tags, more)
    ensures Parses(p.(tokens := held, state := FlowMappingValue), more, z) && |more| < |es|
    decreases |es|, 2
  {
    hide Parses, Goes, NodeStep;
    First(FlowMappingKeyStep(p, first), es, z);
    var r := Skip(q);
    assert q.tokens == [Key] + r.tokens;
    var s := r.tokens[0];
    if s.Value? || s.Comma? || s.EndFlowMapping? {
      k, held, more := Empty, r.tokens, es[1..];
    } else {
      hide TokensThen, EventsThen, Proper;
      k, held, more := NodeDerived(Push(r, FlowMappingValue), es, z, false, false);
      PushedBack(r, FlowMappingValue, held);
    }
  }

  lemma {:induction false} MappingValueDerived(p: Parser, es: seq<Parsed>, z: Parser) returns (h: bool, t: Tree, after: seq<Token>, more: seq<Parsed>)
    requires p.state.FlowMappingValue? && Parses(p, es, z) && z.state.AtEnd? && p.states != [] && !p.ended
    ensures Proper(t, p.tags, false, false) && (h || t.Empty?) && p.tokens == ValueTokens(h, t, after) && es == EventsThen(t, p.tags, more)
    ensures Parses(p.(tokens := after, state := FlowMappingKey), more, z) && |more| < |es|
    decreases |es|, 2
  {
    hide Parses, Goes, NodeStep;
    Onward(p, es, z);
    First(FlowMappingValueStep(p, false), es, z);
    h := p.tokens[0].Value?;
    if !h {
      t, after, more := Empty, p.tokens, es[1..];
    } else {
      var q := Skip(p);
      assert p.tokens == [Value] + q.tokens;
      if q.tokens[0].Comma? || q.tokens[0].EndFlowMapping? {
        t, after, more := Empty, q.tokens, es[1..];
      } else {
        hide TokensThen, EventsThen, Proper;
        t, after, more := NodeDerived(Push(q, FlowMappingKey), es, z, false, false);
        PushedBack(q, FlowMappingKey, after);
      }
    }
  }

  // ----- documents and streams -----

  lemma {:induction false} DirectivesDerived(p: Parser, versioned: bool) returns (ds: seq<Token>, rest: seq<Token>)
    requires Directives(p, versioned).Directed? && !p.ended
    ensures p.tokens == ds + rest && Fresh(p.tags, ds, versioned)
    ensures Directives(p, versioned) == Directed(p.(tokens := rest, tags := Default(p.tags + TagsOf(ds))))
    decreases |p.tokens|
  {
    hide Default, Declared, Directives;
    DirectivesHead(p, versioned);
    var t, more := p.tokens[0], p.tokens[1..];
    assert p.tokens == [t] + more;
    DirectivesStep(p, versioned, t, more);
    if t.VersionDirective? {
      var ds0;
      ds0, rest := DirectivesDerived(p.(tokens := more), true);
      ds := [t] + ds0;
      assert ds[1..] == ds0 && ds + rest == [t] + (ds0 + rest) && TagsOf(ds) == [] + TagsOf(ds0) == TagsOf(ds0);
    } else if t.TagDirective? {
      var tags, ds0 := p.tags + [t.directive], [];
      ds0, rest := DirectivesDerived(p.(tokens := more, tags := tags), versioned);
      ds := [t] + ds0;
      assert ds[1..] == ds0 && ds + rest == [t] + (ds0 + rest) && tags + TagsOf(ds0) == p.tags + TagsOf(ds);
    } else {
      ds, rest := [], p.tokens;
      DirectivesEnd(p, versioned);
      assert p.tags + TagsOf([]) == p.tags && [] + rest == rest;
    }
  }

  lemma DirectivesHead(p: Parser, versioned: bool)
    requires Directives(p, versioned).Directed?
    ensures p.tokens != [] && var t := p.tokens[0];
      && (t.VersionDirective? ==> !versioned && t.major == 1 && t.minor in {1, 2})
      && (t.TagDirective? ==> Declared(p.tags, t.directive.handle).None?)
  {
    hide Default, Declared;
  }

  lemma {:induction false} EndsDerived(p: Parser) returns (n: nat)
    requires !p.ended
    ensures p.tokens == EndTokens(n, PastEnds(p).tokens) && PastEnds(p) == p.(tokens := PastEnds(p).tokens)
    ensures p.tokens == [] || !p.tokens[0].EndDocument? ==> n == 0
    decreases |p.tokens|
  {
    if p.tokens != [] && p.tokens[0].EndDocument? {
      n := EndsDerived(Skip(p));
      n := n + 1;
      assert p.tokens == [EndDocument] + p.tokens[1..];
    } else {
      n := 0;
    }
  }

  lemma RootDerived(p: Parser, es: seq<Parsed>, z: Parser) returns (t: Tree, rest: seq<Token>, later: seq<Parsed>)
    requires Parses(p, es, z) && z.state.AtEnd? && (p.state.AtContent? || p.state.AtBlockNode?) && p.states != [] && !p.ended
    ensures Proper(t, p.tags, true, false) && (p.state.AtBlockNode? ==> !t.Empty?)
    ensures p.tokens == TokensThen(t, rest) && es == EventsThen(t, p.tags, later)
    ensures Parses(Back(p, rest), later, z) && |later| < |es|
  {
    hide Parses, Goes, NodeStep;
    Onward(p, es, z);
    First(Step(p), es, z);
    if Step(p) == NodeStep(p, true, false) {
      hide TokensThen, EventsThen, Proper, Step;
      t, rest, later := NodeDerived(p, es, z, true, false);
    } else {
      t, rest, later := Empty, p.tokens, es[1..];
    }
  }

  /** From the end of a document to the end of the stream. */
  lemma {:induction false} EndDerived(p: Parser, es: seq<Parsed>, z: Parser) returns (ends: nat, d: Docs)
    requires Parses(p, es, z) && z.state.AtEnd? && p.state.AtDocumentEnd? && p.states == [] && p.marks == [] && !p.ended
    ensures ProperDocs(d) && p.tokens == EndTokens(ends, DocTokens(d, z.tokens)) && es == [Inside(DocumentEnd)] + DocEvents(d)
    ensures z == End(z.tokens)
    decreases |es|, 3
  {
    hide Parses, Goes, DocTokens, DocEvents, ProperDocs;
    Onward(p, es, z);
    First(DocumentEndStep(p), es, z);
    var q := DocumentEndStep(p).next;
    ends, d := DocsDerived(q, es[1..], z);
    if p.tokens[0].EndDocument? {
      ends := ends + 1;
      assert p.tokens == [EndDocument] + q.tokens;
    }
  }

  lemma {:induction false} DocsDerived(p: Parser, es: seq<Parsed>, z: Parser) returns (ends: nat, d: Docs)
    requires Parses(p, es, z) && z.state.AtEnd? && Between(p) && p.state.AtDocument?
    ensures ProperDocs(d) && p.tokens == EndTokens(ends, DocTokens(d, z.tokens)) && es == DocEvents(d) && z == End(z.tokens)
    decreases |es|, 2
  {
    hide Parses, Goes, DocTokens, DocEvents, ProperDocs, PastEnds;
    Onward(p, es, z);
    First(Step(p), es, z);
    ExplicitIs(p);
    ends := EndsDerived(p);
    var q := PastEnds(p);
    d := DocDerived(q, es, z);
  }

  lemma ExplicitIs(p: Parser)
    requires p.state.AtDocument? && Step(p).Emit?
    ensures PastEnds(p).tokens != [] && Step(p) == ExplicitStep(PastEnds(p))
  {
    hide PastEnds, Directives;
  }

  /** One document, if there is one, and those behind it. */
  lemma {:induction false} DocDerived(p: Parser, es: seq<Parsed>, z: Parser) returns (d: Docs)
    requires Between(p) && p.tokens != [] && Goes(ExplicitStep(p), es, z) && z.state.AtEnd?
    ensures ProperDocs(d) && p.tokens == DocTokens(d, z.tokens) && es == DocEvents(d) && z == End(z.tokens)
    decreases |es|, 1
  {
    hide Parses, Goes, Directives, Default, TokensThen, EventsThen, Proper, EndTokens;
    First(ExplicitStep(p), es, z);
    if p.tokens[0].EndStream? {
      d := NoDocs;
      assert p.tokens == [EndStream] + p.tokens[1..];
      Ended(Skip(p).(state := AtEnd), es[1..], z);
    } else {
      var ds, inner := DirectivesDerived(p, false);
      assert p.tags + TagsOf(ds) == TagsOf(ds) && inner == [StartDocument] + inner[1..];
      var q := Parser(inner[1..], AtContent, [AtDocumentEnd], [], Default(TagsOf(ds)), false);
      assert p.states + [AtDocumentEnd] == [AtDocumentEnd];
      var t, rest, later := RootDerived(q, es[1..], z);
      var ends, more := EndDerived(Back(q, rest), later, z);
      d := Docs.Doc(ds, t, ends, more);
    }
  }

  /** The step to a document that has an explicit start, or to the end. */
  function ExplicitStep(p: Parser): Result
    requires p.tokens != []
  {
    if p.tokens[0].EndStream? then Emit(Skip(p).(state := AtEnd), StreamEnd) else
      var d := Directives(p, false);
      if d.Misdirected? then Fail(d.why)
      else if d.next.tokens == [] then Fail(NoToken)
      else if !d.next.tokens[0].StartDocument? then Fail(Syntax)
      else Emit(Skip(Push(d.next, AtDocumentEnd)).(state := AtContent), Inside(DocumentStart))
  }

  lemma Ended(p: Parser, es: seq<Parsed>, z: Parser)
    requires Parses(p, es, z) && p.state.AtEnd?
    ensures es == [] && p == z
  {
    StepAtEnd(p);
  }

  /** Any run to the end of a stream is that of a derivation. */
  lemma StreamDerived(tokens: seq<Token>, es: seq<Parsed>, z: Parser) returns (s: Source)
    requires Parses(Initial(tokens), es, z) && z.state.AtEnd?
    ensures ProperSource(s) && tokens == SourceTokens(s, z.tokens) && es == SourceEvents(s) && z == End(z.tokens)
  {
    hide Parses, Goes, Directives, DocTokens, DocEvents, ProperDocs, Default, TokensThen, EventsThen, Proper, EndTokens;
    var p := Initial(tokens);
    Onward(p, es, z);
    First(Step(p), es, z);
    var q := Step(p).next;
    assert tokens == [StartStream] + q.tokens;
    Onward(q, es[1..], z);
    First(Step(q), es[1..], z);
    if Starter(q.tokens[0]) {
      var d := DocDerived(q, es[1..], z);
      s := Source(Empty, 0, d);
      EmptyIsProper(Default([]));
    } else {
      var ds, inner := DirectivesDerived(q, false);
      NoDirectives(ds, inner);
      assert q.tags + TagsOf([]) == [] && [] + inner == inner;
      var r := Parser(q.tokens, AtBlockNode, [AtDocumentEnd], [], Default([]), false);
      assert q.states + [AtDocumentEnd] == [AtDocumentEnd];
      var t, rest, later := RootDerived(r, es[1..][1..], z);
      var ends, more := EndDerived(Back(r, rest), later, z);
      s := Source(t, ends, more);
    }
  }

  lemma EmptyIsProper(tags: seq<Directive>)
    ensures Proper(Empty, tags, true, false)
  {
  }

  lemma NoDirectives(ds: seq<Token>, rest: seq<Token>)
    requires ds + rest != [] && !Starter((ds + rest)[0]) && Fresh([], ds, false)
    ensures ds == []
  {
  }

  lemma {:induction false} RunParses(p: Parser) returns (z: Parser)
    requires Sound(p) && Run(p).stop.None?
    ensures Parses(p, Run(p).events, z) && z.state.AtEnd?
    decreases Distance(p)
  {
    hide Sound, Step;
    if p.state.AtEnd? {
      z := p;
    } else {
      StepGood(p);
      z := RunParses(Step(p).next);
      assert Run(p).events[1..] == Run(Step(p).next).events;
    }
  }

  /** The parser gets to the end of a stream with just these events, if and only if the
      stream begins with a derivation that has them. */
  lemma ParsedExactly(tokens: seq<Token>, es: seq<Parsed>)
    ensures Run(Initial(tokens)) == Whole(es, None)
       <==> exists s, beyond :: ProperSource(s) && tokens == SourceTokens(s, beyond) && es == SourceEvents(s)
  {
    hide Run, Parses, SourceTokens, SourceEvents, ProperSource;
    if Run(Initial(tokens)) == Whole(es, None) {
      var z := RunParses(Initial(tokens));
      var s := StreamDerived(tokens, es, z);
      assert tokens == SourceTokens(s, z.tokens);
    }
    if s, beyond :| ProperSource(s) && tokens == SourceTokens(s, beyond) && es == SourceEvents(s) {
      GrammarIsParsed(s, beyond);
    }
  }
}
