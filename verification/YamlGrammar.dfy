/** The grammar the parser is written from, as derivation trees with their tokens and their
    events: every derivation is parsed to its events. */
module YamlGrammar {
  import opened Options
  import opened YamlDumper
  import opened YamlNesting
  import opened YamlParser

  /** TAG ANCHOR? | ANCHOR TAG? */
  datatype Props = Props(anchor: Option<string>, tag: Option<(string, string)>, tagFirst: bool)

  datatype Tree =
    | Empty
    | AliasTree(name: string)
    | Leaf(props: Props, text: string, plain: bool)
    | Bare(props: Props)
    | BlockSeq(props: Props, items: Items)
    | Indentless(props: Props, items: Items)
    | BlockMap(props: Props, pairs: Pairs)
    | FlowSeq(props: Props, entries: Entries)
    | FlowMap(props: Props, entries: Entries)

  /** (BLOCK-ENTRY block_node?)* */
  datatype Items = NoItems | Item(node: Tree, rest: Items)

  /** (KEY node? (VALUE node?)?)* */
  datatype Pairs = NoPairs | Pair(key: Tree, hasValue: bool, value: Tree, rest: Pairs)

  /** (node | KEY node? (VALUE node?)?) separated by FLOW-ENTRY, which may also come last.
      An odd entry is not in the grammar, but the parser takes it: a key that is not there,
      and in its place one VALUE, FLOW-ENTRY or FLOW-SEQUENCE-END. */
  datatype Entries = NoEntries(comma: bool) | Plain(node: Tree, rest: Entries)
    | Keyed(key: Tree, hasValue: bool, value: Tree, rest: Entries)
    | Odd(skipped: Token, hasValue: bool, value: Tree, rest: Entries)

  // ----- the tokens of a derivation, before the tokens that follow it -----

  function PropsThen(r: Props, rest: seq<Token>): seq<Token> {
    if r.anchor.None? && r.tag.None? then rest
    else if r.tag.None? then [Anchor(r.anchor.value)] + rest
    else if r.anchor.None? then [Tag(r.tag.value.0, r.tag.value.1)] + rest
    else if r.tagFirst then [Tag(r.tag.value.0, r.tag.value.1)] + ([Anchor(r.anchor.value)] + rest)
    else [Anchor(r.anchor.value)] + ([Tag(r.tag.value.0, r.tag.value.1)] + rest)
  }

  function TokensThen(t: Tree, rest: seq<Token>): seq<Token>
    decreases t, 0
  {
    match t
    case Empty => rest
    case AliasTree(name) => [AliasToken(name)] + rest
    case Leaf(r, text, plain) => PropsThen(r, [Text(text, plain)] + rest)
    case Bare(r) => PropsThen(r, rest)
    case BlockSeq(r, items) => PropsThen(r, [StartBlockSequence] + ItemTokens(items, [EndBlock] + rest))
    case Indentless(r, items) => PropsThen(r, ItemTokens(items, rest))
    case BlockMap(r, pairs) => PropsThen(r, [StartBlockMapping] + PairTokens(pairs, [EndBlock] + rest))
    case FlowSeq(r, es) => PropsThen(r, [StartFlowSequence] + EntryTokens(es, true, [EndFlowSequence] + rest))
    case FlowMap(r, es) => PropsThen(r, [StartFlowMapping] + EntryTokens(es, true, [EndFlowMapping] + rest))
  }

  function ItemTokens(items: Items, rest: seq<Token>): seq<Token>
    decreases items, 0
  {
    match items
    case NoItems => rest
    case Item(t, more) => [Dash] + TokensThen(t, ItemTokens(more, rest))
  }

  function ValueTokens(hasValue: bool, value: Tree, rest: seq<Token>): seq<Token>
    decreases value, 1
  {
    if hasValue then [Value] + TokensThen(value, rest) else rest
  }

  function PairTokens(pairs: Pairs, rest: seq<Token>): seq<Token>
    decreases pairs, 0
  {
    match pairs
    case NoPairs => rest
    case Pair(k, h, v, more) => [Key] + TokensThen(k, ValueTokens(h, v, PairTokens(more, rest)))
  }

  function CommaThen(comma: bool, rest: seq<Token>): seq<Token> {
    if comma then [Comma] + rest else rest
  }

  function EntryTokens(es: Entries, first: bool, rest: seq<Token>): seq<Token>
    decreases es, 0
  {
    match es
    case NoEntries(comma) => CommaThen(comma, rest)
    case Plain(t, more) => CommaThen(!first, TokensThen(t, EntryTokens(more, false, rest)))
    case Keyed(k, h, v, more) => CommaThen(!first, [Key] + TokensThen(k, ValueTokens(h, v, EntryTokens(more, false, rest))))
    case Odd(t, h, v, more) => CommaThen(!first, [Key] + ([t] + ValueTokens(h, v, EntryTokens(more, false, rest))))
  }

  // ----- its events, before the events that follow -----

  function TagOf(r: Props, tags: seq<Directive>): Option<Option<string>> {
    FullTag(tags, Properties(r.anchor, if r.tag.None? then None else Some(r.tag.value.0), if r.tag.None? then "" else r.tag.value.1))
  }

  function TagText(r: Props, tags: seq<Directive>): Option<string> {
    if TagOf(r, tags).None? then None else TagOf(r, tags).value
  }

  predicate NoTag(tag: Option<string>) {
    tag.None? || tag.value == ""
  }

  function Begins(r: Props, tags: seq<Directive>, mapping: bool): Parsed {
    var tag := TagText(r, tags);
    if mapping then Inside(MappingStart(r.anchor, tag, NoTag(tag))) else Inside(SequenceStart(r.anchor, tag, NoTag(tag)))
  }

  function EventsThen(t: Tree, tags: seq<Directive>, es: seq<Parsed>): seq<Parsed> {
    match t
    case Empty => [Inside(EMPTY_SCALAR)] + es
    case AliasTree(name) => [Inside(Alias(Some(name)))] + es
    case Leaf(r, text, plain) =>
      var tag := TagText(r, tags);
      [Inside(ScalarEvent(r.anchor, tag, text, (plain && tag.None?) || tag == Some("!")))] + es
    case Bare(r) => [Inside(ScalarEvent(r.anchor, TagText(r, tags), "", NoTag(TagText(r, tags))))] + es
    case BlockSeq(r, items) => [Begins(r, tags, false)] + ItemEvents(items, tags, [Inside(SequenceEnd)] + es)
    case Indentless(r, items) => [Begins(r, tags, false)] + ItemEvents(items, tags, [Inside(SequenceEnd)] + es)
    case BlockMap(r, pairs) => [Begins(r, tags, true)] + PairEvents(pairs, tags, [Inside(MappingEnd)] + es)
    case FlowSeq(r, entries) => [Begins(r, tags, false)] + EntryEvents(entries, tags, false, [Inside(SequenceEnd)] + es)
    case FlowMap(r, entries) => [Begins(r, tags, true)] + EntryEvents(entries, tags, true, [Inside(MappingEnd)] + es)
  }

  function ItemEvents(items: Items, tags: seq<Directive>, es: seq<Parsed>): seq<Parsed> {
    match items
    case NoItems => es
    case Item(t, more) => EventsThen(t, tags, ItemEvents(more, tags, es))
  }

  function PairEvents(pairs: Pairs, tags: seq<Directive>, es: seq<Parsed>): seq<Parsed> {
    match pairs
    case NoPairs => es
    case Pair(k, _, v, more) => EventsThen(k, tags, EventsThen(v, tags, PairEvents(more, tags, es)))
  }

  /** In a flow mapping a lone node is a key without a value; in a flow sequence a key
      makes a mapping of one pair. */
  function EntryEvents(entries: Entries, tags: seq<Directive>, mapping: bool, es: seq<Parsed>): seq<Parsed> {
    match entries
    case NoEntries(_) => es
    case Plain(t, more) =>
      var after := EntryEvents(more, tags, mapping, es);
      EventsThen(t, tags, if mapping then [Inside(EMPTY_SCALAR)] + after else after)
    case Keyed(k, _, v, more) =>
      var after := EntryEvents(more, tags, mapping, es);
      if mapping then EventsThen(k, tags, EventsThen(v, tags, after))
      else [Inside(MappingStart(None, None, true))] + EventsThen(k, tags, EventsThen(v, tags, [Inside(MappingEnd)] + after))
    case Odd(_, _, v, more) =>
      [Inside(MappingStart(None, None, true))] + ([Inside(EMPTY_SCALAR)]
        + EventsThen(v, tags, [Inside(MappingEnd)] + EntryEvents(more, tags, mapping, es)))
  }

  // ----- which derivations there are -----

  predicate Resolved(r: Props, tags: seq<Directive>) {
    TagOf(r, tags).Some?
  }

  /** A derivation of a node where it stands, with every tag handle declared. */
  predicate Proper(t: Tree, tags: seq<Directive>, block: bool, indentless: bool) {
    match t
    case Empty => true
    case AliasTree(_) => true
    case Leaf(r, _, _) => Resolved(r, tags)
    case Bare(r) => Resolved(r, tags) && (r.anchor.Some? || r.tag.Some?)
    case BlockSeq(r, items) => block && Resolved(r, tags) && ProperItems(items, tags)
    case Indentless(r, items) => indentless && Resolved(r, tags) && items.Item? && ProperItems(items, tags)
    case BlockMap(r, pairs) => block && Resolved(r, tags) && ProperPairs(pairs, tags)
    case FlowSeq(r, es) => Resolved(r, tags) && ProperEntries(es, tags, false) && !(es.NoEntries? && es.comma)
    case FlowMap(r, es) => Resolved(r, tags) && ProperEntries(es, tags, true) && !(es.NoEntries? && es.comma)
  }

  predicate ProperItems(items: Items, tags: seq<Directive>) {
    match items
    case NoItems => true
    case Item(t, more) => Proper(t, tags, true, false) && ProperItems(more, tags)
  }

  predicate ProperPairs(pairs: Pairs, tags: seq<Directive>) {
    match pairs
    case NoPairs => true
    case Pair(k, h, v, more) =>
      Proper(k, tags, true, true) && Proper(v, tags, true, true) && (h || v.Empty?) && ProperPairs(more, tags)
  }

  /** In a flow sequence the parser skips the token after an empty key: only an empty
      value hides that, or a comma that comes last. */
  predicate EmptyKeyStands(hasValue: bool, value: Tree, more: Entries) {
    if hasValue then value.Empty? else more == NoEntries(true)
  }

  predicate ProperEntries(es: Entries, tags: seq<Directive>, mapping: bool) {
    match es
    case NoEntries(_) => true
    case Plain(t, more) => !t.Empty? && Proper(t, tags, false, false) && ProperEntries(more, tags, mapping)
    case Keyed(k, h, v, more) =>
      && Proper(k, tags, false, false) && Proper(v, tags, false, false) && (h || v.Empty?)
      && (!mapping && k.Empty? ==> EmptyKeyStands(h, v, more)) && ProperEntries(more, tags, mapping)
    case Odd(t, h, v, more) =>
      && !mapping && Skippable(t) && Proper(v, tags, false, false) && (h || v.Empty?) && ProperEntries(more, tags, mapping)
  }

  /** What stands for an empty key in a flow sequence. */
  predicate Skippable(t: Token) {
    t.Value? || t.Comma? || t.EndFlowSequence?
  }

  /** A token that no node begins with (but an indentless sequence may with a dash). */
  predicate Closer(t: Token) {
    t.Dash? || t.Key? || t.Value? || t.EndBlock? || t.Comma? || t.EndFlowSequence? || t.EndFlowMapping?
    || t.StartDocument? || t.EndDocument? || t.EndStream? || t.VersionDirective? || t.TagDirective?
  }

  predicate Follows(rest: seq<Token>, indentless: bool) {
    rest != [] && Closer(rest[0]) && (indentless ==> rest[0].Key? || rest[0].Value? || rest[0].EndBlock?)
  }

  // ----- what the machine does -----

  /** The machine gives just these events from one parser to another. */
  ghost predicate Parses(p: Parser, es: seq<Parsed>, z: Parser)
    decreases |es|, 1
  {
    if es == [] then p == z else Goes(Step(p), es, z)
  }

  ghost predicate Goes(r: Result, es: seq<Parsed>, z: Parser)
    decreases |es|, 0
  {
    es != [] && r.Emit? && r.event == es[0] && Parses(r.next, es[1..], z)
  }

  function Back(p: Parser, rest: seq<Token>): Parser
    requires p.states != []
  {
    p.(tokens := rest, state := p.states[|p.states| - 1], states := p.states[..|p.states| - 1])
  }

  lemma GoesOne(q: Parser, e: Parsed, es: seq<Parsed>, z: Parser)
    requires Parses(q, es, z)
    ensures Goes(Emit(q, e), [e] + es, z)
  {
  }

  lemma GoesParses(p: Parser, es: seq<Parsed>, z: Parser)
    requires Goes(Step(p), es, z)
    ensures Parses(p, es, z)
  {
    hide Step;
  }

  // ----- the first tokens -----

  /** A token that a node begins with. */
  predicate Opener(t: Token) {
    t.AliasToken? || t.Anchor? || t.Tag? || t.Text?
    || t.StartBlockSequence? || t.StartBlockMapping? || t.StartFlowSequence? || t.StartFlowMapping?
  }

  lemma NodeHead(t: Tree, rest: seq<Token>)
    requires !t.Empty? && (t.Indentless? ==> t.items.Item?)
    requires t.Bare? ==> t.props.anchor.Some? || t.props.tag.Some?
    ensures var ts := TokensThen(t, rest); ts != [] && (Opener(ts[0]) || (t.Indentless? && ts[0].Dash?))
  {
  }

  lemma ItemsHead(items: Items, rest: seq<Token>)
    requires rest != []
    ensures var ts := ItemTokens(items, rest); ts != [] && ts[0] == if items.Item? then Dash else rest[0]
  {
  }

  lemma PairsHead(pairs: Pairs, rest: seq<Token>)
    requires rest != []
    ensures var ts := PairTokens(pairs, rest); ts != [] && ts[0] == if pairs.Pair? then Key else rest[0]
  {
  }

  lemma EntriesHead(es: Entries, rest: seq<Token>)
    requires rest != []
    ensures var ts := EntryTokens(es, false, rest); ts != [] && (ts[0].Comma? || ts[0] == rest[0])
  {
  }

  // ----- nodes -----

  lemma PropsParse(p: Parser, r: Props, rest: seq<Token>, block: bool, indentless: bool)
    requires p.tokens == PropsThen(r, rest) && !p.ended && Resolved(r, p.tags)
    requires rest != [] && !rest[0].AliasToken? && !rest[0].Anchor? && !rest[0].Tag?
    ensures NodeStep(p, block, indentless)
         == ContentStep(p.(tokens := rest), r.anchor, TagText(r, p.tags), block, indentless)
  {
    hide ContentStep, Declared;
    assert p.(tokens := rest, ended := false) == p.(tokens := rest);
  }

  lemma {:induction false} FlowNodeParses(t: Tree, p: Parser, rest: seq<Token>, block: bool, indentless: bool, es: seq<Parsed>, z: Parser)
    requires Proper(t, p.tags, block, indentless) && (t.FlowSeq? || t.FlowMap?) && Follows(rest, indentless)
    requires p.tokens == TokensThen(t, rest) && !p.ended && p.states != [] && Parses(Back(p, rest), es, z)
    ensures Goes(NodeStep(p, block, indentless), EventsThen(t, p.tags, es), z)
    decreases t, 0
  {
    hide Parses, Goes, FullTag, NodeStep, PropsThen, EntryTokens, EntryEvents, ProperEntries;
    match t
    case FlowSeq(r, entries) =>
      var after := [StartFlowSequence] + EntryTokens(entries, true, [EndFlowSequence] + rest);
      PropsParse(p, r, after, block, indentless);
      FlowSeqParses(entries, p.(tokens := after), rest, es, z);
      GoesOne(p.(tokens := after, state := FlowSequenceFirst), Begins(r, p.tags, false),
              EntryEvents(entries, p.tags, false, [Inside(SequenceEnd)] + es), z);
    case FlowMap(r, entries) =>
      var after := [StartFlowMapping] + EntryTokens(entries, true, [EndFlowMapping] + rest);
      PropsParse(p, r, after, block, indentless);
      FlowMapParses(entries, p.(tokens := after), rest, es, z);
      GoesOne(p.(tokens := after, state := FlowMappingFirst), Begins(r, p.tags, true),
              EntryEvents(entries, p.tags, true, [Inside(MappingEnd)] + es), z);
  }

  /** How a derivation that stands here is parsed, whatever follows. */
  lemma {:induction false} NodeParses(t: Tree, p: Parser, rest: seq<Token>, block: bool, indentless: bool, es: seq<Parsed>, z: Parser)
    requires Proper(t, p.tags, block, indentless) && !t.Empty? && Follows(rest, indentless)
    requires p.tokens == TokensThen(t, rest) && !p.ended && p.states != [] && Parses(Back(p, rest), es, z)
    ensures Goes(NodeStep(p, block, indentless), EventsThen(t, p.tags, es), z)
    decreases t, 1
  {
    hide Parses, Goes, FullTag, NodeStep, PropsThen, ItemTokens, PairTokens, EntryTokens, ItemEvents, PairEvents, EntryEvents,
      ProperItems, ProperPairs, ProperEntries;
    match t
    case AliasTree(name) =>
      AliasParses(p, name, rest, block, indentless, es, z);
    case Leaf(_, _, _) =>
      LeafParses(t, p, rest, block, indentless, es, z);
    case Bare(_) =>
      LeafParses(t, p, rest, block, indentless, es, z);
    case BlockSeq(r, items) =>
      var after := [StartBlockSequence] + ItemTokens(items, [EndBlock] + rest);
      PropsParse(p, r, after, block, indentless);
      BlockSeqParses(items, p.(tokens := after), rest, es, z);
      GoesOne(p.(tokens := after, state := BlockSequenceFirst), Begins(r, p.tags, false),
              ItemEvents(items, p.tags, [Inside(SequenceEnd)] + es), z);
    case Indentless(r, items) =>
      var after := ItemTokens(items, rest);
      ItemsHead(items, rest);
      PropsParse(p, r, after, block, indentless);
      var q := p.(tokens := after, state := IndentlessEntry);
      IndentlessParses(items, q, rest, es, z);
      GoesParses(q, ItemEvents(items, p.tags, [Inside(SequenceEnd)] + es), z);
      GoesOne(q, Begins(r, p.tags, false), ItemEvents(items, p.tags, [Inside(SequenceEnd)] + es), z);
    case BlockMap(r, pairs) =>
      var after := [StartBlockMapping] + PairTokens(pairs, [EndBlock] + rest);
      PropsParse(p, r, after, block, indentless);
      BlockMapParses(pairs, p.(tokens := after), rest, es, z);
      GoesOne(p.(tokens := after, state := BlockMappingFirst), Begins(r, p.tags, true),
              PairEvents(pairs, p.tags, [Inside(MappingEnd)] + es), z);
    case FlowSeq(_, _) => FlowNodeParses(t, p, rest, block, indentless, es, z);
    case FlowMap(_, _) => FlowNodeParses(t, p, rest, block, indentless, es, z);
  }

  lemma LeafParses(t: Tree, p: Parser, rest: seq<Token>, block: bool, indentless: bool, es: seq<Parsed>, z: Parser)
    requires Proper(t, p.tags, block, indentless) && (t.Leaf? || t.Bare?) && Follows(rest, indentless)
    requires p.tokens == TokensThen(t, rest) && !p.ended && p.states != [] && Parses(Back(p, rest), es, z)
    ensures Goes(NodeStep(p, block, indentless), EventsThen(t, p.tags, es), z)
  {
    hide Parses, Goes, FullTag, NodeStep, PropsThen;
    if t.Leaf? {
      var after := [Text(t.text, t.plain)] + rest;
      PropsParse(p, t.props, after, block, indentless);
      PoppedGoes(p.(tokens := after), rest, EventsThen(t, p.tags, es)[0].event, es, z);
    } else {
      PropsParse(p, t.props, rest, block, indentless);
      TagThere(t.props, p.tags);
      GoesOne(Back(p, rest), EventsThen(t, p.tags, es)[0], es, z);
    }
  }

  lemma TagThere(r: Props, tags: seq<Directive>)
    requires Resolved(r, tags)
    ensures TagText(r, tags).Some? <==> r.tag.Some?
  {
  }

  lemma AliasParses(p: Parser, name: string, rest: seq<Token>, block: bool, indentless: bool, es: seq<Parsed>, z: Parser)
    requires p.tokens == [AliasToken(name)] + rest && !p.ended && p.states != [] && Parses(Back(p, rest), es, z)
    ensures Goes(NodeStep(p, block, indentless), [Inside(Alias(Some(name)))] + es, z)
  {
    hide Parses, Goes;
    PoppedGoes(p, rest, Alias(Some(name)), es, z);
  }

  lemma PoppedGoes(p: Parser, rest: seq<Token>, e: Event, es: seq<Parsed>, z: Parser)
    requires p.tokens != [] && p.tokens[1..] == rest && !p.tokens[0].EndStream? && !p.ended && p.states != []
    requires Parses(Back(p, rest), es, z)
    ensures Goes(Popped(Skip(p), e), [Inside(e)] + es, z)
  {
    hide Parses, Goes;
    assert Back(Skip(p), rest) == Back(p, rest);
    GoesOne(Back(p, rest), Inside(e), es, z);
  }

  /** The end of a collection whose mark was kept. */
  lemma ClosedGoes(p: Parser, rest: seq<Token>, e: Event, es: seq<Parsed>, z: Parser)
    requires p.tokens != [] && p.tokens[1..] == rest && !p.tokens[0].EndStream? && !p.ended && p.states != [] && p.marks != []
    requires Parses(Back(Unmarked(p), rest), es, z)
    ensures Goes(Closed(p, e), [Inside(e)] + es, z)
  {
    hide Parses, Goes;
    GoesOne(Back(Unmarked(p), rest), Inside(e), es, z);
  }

  function Unmarked(p: Parser): Parser
    requires p.marks != []
  {
    p.(marks := p.marks[..|p.marks| - 1])
  }

  // ----- block sequences -----

  lemma {:induction false} BlockSeqParses(items: Items, p: Parser, rest: seq<Token>, es: seq<Parsed>, z: Parser)
    requires ProperItems(items, p.tags) && !p.ended && p.states != [] && Parses(Back(p, rest), es, z)
    requires p.tokens == [StartBlockSequence] + ItemTokens(items, [EndBlock] + rest)
    ensures Parses(p.(state := BlockSequenceFirst), ItemEvents(items, p.tags, [Inside(SequenceEnd)] + es), z)
    decreases items, 2
  {
    hide Parses, Goes, ItemTokens, ItemEvents, ProperItems, BlockSequenceStep;
    var f := p.(state := BlockSequenceFirst);
    var q := Begun(f);
    assert Back(Unmarked(q), rest) == Back(p, rest);
    ItemsParse(items, q, rest, es, z);
    GoesParses(f, ItemEvents(items, p.tags, [Inside(SequenceEnd)] + es), z);
  }

  lemma {:induction false} ItemsParse(items: Items, p: Parser, rest: seq<Token>, es: seq<Parsed>, z: Parser)
    requires ProperItems(items, p.tags) && !p.ended && p.states != [] && p.marks != [] && Parses(Back(Unmarked(p), rest), es, z)
    requires p.tokens == ItemTokens(items, [EndBlock] + rest)
    ensures Goes(BlockSequenceStep(p), ItemEvents(items, p.tags, [Inside(SequenceEnd)] + es), z)
    decreases items, 1
  {
    hide Parses, Goes, NodeStep, TokensThen, EventsThen, Proper, Closed;
    match items
    case NoItems =>
      ClosedGoes(p, rest, SequenceEnd, es, z);
    case Item(t, more) =>
      var after := ItemTokens(more, [EndBlock] + rest);
      var q := Skip(p);
      ItemsHead(more, [EndBlock] + rest);
      var later := ItemEvents(more, p.tags, [Inside(SequenceEnd)] + es);
      var q' := q.(tokens := after, state := BlockSequenceEntry);
      assert Back(Unmarked(q'), rest) == Back(Unmarked(p), rest);
      ItemsParse(more, q', rest, es, z);
      hide ItemEvents, ItemTokens;
      GoesParses(q', later, z);
      hide BlockSequenceStep;
      StepItem(t, p, after, later, z);
  }

  lemma {:induction false} StepItem(t: Tree, p: Parser, after: seq<Token>, later: seq<Parsed>, z: Parser)
    requires Proper(t, p.tags, true, false) && !p.ended && p.tokens == [Dash] + TokensThen(t, after)
    requires after != [] && (after[0].Dash? || after[0].EndBlock?)
    requires Parses(p.(tokens := after, state := BlockSequenceEntry), later, z)
    ensures Goes(BlockSequenceStep(p), EventsThen(t, p.tags, later), z)
    decreases t, 3
  {
    hide Parses, Goes, NodeStep, Closed;
    var q := Skip(p);
    if t.Empty? {
      GoesOne(q.(state := BlockSequenceEntry), Inside(EMPTY_SCALAR), later, z);
    } else {
      NodeHead(t, after);
      PushedBack(q, BlockSequenceEntry, after);
      hide TokensThen, EventsThen, Proper;
      NodeParses(t, Push(q, BlockSequenceEntry), after, true, false, later, z);
    }
  }

  lemma PushedBack(q: Parser, s: State, rest: seq<Token>)
    ensures Back(Push(q, s), rest) == q.(tokens := rest, state := s)
  {
  }

  // ----- indentless sequences -----

  lemma {:induction false} IndentlessParses(items: Items, p: Parser, rest: seq<Token>, es: seq<Parsed>, z: Parser)
    requires ProperItems(items, p.tags) && !p.ended && p.states != [] && Parses(Back(p, rest), es, z) && Follows(rest, true)
    requires p.tokens == ItemTokens(items, rest)
    ensures Goes(IndentlessStep(p), ItemEvents(items, p.tags, [Inside(SequenceEnd)] + es), z)
    decreases items, 1
  {
    hide Parses, Goes, NodeStep, TokensThen, EventsThen, Proper;
    match items
    case NoItems =>
      GoesOne(Back(p, rest), Inside(SequenceEnd), es, z);
    case Item(t, more) =>
      var after := ItemTokens(more, rest);
      var q := Skip(p);
      ItemsHead(more, rest);
      var later := ItemEvents(more, p.tags, [Inside(SequenceEnd)] + es);
      var q' := q.(tokens := after, state := IndentlessEntry);
      assert Back(q', rest) == Back(p, rest);
      IndentlessParses(more, q', rest, es, z);
      hide ItemEvents, ItemTokens;
      GoesParses(q', later, z);
      hide IndentlessStep;
      StepIndentless(t, p, after, later, z);
  }

  lemma {:induction false} StepIndentless(t: Tree, p: Parser, after: seq<Token>, later: seq<Parsed>, z: Parser)
    requires Proper(t, p.tags, true, false) && !p.ended && p.tokens == [Dash] + TokensThen(t, after)
    requires after != [] && (after[0].Dash? || after[0].Key? || after[0].Value? || after[0].EndBlock?)
    requires Parses(p.(tokens := after, state := IndentlessEntry), later, z)
    ensures Goes(IndentlessStep(p), EventsThen(t, p.tags, later), z)
    decreases t, 3
  {
    hide Parses, Goes, NodeStep;
    var q := Skip(p);
    if t.Empty? {
      GoesOne(q.(state := IndentlessEntry), Inside(EMPTY_SCALAR), later, z);
    } else {
      NodeHead(t, after);
      PushedBack(q, IndentlessEntry, after);
      hide TokensThen, EventsThen, Proper;
      NodeParses(t, Push(q, IndentlessEntry), after, true, false, later, z);
    }
  }

  // ----- block mappings -----

  lemma {:induction false} BlockMapParses(pairs: Pairs, p: Parser, rest: seq<Token>, es: seq<Parsed>, z: Parser)
    requires ProperPairs(pairs, p.tags) && !p.ended && p.states != [] && Parses(Back(p, rest), es, z)
    requires p.tokens == [StartBlockMapping] + PairTokens(pairs, [EndBlock] + rest)
    ensures Parses(p.(state := BlockMappingFirst), PairEvents(pairs, p.tags, [Inside(MappingEnd)] + es), z)
    decreases pairs, 2
  {
    hide Parses, Goes, PairTokens, PairEvents, ProperPairs, BlockMappingKeyStep;
    var f := p.(state := BlockMappingFirst);
    var q := Begun(f);
    assert Back(Unmarked(q), rest) == Back(p, rest);
    PairsParse(pairs, q, rest, es, z);
    GoesParses(f, PairEvents(pairs, p.tags, [Inside(MappingEnd)] + es), z);
  }

  lemma {:induction false} PairsParse(pairs: Pairs, p: Parser, rest: seq<Token>, es: seq<Parsed>, z: Parser)
    requires ProperPairs(pairs, p.tags) && !p.ended && p.states != [] && p.marks != [] && Parses(Back(Unmarked(p), rest), es, z)
    requires p.tokens == PairTokens(pairs, [EndBlock] + rest)
    ensures Goes(BlockMappingKeyStep(p), PairEvents(pairs, p.tags, [Inside(MappingEnd)] + es), z)
    decreases pairs, 1
  {
    hide Parses, Goes, NodeStep, TokensThen, EventsThen, Proper, Closed, BlockMappingValueStep, ValueTokens;
    match pairs
    case NoPairs =>
      ClosedGoes(p, rest, MappingEnd, es, z);
    case Pair(k, h, v, more) =>
      var after := PairTokens(more, [EndBlock] + rest);
      PairsHead(more, [EndBlock] + rest);
      var later := PairEvents(more, p.tags, [Inside(MappingEnd)] + es);
      var q := p.(tokens := after, state := BlockMappingKey);
      assert Back(Unmarked(q), rest) == Back(Unmarked(p), rest);
      PairsParse(more, q, rest, es, z);
      hide PairEvents, PairTokens;
      GoesParses(q, later, z);
      hide BlockMappingKeyStep;
      var q' := p.(tokens := ValueTokens(h, v, after), state := BlockMappingValue);
      StepBlockValue(h, v, q', after, later, z);
      GoesParses(q', EventsThen(v, p.tags, later), z);
      StepBlockKey(k, p, h, v, after, EventsThen(v, p.tags, later), z);
  }

  lemma {:induction false} StepBlockKey(k: Tree, p: Parser, h: bool, v: Tree, after: seq<Token>, later: seq<Parsed>, z: Parser)
    requires Proper(k, p.tags, true, true) && !p.ended && p.tokens == [Key] + TokensThen(k, ValueTokens(h, v, after))
    requires after != [] && (after[0].Key? || after[0].EndBlock?)
    requires Parses(p.(tokens := ValueTokens(h, v, after), state := BlockMappingValue), later, z)
    ensures Goes(BlockMappingKeyStep(p), EventsThen(k, p.tags, later), z)
    decreases k, 3
  {
    hide Parses, Goes, NodeStep;
    var q, held := Skip(p), ValueTokens(h, v, after);
    assert held != [] && (held[0].Key? || held[0].Value? || held[0].EndBlock?);
    if k.Empty? {
      GoesOne(q.(state := BlockMappingValue), Inside(EMPTY_SCALAR), later, z);
    } else {
      NodeHead(k, held);
      PushedBack(q, BlockMappingValue, held);
      hide TokensThen, EventsThen, Proper, ValueTokens;
      NodeParses(k, Push(q, BlockMappingValue), held, true, true, later, z);
    }
  }

  lemma {:induction false} StepBlockValue(h: bool, v: Tree, p: Parser, after: seq<Token>, later: seq<Parsed>, z: Parser)
    requires Proper(v, p.tags, true, true) && (h || v.Empty?) && !p.ended && p.tokens == ValueTokens(h, v, after)
    requires after != [] && (after[0].Key? || after[0].EndBlock?)
    requires Parses(p.(tokens := after, state := BlockMappingKey), later, z)
    ensures Goes(BlockMappingValueStep(p), EventsThen(v, p.tags, later), z)
    decreases v, 3
  {
    hide Parses, Goes, NodeStep;
    if !h {
      GoesOne(p.(state := BlockMappingKey), Inside(EMPTY_SCALAR), later, z);
    } else if v.Empty? {
      GoesOne(Skip(p).(state := BlockMappingKey), Inside(EMPTY_SCALAR), later, z);
    } else {
      NodeHead(v, after);
      PushedBack(Skip(p), BlockMappingKey, after);
      hide TokensThen, EventsThen, Proper;
      NodeParses(v, Push(Skip(p), BlockMappingKey), after, true, true, later, z);
    }
  }

  // ----- flow sequences -----

  lemma {:induction false} FlowSeqParses(entries: Entries, p: Parser, rest: seq<Token>, es: seq<Parsed>, z: Parser)
    requires ProperEntries(entries, p.tags, false) && !(entries.NoEntries? && entries.comma)
    requires !p.ended && p.states != [] && Parses(Back(p, rest), es, z)
    requires p.tokens == [StartFlowSequence] + EntryTokens(entries, true, [EndFlowSequence] + rest)
    ensures Parses(p.(state := FlowSequenceFirst), EntryEvents(entries, p.tags, false, [Inside(SequenceEnd)] + es), z)
    decreases entries, 3
  {
    hide Parses, Goes, EntryTokens, EntryEvents, ProperEntries, FlowSequenceStep;
    var f := p.(state := FlowSequenceFirst);
    var q := Begun(f);
    assert Back(Unmarked(q), rest) == Back(p, rest);
    SequenceEntriesParse(entries, true, q, rest, es, z);
    GoesParses(f, EntryEvents(entries, p.tags, false, [Inside(SequenceEnd)] + es), z);
  }

  lemma {:induction false} SequenceEntriesParse(entries: Entries, first: bool, p: Parser, rest: seq<Token>, es: seq<Parsed>, z: Parser)
    requires ProperEntries(entries, p.tags, false) && (first ==> !(entries.NoEntries? && entries.comma))
    requires !p.ended && p.states != [] && p.marks != [] && Parses(Back(Unmarked(p), rest), es, z)
    requires p.tokens == EntryTokens(entries, first, [EndFlowSequence] + rest)
    ensures Goes(FlowSequenceStep(p, first), EntryEvents(entries, p.tags, false, [Inside(SequenceEnd)] + es), z)
    decreases entries, 2
  {
    hide Parses, Goes, NodeStep, TokensThen, EventsThen, Proper, Closed, ValueTokens;
    if entries.NoEntries? {
      var q := if entries.comma then Skip(p) else p;
      assert Back(Unmarked(q), rest) == Back(Unmarked(p), rest);
      ClosedGoes(q, rest, SequenceEnd, es, z);
    } else if entries.Keyed? && entries.key.Empty? && !entries.hasValue {
      hide FlowSequenceStep;
      TrailingKeyTokens(entries, first, p.tags, [EndFlowSequence] + rest, es);
      TrailingKeyParses(p, first, rest, es, z);
    } else {
      var more := entries.rest;
      var after := EntryTokens(more, false, [EndFlowSequence] + rest);
      EntriesHead(more, [EndFlowSequence] + rest);
      var later := EntryEvents(more, p.tags, false, [Inside(SequenceEnd)] + es);
      var q := p.(tokens := after, state := FlowSequenceEntry);
      assert Back(Unmarked(q), rest) == Back(Unmarked(p), rest);
      SequenceEntriesParse(more, false, q, rest, es, z);
      hide EntryTokens, EntryEvents, FlowSequenceStep;
      if entries.Odd? {
        GoesParses(q, later, z);
        OddParses(entries, first, p, after, later, z);
      } else {
        SequenceEntryParses(entries, first, p, after, later, z);
      }
    }
  }

  lemma TrailingKeyTokens(e: Entries, first: bool, tags: seq<Directive>, rest: seq<Token>, es: seq<Parsed>)
    requires e == Keyed(Empty, false, Empty, NoEntries(true))
    ensures EntryTokens(e, first, rest) == CommaThen(!first, [Key] + ([Comma] + rest))
    ensures EntryEvents(e, tags, false, [Inside(SequenceEnd)] + es) == TrailingKeyEvents(es)
  {
  }

  function TrailingKeyEvents(es: seq<Parsed>): seq<Parsed> {
    [Inside(MappingStart(None, None, true))] + TrailingPairEvents(es)
  }

  /** An empty key before a comma that comes last: skipping the comma does no harm. */
  lemma TrailingKeyParses(p: Parser, first: bool, rest: seq<Token>, es: seq<Parsed>, z: Parser)
    requires !p.ended && p.states != [] && p.marks != [] && Parses(Back(Unmarked(p), rest), es, z)
    requires p.tokens == CommaThen(!first, [Key] + ([Comma] + ([EndFlowSequence] + rest)))
    ensures Goes(FlowSequenceStep(p, first), TrailingKeyEvents(es), z)
  {
    hide Parses, Goes, FlowSequenceStep;
    KeyAt(p, first, [Comma] + ([EndFlowSequence] + rest));
    var k := p.(tokens := [Comma] + ([EndFlowSequence] + rest), state := PairKey);
    assert Back(Unmarked(k), rest) == Back(Unmarked(p), rest);
    TrailingPairParses(k, rest, es, z);
    GoesOne(k, Inside(MappingStart(None, None, true)), TrailingPairEvents(es), z);
  }

  function TrailingPairEvents(es: seq<Parsed>): seq<Parsed> {
    [Inside(EMPTY_SCALAR)] + ([Inside(EMPTY_SCALAR)] + ([Inside(MappingEnd)] + ([Inside(SequenceEnd)] + es)))
  }

  lemma TrailingPairParses(p: Parser, rest: seq<Token>, es: seq<Parsed>, z: Parser)
    requires !p.ended && p.states != [] && p.marks != [] && p.state.PairKey? && Parses(Back(Unmarked(p), rest), es, z)
    requires p.tokens == [Comma] + ([EndFlowSequence] + rest)
    ensures Parses(p, TrailingPairEvents(es), z)
  {
    hide Parses, Goes, Step, FlowSequenceStep;
    var q := p.(tokens := [EndFlowSequence] + rest);
    SkipSteps(p, Comma, q.tokens);
    var q3 := q.(state := FlowSequenceEntry);
    EndStep(q3, rest, es, z);
    var e1 := [Inside(SequenceEnd)] + es;
    var e2 := [Inside(MappingEnd)] + e1;
    ParsesOne(q.(state := PairEnd), q3, Inside(MappingEnd), e1, e2, z);
    ParsesOne(q.(state := PairValue), q.(state := PairEnd), Inside(EMPTY_SCALAR), e2, [Inside(EMPTY_SCALAR)] + e2, z);
    ParsesOne(p, q.(state := PairValue), Inside(EMPTY_SCALAR), [Inside(EMPTY_SCALAR)] + e2, TrailingPairEvents(es), z);
  }

  /** The end of a flow sequence after an entry. */
  lemma EndStep(q: Parser, rest: seq<Token>, es: seq<Parsed>, z: Parser)
    requires q.state.FlowSequenceEntry? && !q.ended && q.states != [] && q.marks != []
    requires q.tokens == [EndFlowSequence] + rest && Parses(Back(Unmarked(q), rest), es, z)
    ensures Parses(q, [Inside(SequenceEnd)] + es, z)
  {
    hide Parses, Goes, Closed;
    ClosedGoes(q, rest, SequenceEnd, es, z);
    GoesParses(q, [Inside(SequenceEnd)] + es, z);
  }

  /** At a key in a flow sequence. */
  lemma KeyAt(p: Parser, first: bool, rest: seq<Token>)
    requires !p.ended && p.tokens == CommaThen(!first, [Key] + rest)
    ensures FlowSequenceStep(p, first) == Emit(p.(tokens := rest, state := PairKey), Inside(MappingStart(None, None, true)))
  {
    hide NodeStep, Closed;
  }

  /** An empty key: the token after it is skipped, whatever it is, and if the next is not a
      value the pair ends there. */
  lemma SkipSteps(p: Parser, t: Token, rest: seq<Token>)
    requires p.state.PairKey? && !p.ended && p.tokens == [t] + rest && (t.Value? || t.Comma? || t.EndFlowSequence?)
    requires rest != [] && !rest[0].Value?
    ensures var q := p.(tokens := rest);
      && Step(p) == Emit(q.(state := PairValue), Inside(EMPTY_SCALAR))
      && Step(q.(state := PairValue)) == Emit(q.(state := PairEnd), Inside(EMPTY_SCALAR))
      && Step(q.(state := PairEnd)) == Emit(q.(state := FlowSequenceEntry), Inside(MappingEnd))
  {
    hide NodeStep, Closed, DocumentStartStep, FlowMappingKeyStep, FlowSequenceStep;
  }

  lemma {:induction false} SequenceEntryParses(e: Entries, first: bool, p: Parser, after: seq<Token>, later: seq<Parsed>, z: Parser)
    requires (e.Plain? || e.Keyed?) && ProperEntries(e, p.tags, false) && !p.ended && (e.Keyed? && e.key.Empty? ==> e.hasValue)
    requires after != [] && (after[0].Comma? || after[0].EndFlowSequence?)
    requires p.tokens == CommaThen(!first, if e.Plain? then TokensThen(e.node, after)
                                   else [Key] + TokensThen(e.key, ValueTokens(e.hasValue, e.value, after)))
    requires var q := p.(tokens := after, state := FlowSequenceEntry); Goes(FlowSequenceStep(q, false), later, z)
    ensures Goes(FlowSequenceStep(p, first), if e.Plain? then EventsThen(e.node, p.tags, later) else
      [Inside(MappingStart(None, None, true))]
      + EventsThen(e.key, p.tags, EventsThen(e.value, p.tags, [Inside(MappingEnd)] + later)), z)
    decreases e, 1
  {
    hide Parses, Goes, NodeStep, EventsThen, Closed, FullTag, FlowSequenceStep;
    var q := p.(tokens := after, state := FlowSequenceEntry);
    GoesParses(q, later, z);
    if e.Plain? {
      StepEntry(e.node, first, p, after, later, z);
    } else {
      hide TokensThen, ValueTokens;
      StepPair(e, first, p, after, later, z);
    }
  }

  lemma {:induction false} StepEntry(t: Tree, first: bool, p: Parser, after: seq<Token>, later: seq<Parsed>, z: Parser)
    requires !t.Empty? && Proper(t, p.tags, false, false) && !p.ended
    requires after != [] && (after[0].Comma? || after[0].EndFlowSequence?)
    requires p.tokens == CommaThen(!first, TokensThen(t, after))
    requires Parses(p.(tokens := after, state := FlowSequenceEntry), later, z)
    ensures Goes(FlowSequenceStep(p, first), EventsThen(t, p.tags, later), z)
    decreases t, 3
  {
    hide Parses, Goes, NodeStep, EventsThen, Closed, FullTag;
    var s := if first then p else Skip(p);
    NodeHead(t, after);
    PushedBack(s, FlowSequenceEntry, after);
    EntryStands(t, p.tags, false);
    hide TokensThen, Proper;
    NodeParses(t, Push(s, FlowSequenceEntry), after, false, false, later, z);
  }

  lemma {:induction false} StepPair(e: Entries, first: bool, p: Parser, after: seq<Token>, later: seq<Parsed>, z: Parser)
    requires e.Keyed? && ProperEntries(e, p.tags, false) && !p.ended && (e.key.Empty? ==> e.hasValue)
    requires after != [] && (after[0].Comma? || after[0].EndFlowSequence?)
    requires p.tokens == CommaThen(!first, [Key] + TokensThen(e.key, ValueTokens(e.hasValue, e.value, after)))
    requires Parses(p.(tokens := after, state := FlowSequenceEntry), later, z)
    ensures Goes(FlowSequenceStep(p, first), [Inside(MappingStart(None, None, true))]
      + EventsThen(e.key, p.tags, EventsThen(e.value, p.tags, [Inside(MappingEnd)] + later)), z)
    decreases e, 0, 1
  {
    hide Parses, Goes, NodeStep, EventsThen, Closed, TokensThen, ValueTokens, ProperEntries;
    var k := Skip(if first then p else Skip(p)).(state := PairKey);
    PairParses(e, k, after, later, z);
    GoesOne(k, Inside(MappingStart(None, None, true)),
            EventsThen(e.key, p.tags, EventsThen(e.value, p.tags, [Inside(MappingEnd)] + later)), z);
  }

  /** No node of flow style begins with a dash. */
  lemma EntryStands(t: Tree, tags: seq<Directive>, block: bool)
    requires Proper(t, tags, block, false)
    ensures !t.Indentless?
  {
  }

  /** One pair in a flow sequence. */
  lemma {:induction false} PairParses(pair: Entries, p: Parser, after: seq<Token>, later: seq<Parsed>, z: Parser)
    requires pair.Keyed? && ProperEntries(pair, p.tags, false) && (pair.key.Empty? ==> pair.hasValue)
    requires p.state == PairKey && !p.ended && p.tokens == TokensThen(pair.key, ValueTokens(pair.hasValue, pair.value, after))
    requires after != [] && (after[0].Comma? || after[0].EndFlowSequence?)
    requires Parses(p.(tokens := after, state := FlowSequenceEntry), later, z)
    ensures Parses(p, EventsThen(pair.key, p.tags, EventsThen(pair.value, p.tags, [Inside(MappingEnd)] + later)), z)
    decreases pair, 0, 0
  {
    hide Parses, Goes, NodeStep, FlowSequenceStep;
    var k, h, v := pair.key, pair.hasValue, pair.value;
    var ended := [Inside(MappingEnd)] + later;
    var e := p.(tokens := after, state := PairEnd);
    GoesOne(p.(tokens := after, state := FlowSequenceEntry), Inside(MappingEnd), later, z);
    GoesParses(e, ended, z);
    if k.Empty? {
      var q := Skip(p).(state := PairValue);
      GoesOne(e, Inside(EMPTY_SCALAR), ended, z);
      GoesParses(q, EventsThen(v, p.tags, ended), z);
      GoesOne(q, Inside(EMPTY_SCALAR), EventsThen(v, p.tags, ended), z);
      GoesParses(p, EventsThen(k, p.tags, EventsThen(v, p.tags, ended)), z);
    } else {
      hide PairEndStep, PairKeyStep;
      var held := ValueTokens(h, v, after);
      var q := p.(tokens := held, state := PairValue);
      StepPairValue(h, v, q, after, ended, z);
      assert held != [] && (held[0].Value? || held[0].Comma? || held[0].EndFlowSequence?);
      hide PairValueStep, ValueTokens, EventsThen;
      GoesParses(q, EventsThen(v, p.tags, ended), z);
      StepPairKey(k, p, held, EventsThen(v, p.tags, ended), z);
    }
  }

  lemma {:induction false} StepPairKey(k: Tree, p: Parser, held: seq<Token>, later: seq<Parsed>, z: Parser)
    requires !k.Empty? && Proper(k, p.tags, false, false) && p.state == PairKey && !p.ended && p.tokens == TokensThen(k, held)
    requires held != [] && (held[0].Value? || held[0].Comma? || held[0].EndFlowSequence?)
    requires Parses(p.(tokens := held, state := PairValue), later, z)
    ensures Parses(p, EventsThen(k, p.tags, later), z)
    decreases k, 3
  {
    hide Parses, Goes, NodeStep, EventsThen;
    NodeHead(k, held);
    PushedBack(p, PairValue, held);
    EntryStands(k, p.tags, false);
    hide TokensThen, Proper;
    NodeParses(k, Push(p, PairValue), held, false, false, later, z);
    GoesParses(p, EventsThen(k, p.tags, later), z);
  }

  lemma {:induction false} StepPairValue(h: bool, v: Tree, p: Parser, after: seq<Token>, later: seq<Parsed>, z: Parser)
    requires Proper(v, p.tags, false, false) && (h || v.Empty?) && !p.ended && p.tokens == ValueTokens(h, v, after)
    requires after != [] && (after[0].Comma? || after[0].EndFlowSequence?)
    requires Parses(p.(tokens := after, state := PairEnd), later, z)
    ensures Goes(PairValueStep(p), EventsThen(v, p.tags, later), z)
    decreases v, 3
  {
    hide Parses, Goes, NodeStep;
    if !h {
      GoesOne(p.(state := PairEnd), Inside(EMPTY_SCALAR), later, z);
    } else if v.Empty? {
      GoesOne(Skip(p).(state := PairEnd), Inside(EMPTY_SCALAR), later, z);
    } else {
      NodeHead(v, after);
      PushedBack(Skip(p), PairEnd, after);
      EntryStands(v, p.tags, false);
      hide TokensThen, EventsThen, Proper;
      NodeParses(v, Push(Skip(p), PairEnd), after, false, false, later, z);
    }
  }

  /** A pair whose key is skipped. */
  lemma {:induction false} OddParses(e: Entries, first: bool, p: Parser, after: seq<Token>, later: seq<Parsed>, z: Parser)
    requires e.Odd? && ProperEntries(e, p.tags, false) && !p.ended
    requires after != [] && (after[0].Comma? || after[0].EndFlowSequence?)
    requires p.tokens == CommaThen(!first, [Key] + ([e.skipped] + ValueTokens(e.hasValue, e.value, after)))
    requires Parses(p.(tokens := after, state := FlowSequenceEntry), later, z)
    ensures Goes(FlowSequenceStep(p, first), [Inside(MappingStart(None, None, true))] + ([Inside(EMPTY_SCALAR)]
      + EventsThen(e.value, p.tags, [Inside(MappingEnd)] + later)), z)
    decreases e, 0, 1
  {
    hide Parses, Goes, NodeStep, EventsThen, Closed, FullTag, FlowSequenceStep, PairValueStep, Proper;
    var held := ValueTokens(e.hasValue, e.value, after);
    var ended := [Inside(MappingEnd)] + later;
    KeyAt(p, first, [e.skipped] + held);
    var k := p.(tokens := [e.skipped] + held, state := PairKey);
    var q := p.(tokens := held, state := PairValue);
    var d := p.(tokens := after, state := PairEnd);
    GoesOne(p.(tokens := after, state := FlowSequenceEntry), Inside(MappingEnd), later, z);
    GoesParses(d, ended, z);
    StepPairValue(e.hasValue, e.value, q, after, ended, z);
    hide ValueTokens;
    var es := EventsThen(e.value, p.tags, ended);
    GoesParses(q, es, z);
    KeySkipped(k, e.skipped, held);
    ParsesOne(k, q, Inside(EMPTY_SCALAR), es, [Inside(EMPTY_SCALAR)] + es, z);
    GoesOne(k, Inside(MappingStart(None, None, true)), [Inside(EMPTY_SCALAR)] + es, z);
  }

  lemma KeySkipped(p: Parser, t: Token, rest: seq<Token>)
    requires p.state.PairKey? && !p.ended && p.tokens == [t] + rest && Skippable(t)
    ensures Step(p) == Emit(p.(tokens := rest, state := PairValue), Inside(EMPTY_SCALAR))
  {
    hide NodeStep;
  }

  // ----- flow mappings -----

  lemma {:induction false} FlowMapParses(entries: Entries, p: Parser, rest: seq<Token>, es: seq<Parsed>, z: Parser)
    requires ProperEntries(entries, p.tags, true) && !(entries.NoEntries? && entries.comma)
    requires !p.ended && p.states != [] && Parses(Back(p, rest), es, z)
    requires p.tokens == [StartFlowMapping] + EntryTokens(entries, true, [EndFlowMapping] + rest)
    ensures Parses(p.(state := FlowMappingFirst), EntryEvents(entries, p.tags, true, [Inside(MappingEnd)] + es), z)
    decreases entries, 3
  {
    hide Parses, Goes, EntryTokens, EntryEvents, ProperEntries, FlowMappingKeyStep;
    var f := p.(state := FlowMappingFirst);
    var q := Begun(f);
    assert Back(Unmarked(q), rest) == Back(p, rest);
    MappingEntriesParse(entries, true, q, rest, es, z);
    GoesParses(f, EntryEvents(entries, p.tags, true, [Inside(MappingEnd)] + es), z);
  }

  lemma {:induction false} MappingEntriesParse(entries: Entries, first: bool, p: Parser, rest: seq<Token>, es: seq<Parsed>, z: Parser)
    requires ProperEntries(entries, p.tags, true) && (first ==> !(entries.NoEntries? && entries.comma))
    requires !p.ended && p.states != [] && p.marks != [] && Parses(Back(Unmarked(p), rest), es, z)
    requires p.tokens == EntryTokens(entries, first, [EndFlowMapping] + rest)
    ensures Goes(FlowMappingKeyStep(p, first), EntryEvents(entries, p.tags, true, [Inside(MappingEnd)] + es), z)
    decreases entries, 2
  {
    hide Parses, Goes, NodeStep, TokensThen, EventsThen, Proper, Closed, ValueTokens;
    if entries.NoEntries? {
      var q := if entries.comma then Skip(p) else p;
      assert Back(Unmarked(q), rest) == Back(Unmarked(p), rest);
      ClosedGoes(q, rest, MappingEnd, es, z);
    } else {
      var more := entries.rest;
      var after := EntryTokens(more, false, [EndFlowMapping] + rest);
      EntriesHead(more, [EndFlowMapping] + rest);
      var later := EntryEvents(more, p.tags, true, [Inside(MappingEnd)] + es);
      var q := p.(tokens := after, state := FlowMappingKey);
      assert Back(Unmarked(q), rest) == Back(Unmarked(p), rest);
      MappingEntriesParse(more, false, q, rest, es, z);
      hide EntryTokens, EntryEvents, FlowMappingKeyStep;
      MappingEntryParses(entries, first, p, after, later, z);
    }
  }

  lemma {:induction false} MappingEntryParses(e: Entries, first: bool, p: Parser, after: seq<Token>, later: seq<Parsed>, z: Parser)
    requires (e.Plain? || e.Keyed?) && ProperEntries(e, p.tags, true) && !p.ended
    requires after != [] && (after[0].Comma? || after[0].EndFlowMapping?)
    requires p.tokens == CommaThen(!first, if e.Plain? then TokensThen(e.node, after)
                                   else [Key] + TokensThen(e.key, ValueTokens(e.hasValue, e.value, after)))
    requires var q := p.(tokens := after, state := FlowMappingKey); Goes(FlowMappingKeyStep(q, false), later, z)
    ensures Goes(FlowMappingKeyStep(p, first), if e.Plain? then EventsThen(e.node, p.tags, [Inside(EMPTY_SCALAR)] + later) else
      EventsThen(e.key, p.tags, EventsThen(e.value, p.tags, later)), z)
    decreases e, 1
  {
    hide Parses, Goes, NodeStep, EventsThen, Closed, FullTag, FlowMappingKeyStep;
    var q := p.(tokens := after, state := FlowMappingKey);
    GoesParses(q, later, z);
    if e.Plain? {
      LoneKeyParses(e.node, first, p, after, later, z);
    } else {
      hide TokensThen, ValueTokens, Proper;
      KeyedParses(e, first, p, after, later, z);
    }
  }

  lemma {:induction false} LoneKeyParses(t: Tree, first: bool, p: Parser, after: seq<Token>, later: seq<Parsed>, z: Parser)
    requires !t.Empty? && Proper(t, p.tags, false, false) && !p.ended
    requires after != [] && (after[0].Comma? || after[0].EndFlowMapping?)
    requires p.tokens == CommaThen(!first, TokensThen(t, after))
    requires Parses(p.(tokens := after, state := FlowMappingKey), later, z)
    ensures Goes(FlowMappingKeyStep(p, first), EventsThen(t, p.tags, [Inside(EMPTY_SCALAR)] + later), z)
    decreases t, 3
  {
    hide Parses, Goes, NodeStep, EventsThen, Closed, FullTag;
    var s := if first then p else Skip(p);
    var e := p.(tokens := after, state := FlowMappingEmpty);
    var more := [Inside(EMPTY_SCALAR)] + later;
    GoesOne(p.(tokens := after, state := FlowMappingKey), Inside(EMPTY_SCALAR), later, z);
    GoesParses(e, more, z);
    NodeHead(t, after);
    PushedBack(s, FlowMappingEmpty, after);
    EntryStands(t, p.tags, false);
    hide TokensThen, Proper;
    NodeParses(t, Push(s, FlowMappingEmpty), after, false, false, more, z);
  }

  lemma {:induction false} KeyedParses(pair: Entries, first: bool, p: Parser, after: seq<Token>, later: seq<Parsed>, z: Parser)
    requires pair.Keyed? && ProperEntries(pair, p.tags, true) && !p.ended
    requires after != [] && (after[0].Comma? || after[0].EndFlowMapping?)
    requires p.tokens == CommaThen(!first, [Key] + TokensThen(pair.key, ValueTokens(pair.hasValue, pair.value, after)))
    requires Parses(p.(tokens := after, state := FlowMappingKey), later, z)
    ensures Goes(FlowMappingKeyStep(p, first), EventsThen(pair.key, p.tags, EventsThen(pair.value, p.tags, later)), z)
    decreases pair, 0
  {
    hide Parses, Goes, NodeStep, Closed, FullTag;
    var k, h, v := pair.key, pair.hasValue, pair.value;
    var held := ValueTokens(h, v, after);
    var q := p.(tokens := held, state := FlowMappingValue);
    StepFlowValue(h, v, q, after, later, z);
    assert held != [] && (held[0].Value? || held[0].Comma? || held[0].EndFlowMapping?);
    hide FlowMappingValueStep, ValueTokens, FlowMappingKeyStep;
    GoesParses(q, EventsThen(v, p.tags, later), z);
    StepFlowKey(k, first, p, held, EventsThen(v, p.tags, later), z);
  }

  lemma {:induction false} StepFlowKey(k: Tree, first: bool, p: Parser, held: seq<Token>, later: seq<Parsed>, z: Parser)
    requires Proper(k, p.tags, false, false) && !p.ended && p.tokens == CommaThen(!first, [Key] + TokensThen(k, held))
    requires held != [] && (held[0].Value? || held[0].Comma? || held[0].EndFlowMapping?)
    requires Parses(p.(tokens := held, state := FlowMappingValue), later, z)
    ensures Goes(FlowMappingKeyStep(p, first), EventsThen(k, p.tags, later), z)
    decreases k, 3
  {
    hide Parses, Goes, NodeStep, FlowMappingKeyStep;
    var q := p.(tokens := TokensThen(k, held));
    if k.Empty? {
      FlowKeyStep(p, first, held);
      GoesOne(p.(tokens := held, state := FlowMappingValue), Inside(EMPTY_SCALAR), later, z);
    } else {
      NodeHead(k, held);
      EntryStands(k, p.tags, false);
      hide TokensThen, EventsThen, Proper;
      FlowKeyStep(p, first, q.tokens);
      PushedBack(q, FlowMappingValue, held);
      NodeParses(k, Push(q, FlowMappingValue), held, false, false, later, z);
    }
  }

  /** At a key in a flow mapping: its node, if there is one. */
  lemma FlowKeyStep(p: Parser, first: bool, rest: seq<Token>)
    requires p.tokens == CommaThen(!first, [Key] + rest) && !p.ended && rest != []
    ensures var q := p.(tokens := rest);
      FlowMappingKeyStep(p, first) ==
        if rest[0].Value? || rest[0].Comma? || rest[0].EndFlowMapping? then Emit(q.(state := FlowMappingValue), Inside(EMPTY_SCALAR))
        else NodeStep(Push(q, FlowMappingValue), false, false)
  {
    hide NodeStep, Closed;
    assert p.(ended := false) == p;
  }

  lemma {:induction false} StepFlowValue(h: bool, v: Tree, p: Parser, after: seq<Token>, later: seq<Parsed>, z: Parser)
    requires Proper(v, p.tags, false, false) && (h || v.Empty?) && !p.ended && p.tokens == ValueTokens(h, v, after)
    requires after != [] && (after[0].Comma? || after[0].EndFlowMapping?)
    requires Parses(p.(tokens := after, state := FlowMappingKey), later, z)
    ensures Goes(FlowMappingValueStep(p, false), EventsThen(v, p.tags, later), z)
    decreases v, 3
  {
    hide Parses, Goes, NodeStep;
    if !h {
      GoesOne(p.(state := FlowMappingKey), Inside(EMPTY_SCALAR), later, z);
    } else if v.Empty? {
      GoesOne(Skip(p).(state := FlowMappingKey), Inside(EMPTY_SCALAR), later, z);
    } else {
      NodeHead(v, after);
      PushedBack(Skip(p), FlowMappingKey, after);
      EntryStands(v, p.tags, false);
      hide TokensThen, EventsThen, Proper;
      NodeParses(v, Push(Skip(p), FlowMappingKey), after, false, false, later, z);
    }
  }

  // ----- documents and streams -----

  /** Documents with directives and an explicit start, and any number of ends. */
  datatype Docs = NoDocs | Doc(directives: seq<Token>, root: Tree, ends: nat, rest: Docs)

  /** A stream: a first document without an explicit start, if its root is not empty. */
  datatype Source = Source(first: Tree, ends: nat, docs: Docs)

  /** The tags a document's directives declare. */
  function TagsOf(ds: seq<Token>): seq<Directive> {
    if ds == [] then [] else (if ds[0].TagDirective? then [ds[0].directive] else []) + TagsOf(ds[1..])
  }

  function EndTokens(ends: nat, rest: seq<Token>): seq<Token> {
    if ends == 0 then rest else [EndDocument] + EndTokens(ends - 1, rest)
  }

  function DocTokens(d: Docs, beyond: seq<Token>): seq<Token> {
    match d
    case NoDocs => [EndStream] + beyond
    case Doc(ds, t, ends, more) => ds + ([StartDocument] + TokensThen(t, EndTokens(ends, DocTokens(more, beyond))))
  }

  function DocEvents(d: Docs): seq<Parsed> {
    match d
    case NoDocs => [StreamEnd]
    case Doc(ds, t, _, more) =>
      [Inside(DocumentStart)] + EventsThen(t, Default(TagsOf(ds)), [Inside(DocumentEnd)] + DocEvents(more))
  }

  /** Directives of which no handle is declared twice and at most one is a version, 1.1 or 1.2. */
  predicate Fresh(tags: seq<Directive>, ds: seq<Token>, versioned: bool)
    decreases |ds|
  {
    ds != [] ==>
      match ds[0]
      case VersionDirective(major, minor) => !versioned && major == 1 && minor in {1, 2} && Fresh(tags, ds[1..], true)
      case TagDirective(d) => Declared(tags, d.handle).None? && Fresh(tags + [d], ds[1..], versioned)
      case _ => false
  }

  predicate ProperDocs(d: Docs) {
    match d
    case NoDocs => true
    case Doc(ds, t, _, more) => Fresh([], ds, false) && Proper(t, Default(TagsOf(ds)), true, false) && ProperDocs(more)
  }

  predicate Starter(t: Token) {
    t.VersionDirective? || t.TagDirective? || t.StartDocument? || t.EndStream?
  }

  lemma DocsHead(d: Docs, beyond: seq<Token>)
    requires ProperDocs(d)
    ensures var ts := DocTokens(d, beyond); ts != [] && Starter(ts[0]) && (ts[0].EndStream? <==> d.NoDocs?)
  {
    if d.Doc? && d.directives == [] {
      assert DocTokens(d, beyond)[0] == StartDocument;
    }
  }

  lemma {:induction false} DirectivesParse(p: Parser, ds: seq<Token>, versioned: bool, rest: seq<Token>)
    requires p.tokens == ds + rest && !p.ended && Fresh(p.tags, ds, versioned)
    requires rest != [] && !rest[0].VersionDirective? && !rest[0].TagDirective?
    ensures Directives(p, versioned) == Directed(p.(tokens := rest, tags := Default(p.tags + TagsOf(ds))))
    decreases |ds|
  {
    hide Default, Directives, Declared;
    if ds == [] {
      assert p.tags + TagsOf(ds) == p.tags && ds + rest == rest;
      DirectivesEnd(p, versioned);
    } else {
      var t, more := ds[0], ds[1..] + rest;
      assert p.tokens == [t] + more;
      DirectivesStep(p, versioned, t, more);
      if t.TagDirective? {
        DirectivesParse(p.(tokens := more, tags := p.tags + [t.directive]), ds[1..], versioned, rest);
        assert p.tags + [t.directive] + TagsOf(ds[1..]) == p.tags + TagsOf(ds);
      } else {
        DirectivesParse(p.(tokens := more), ds[1..], true, rest);
        assert TagsOf(ds) == TagsOf(ds[1..]);
      }
    }
  }

  lemma DirectivesEnd(p: Parser, versioned: bool)
    requires p.tokens != [] && !p.tokens[0].VersionDirective? && !p.tokens[0].TagDirective?
    ensures Directives(p, versioned) == Directed(p.(tags := Default(p.tags)))
  {
    hide Default;
  }

  lemma DirectivesStep(p: Parser, versioned: bool, t: Token, more: seq<Token>)
    requires p.tokens == [t] + more && !p.ended
    ensures t.VersionDirective? && !versioned && t.major == 1 && t.minor in {1, 2} ==>
      Directives(p, versioned) == Directives(p.(tokens := more), true)
    ensures t.TagDirective? && Declared(p.tags, t.directive.handle).None? ==>
      Directives(p, versioned) == Directives(p.(tokens := more, tags := p.tags + [t.directive]), versioned)
  {
    hide Default, Declared;
    assert p.tokens[1..] == more;
  }

  /** Further ends of a document are skipped before the next. */
  lemma {:induction false} EndsSkipped(p: Parser, ends: nat, rest: seq<Token>)
    requires p.tokens == EndTokens(ends, rest) && !p.ended && rest != [] && !rest[0].EndDocument?
    ensures PastEnds(p) == p.(tokens := rest)
    decreases ends
  {
    if ends > 0 {
      EndsSkipped(Skip(p), ends - 1, rest);
    }
  }

  /** At the end of the stream, whatever comes beyond it. */
  function End(beyond: seq<Token>): Parser {
    Parser(beyond, AtEnd, [], [], [], true)
  }

  predicate Between(p: Parser) {
    (p.state.AtDocument? || p.state.AtImplicitDocument?) && p.states == [] && p.marks == [] && p.tags == [] && !p.ended
  }

  /** A document's end, however often it is marked. */
  lemma EndSteps(q: Parser, ends: nat, more: Docs, beyond: seq<Token>)
    requires ProperDocs(more) && q.tokens == EndTokens(ends, DocTokens(more, beyond)) && !q.ended
    requires q.state.AtDocumentEnd? && q.states == [] && q.marks == []
    requires Parses(Parser(DocTokens(more, beyond), AtDocument, [], [], [], false), DocEvents(more), End(beyond))
    ensures Parses(q, [Inside(DocumentEnd)] + DocEvents(more), End(beyond))
  {
    hide Parses, Goes, DocTokens;
    DocsHead(more, beyond);
    var z := Parser(DocTokens(more, beyond), AtDocument, [], [], [], false);
    var r := z.(tokens := EndTokens(if ends == 0 then 0 else ends - 1, DocTokens(more, beyond)));
    EndsSkipped(r, if ends == 0 then 0 else ends - 1, DocTokens(more, beyond));
    SameStep(r, z, DocEvents(more), End(beyond));
    GoesOne(r, Inside(DocumentEnd), DocEvents(more), End(beyond));
    GoesParses(q, [Inside(DocumentEnd)] + DocEvents(more), End(beyond));
  }

  lemma SameStep(r: Parser, z: Parser, es: seq<Parsed>, end: Parser)
    requires r.state.AtDocument? && z.state.AtDocument? && z == PastEnds(r) && PastEnds(z) == z
    requires es != [] && Parses(z, es, end)
    ensures Parses(r, es, end)
  {
    hide Goes, PastEnds, DocumentStartStep;
    StepsAlike(r, z);
  }

  lemma StepsAlike(r: Parser, z: Parser)
    requires r.state.AtDocument? && z.state.AtDocument? && z == PastEnds(r) && PastEnds(z) == z
    ensures Step(r) == Step(z)
  {
    hide PastEnds, Directives;
  }

  /** A document's root and end. */
  lemma RootParses(t: Tree, ends: nat, p: Parser, more: Docs, first: bool, beyond: seq<Token>)
    requires ProperDocs(more) && Proper(t, p.tags, true, false) && !p.ended && p.states == [AtDocumentEnd] && p.marks == []
    requires p.tokens == TokensThen(t, EndTokens(ends, DocTokens(more, beyond)))
    requires p.state == (if first then AtBlockNode else AtContent) && (first ==> !t.Empty?)
    requires Parses(Parser(DocTokens(more, beyond), AtDocument, [], [], [], false), DocEvents(more), End(beyond))
    ensures Parses(p, EventsThen(t, p.tags, [Inside(DocumentEnd)] + DocEvents(more)), End(beyond))
  {
    hide Parses, Goes, NodeStep, DocTokens, DocEvents;
    DocsHead(more, beyond);
    var after := EndTokens(ends, DocTokens(more, beyond));
    var es := [Inside(DocumentEnd)] + DocEvents(more);
    var q := Back(p, after);
    EndSteps(q, ends, more, beyond);
    if t.Empty? {
      GoesOne(q, Inside(EMPTY_SCALAR), es, End(beyond));
    } else {
      NodeHead(t, after);
      EntryStands(t, p.tags, true);
      hide TokensThen, EventsThen, Proper;
      NodeParses(t, p, after, true, false, es, End(beyond));
    }
    GoesParses(p, EventsThen(t, p.tags, es), End(beyond));
  }

  lemma EndParses(p: Parser, beyond: seq<Token>)
    requires Between(p) && p.tokens == [EndStream] + beyond
    ensures Parses(p, [StreamEnd], End(beyond))
  {
    hide Parses, Goes;
    ParsesNothing(End(beyond));
    ParsesOne(p, End(beyond), StreamEnd, [], [StreamEnd], End(beyond));
  }

  lemma {:induction false} DocsParse(d: Docs, p: Parser, beyond: seq<Token>)
    requires ProperDocs(d) && Between(p) && p.tokens == DocTokens(d, beyond)
    ensures Parses(p, DocEvents(d), End(beyond))
    decreases d
  {
    hide Parses, Goes, TokensThen, EventsThen, Proper, Default, Directives;
    DocsHead(d, beyond);
    match d
    case NoDocs =>
      EndParses(p, beyond);
    case Doc(ds, t, ends, more) =>
      DocsParse(more, Parser(DocTokens(more, beyond), AtDocument, [], [], [], false), beyond);
      var after := TokensThen(t, EndTokens(ends, DocTokens(more, beyond)));
      assert p.tags + TagsOf(ds) == TagsOf(ds);
      DirectivesParse(p, ds, false, [StartDocument] + after);
      var q := Parser(after, AtContent, [AtDocumentEnd], [], Default(TagsOf(ds)), false);
      RootParses(t, ends, q, more, false, beyond);
      var es := EventsThen(t, Default(TagsOf(ds)), [Inside(DocumentEnd)] + DocEvents(more));
      assert [] + [AtDocumentEnd] == [AtDocumentEnd];
      GoesOne(q, Inside(DocumentStart), es, End(beyond));
      GoesParses(p, [Inside(DocumentStart)] + es, End(beyond));
  }

  lemma ParsesNothing(p: Parser)
    ensures Parses(p, [], p)
  {
  }

  function SourceTokens(s: Source, beyond: seq<Token>): seq<Token> {
    var rest := DocTokens(s.docs, beyond);
    [StartStream] + if s.first.Empty? then rest else TokensThen(s.first, EndTokens(s.ends, rest))
  }

  function SourceEvents(s: Source): seq<Parsed> {
    var rest := DocEvents(s.docs);
    [StreamStart] + if s.first.Empty? then rest else
      [Inside(DocumentStart)] + EventsThen(s.first, Default([]), [Inside(DocumentEnd)] + rest)
  }

  predicate ProperSource(s: Source) {
    Proper(s.first, Default([]), true, false) && ProperDocs(s.docs)
  }

  lemma SourceParses(s: Source, beyond: seq<Token>)
    requires ProperSource(s)
    ensures Parses(Initial(SourceTokens(s, beyond)), SourceEvents(s), End(beyond))
  {
    hide Parses, Goes, DocTokens, DocEvents, Default, Proper, EventsThen, DocumentStartStep;
    var p := Initial(SourceTokens(s, beyond));
    var rest := p.tokens[1..];
    var q := p.(tokens := rest, state := AtImplicitDocument);
    if s.first.Empty? {
      DocsParse(s.docs, q, beyond);
    } else {
      DocsParse(s.docs, Parser(DocTokens(s.docs, beyond), AtDocument, [], [], [], false), beyond);
      FirstDocument(s, q, beyond);
    }
    GoesOne(q, StreamStart, SourceEvents(s)[1..], End(beyond));
    GoesParses(p, SourceEvents(s), End(beyond));
  }

  lemma FirstDocument(s: Source, p: Parser, beyond: seq<Token>)
    requires ProperDocs(s.docs) && !s.first.Empty? && Proper(s.first, Default([]), true, false) && Between(p) && p.state.AtImplicitDocument?
    requires p.tokens == TokensThen(s.first, EndTokens(s.ends, DocTokens(s.docs, beyond)))
    requires Parses(Parser(DocTokens(s.docs, beyond), AtDocument, [], [], [], false), DocEvents(s.docs), End(beyond))
    ensures Parses(p, SourceEvents(s)[1..], End(beyond))
  {
    hide Parses, Goes, DocTokens, DocEvents, Default;
    var after := EndTokens(s.ends, DocTokens(s.docs, beyond));
    NodeHead(s.first, after);
    EntryStands(s.first, Default([]), true);
    hide Proper, EventsThen, TokensThen;
    var q := p.(state := AtBlockNode, states := [AtDocumentEnd], tags := Default([]));
    assert [] + [AtDocumentEnd] == q.states;
    RootParses(s.first, s.ends, q, s.docs, true, beyond);
    var es := EventsThen(s.first, Default([]), [Inside(DocumentEnd)] + DocEvents(s.docs));
    GoesOne(q, Inside(DocumentStart), es, End(beyond));
    GoesParses(p, [Inside(DocumentStart)] + es, End(beyond));
  }

  lemma {:induction false} ParsesRun(p: Parser, es: seq<Parsed>, z: Parser)
    requires Sound(p) && Parses(p, es, z) && z.state.AtEnd?
    ensures Run(p) == Whole(es, None)
    decreases |es|
  {
    hide Sound, Step;
    if es != [] {
      var r := Step(p);
      if p.state.AtEnd? {
        StepAtEnd(p);
      } else {
        StepGood(p);
        ParsesRun(r.next, es[1..], z);
        assert [es[0]] + es[1..] == es;
      }
    }
  }

  lemma StepAtEnd(p: Parser)
    requires p.state.AtEnd?
    ensures Step(p).Fail?
  {
  }

  /** Every derivation of a stream is parsed to just its events, whatever comes beyond it. */
  lemma GrammarIsParsed(s: Source, beyond: seq<Token>)
    requires ProperSource(s)
    ensures Run(Initial(SourceTokens(s, beyond))) == Whole(SourceEvents(s), None)
  {
    hide Parses, SourceTokens, SourceEvents, ProperSource, Step;
    SourceParses(s, beyond);
    ParsesRun(Initial(SourceTokens(s, beyond)), SourceEvents(s), End(beyond));
  }

  // ----- where the code and the grammar in its comments part -----

  /** The grammar has a value without a key in a block mapping; the parser refuses it, in
      the first pair and in any other. */
  lemma ValueWithoutKeyRefused(p: Parser, rest: seq<Token>)
    requires (p.state.BlockMappingKey? && p.tokens == [Value] + rest && p.marks != [])
             || (p.state.BlockMappingFirst? && p.tokens == [StartBlockMapping] + ([Value] + rest))
    ensures Step(p) == Fail(Syntax)
  {
  }

  /** A pair with an empty key in a flow sequence, where the grammar has the rest of the
      sequence behind it: just when its value is given and empty, or is not given and only
      a last comma comes after it, does the parser give the grammar's events and stop
      right after the sequence. */
  lemma EmptyKeyExactly(h: bool, v: Tree, more: Entries, p: Parser, rest: seq<Token>)
    requires p.state.PairKey? && !p.ended && p.states != [] && p.marks != [] && Follows(rest, false)
    requires Proper(v, p.tags, false, false) && (h || v.Empty?) && ProperEntries(more, p.tags, false)
    requires p.tokens == ValueTokens(h, v, EntryTokens(more, false, [EndFlowSequence] + rest))
    ensures Parses(p, PairTail(v, more, p.tags), Back(Unmarked(p), rest)) <==> EmptyKeyStands(h, v, more)
  {
    hide Parses, Step;
    if EmptyKeyStands(h, v, more) {
      EmptyKeyParses(h, v, more, p, rest);
    } else if h {
      hide EntryTokens, Proper, ProperEntries, EntryEvents;
      EmptyKeyLosesValue(p, v, EntryTokens(more, false, [EndFlowSequence] + rest), more, Back(Unmarked(p), rest));
    } else if more.NoEntries? {
      EmptyKeyLosesEnd(p, rest, Back(Unmarked(p), rest));
    } else {
      EmptyKeyLosesComma(p, more, [EndFlowSequence] + rest, Back(Unmarked(p), rest));
    }
  }

  /** The events of the grammar from an empty key to the end of the sequence. */
  function PairTail(v: Tree, more: Entries, tags: seq<Directive>): seq<Parsed> {
    [Inside(EMPTY_SCALAR)] + EventsThen(v, tags, [Inside(MappingEnd)] + EntryEvents(more, tags, false, [Inside(SequenceEnd)]))
  }

  lemma EmptyKeyParses(h: bool, v: Tree, more: Entries, p: Parser, rest: seq<Token>)
    requires p.state.PairKey? && !p.ended && p.states != [] && p.marks != [] && EmptyKeyStands(h, v, more)
    requires v.Empty? && ProperEntries(more, p.tags, false)
    requires p.tokens == ValueTokens(h, v, EntryTokens(more, false, [EndFlowSequence] + rest))
    ensures Parses(p, PairTail(v, more, p.tags), Back(Unmarked(p), rest))
  {
    hide Parses, Goes, Step, FlowSequenceStep;
    var z, none: seq<Parsed> := Back(Unmarked(p), rest), [];
    ParsesNothing(z);
    assert [Inside(SequenceEnd)] + none == [Inside(SequenceEnd)];
    if h {
      var after := EntryTokens(more, false, [EndFlowSequence] + rest);
      EntriesHead(more, [EndFlowSequence] + rest);
      var q := p.(tokens := after, state := FlowSequenceEntry);
      var later := EntryEvents(more, p.tags, false, [Inside(SequenceEnd)]);
      hide ProperEntries, EntryTokens, EntryEvents;
      assert Back(Unmarked(q), rest) == z;
      SequenceEntriesParse(more, false, q, rest, none, z);
      StepsAtEntry(q, later, z);
      PairOnly(more, p.tags);
      PairParses(Keyed(Empty, true, Empty, more), p, after, later, z);
    } else {
      TrailingPairParses(p, rest, none, z);
    }
  }

  lemma StepsAtEntry(q: Parser, es: seq<Parsed>, z: Parser)
    requires q.state.FlowSequenceEntry? && Goes(FlowSequenceStep(q, false), es, z)
    ensures Parses(q, es, z)
  {
    hide Parses, Goes, FlowSequenceStep;
    GoesParses(q, es, z);
  }

  lemma PairOnly(more: Entries, tags: seq<Directive>)
    requires ProperEntries(more, tags, false)
    ensures ProperEntries(Keyed(Empty, true, Empty, more), tags, false)
  {
  }

  /** A machine that stops after three events gives no four. */
  lemma NotFour(p: Parser, t: Token, rest: seq<Token>, es: seq<Parsed>, z: Parser)
    requires p.state.PairKey? && !p.ended && p.marks != [] && p.tokens == [t] + rest && (t.Value? || t.Comma? || t.EndFlowSequence?)
    requires rest != [] && !rest[0].Value? && !rest[0].Comma? && !rest[0].EndFlowSequence? && |es| >= 4
    ensures !Parses(p, es, z) && Step(p.(tokens := rest, state := FlowSequenceEntry)) == Fail(Syntax)
  {
    SkipSteps(p, t, rest);
    var q := p.(tokens := rest);
    StopsAt(q.(state := FlowSequenceEntry));
    hide Step, Parses;
    if Parses(p, es, z) {
      ParsesNext(p, es, z);
      ParsesNext(q.(state := PairValue), es[1..], z);
      ParsesNext(q.(state := PairEnd), es[1..][1..], z);
      ParsesNext(q.(state := FlowSequenceEntry), es[1..][1..][1..], z);
    }
  }

  lemma StopsAt(q: Parser)
    requires q.state.FlowSequenceEntry? && q.marks != [] && q.tokens != [] && !q.tokens[0].Comma? && !q.tokens[0].EndFlowSequence?
    ensures Step(q) == Fail(Syntax)
  {
    hide NodeStep, Closed;
  }

  /** Every derivation has an event. */
  lemma SomeEvents(v: Tree, tags: seq<Directive>, es: seq<Parsed>)
    ensures |EventsThen(v, tags, es)| >= 1 + |es|
  {
    match v
    case BlockSeq(_, items) => ItemsEvents(items, tags, [Inside(SequenceEnd)] + es);
    case Indentless(_, items) => ItemsEvents(items, tags, [Inside(SequenceEnd)] + es);
    case BlockMap(_, pairs) => PairsEvents(pairs, tags, [Inside(MappingEnd)] + es);
    case FlowSeq(_, entries) => EntriesEvents(entries, tags, false, [Inside(SequenceEnd)] + es);
    case FlowMap(_, entries) => EntriesEvents(entries, tags, true, [Inside(MappingEnd)] + es);
    case _ =>
  }

  lemma ItemsEvents(items: Items, tags: seq<Directive>, es: seq<Parsed>)
    ensures |ItemEvents(items, tags, es)| >= |es|
  {
    if items.Item? {
      ItemsEvents(items.rest, tags, es);
      SomeEvents(items.node, tags, ItemEvents(items.rest, tags, es));
    }
  }

  lemma PairsEvents(pairs: Pairs, tags: seq<Directive>, es: seq<Parsed>)
    ensures |PairEvents(pairs, tags, es)| >= |es|
  {
    if pairs.Pair? {
      var later := PairEvents(pairs.rest, tags, es);
      PairsEvents(pairs.rest, tags, es);
      SomeEvents(pairs.value, tags, later);
      SomeEvents(pairs.key, tags, EventsThen(pairs.value, tags, later));
    }
  }

  lemma EntriesEvents(entries: Entries, tags: seq<Directive>, mapping: bool, es: seq<Parsed>)
    ensures |EntryEvents(entries, tags, mapping, es)| >= |es|
  {
    if !entries.NoEntries? {
      var later := EntryEvents(entries.rest, tags, mapping, es);
      EntriesEvents(entries.rest, tags, mapping, es);
      if entries.Plain? {
        SomeEvents(entries.node, tags, if mapping then [Inside(EMPTY_SCALAR)] + later else later);
      } else if entries.Odd? {
        SomeEvents(entries.value, tags, [Inside(MappingEnd)] + later);
      } else {
        var tail := if mapping then later else [Inside(MappingEnd)] + later;
        SomeEvents(entries.value, tags, tail);
        SomeEvents(entries.key, tags, EventsThen(entries.value, tags, tail));
      }
    }
  }

  lemma LongTail(v: Tree, more: Entries, tags: seq<Directive>)
    ensures |PairTail(v, more, tags)| >= 4
  {
    EntriesEvents(more, tags, false, [Inside(SequenceEnd)]);
    SomeEvents(v, tags, [Inside(MappingEnd)] + EntryEvents(more, tags, false, [Inside(SequenceEnd)]));
  }

  /** A value that is not empty is lost: the parser stops in front of it. */
  lemma EmptyKeyLosesValue(p: Parser, v: Tree, after: seq<Token>, more: Entries, z: Parser)
    requires p.state.PairKey? && p.tokens == [Value] + TokensThen(v, after) && !p.ended && p.marks != []
    requires Proper(v, p.tags, false, false) && !v.Empty?
    ensures !Parses(p, PairTail(v, more, p.tags), z)
    ensures Step(p.(tokens := TokensThen(v, after), state := FlowSequenceEntry)) == Fail(Syntax)
  {
    NodeHead(v, after);
    EntryStands(v, p.tags, false);
    hide TokensThen, Proper, Parses, Step, PairTail;
    LongTail(v, more, p.tags);
    NotFour(p, Value, TokensThen(v, after), PairTail(v, more, p.tags), z);
  }

  /** So is the comma before another entry. */
  lemma EmptyKeyLosesComma(p: Parser, more: Entries, rest: seq<Token>, z: Parser)
    requires p.state.PairKey? && p.tokens == EntryTokens(more, false, rest) && !p.ended && p.marks != []
    requires !more.NoEntries? && ProperEntries(more, p.tags, false)
    ensures !Parses(p, PairTail(Empty, more, p.tags), z)
  {
    hide TokensThen, Proper, Parses, Step, PairTail, ProperEntries;
    var ts := p.tokens[1..];
    EntryHead(more, p.tags, rest);
    assert p.tokens == [Comma] + ts;
    LongTail(Empty, more, p.tags);
    NotFour(p, Comma, ts, PairTail(Empty, more, p.tags), z);
  }

  lemma EntryHead(more: Entries, tags: seq<Directive>, rest: seq<Token>)
    requires !more.NoEntries? && ProperEntries(more, tags, false)
    ensures var ts := EntryTokens(more, false, rest);
      ts != [] && ts[0].Comma? && ts[1..] != [] && (Opener(ts[1]) || ts[1].Key?)
  {
    if more.Plain? {
      NodeHead(more.node, EntryTokens(more.rest, false, rest));
      EntryStands(more.node, tags, false);
    }
  }

  /** And so is the bracket: whatever comes after, the sequence is not over where it ends. */
  lemma EmptyKeyLosesEnd(p: Parser, rest: seq<Token>, z: Parser)
    requires p.state.PairKey? && p.tokens == [EndFlowSequence] + rest && !p.ended && z.tokens == rest
    ensures !Parses(p, PairTail(Empty, NoEntries(false), p.tags), z)
  {
    var es := PairTail(Empty, NoEntries(false), p.tags);
    assert es == [Inside(EMPTY_SCALAR), Inside(EMPTY_SCALAR), Inside(MappingEnd), Inside(SequenceEnd)];
    hide PairTail, Step, Parses;
    if Parses(p, es, z) {
      FirstSkips(p, rest);
      ParsesNext(p, es, z);
      var q1 := Step(p).next;
      ParsesNext(q1, es[1..], z);
      EmptyValueOf(q1);
      var q2 := Step(q1).next;
      ParsesNext(q2, es[2..], z);
      EndOf(q2);
      assert es[2..][1..] == [Inside(SequenceEnd)];
      LastTakes(Step(q2).next, z);
    }
  }

  lemma LastTakes(q: Parser, z: Parser)
    requires q.state.FlowSequenceEntry? && Parses(q, [Inside(SequenceEnd)], z)
    ensures |z.tokens| < |q.tokens|
  {
    hide Parses, Step;
    ParsesNext(q, [Inside(SequenceEnd)], z);
    assert [Inside(SequenceEnd)][1..] == [];
    ParsesNothingMore(Step(q).next, z);
    EndTakes(q);
  }

  lemma ParsesNext(p: Parser, es: seq<Parsed>, z: Parser)
    requires es != [] && Parses(p, es, z)
    ensures Step(p).Emit? && Step(p).event == es[0] && Parses(Step(p).next, es[1..], z)
  {
    hide Step;
  }

  lemma ParsesNothingMore(p: Parser, z: Parser)
    requires Parses(p, [], z)
    ensures p == z
  {
  }

  lemma FirstSkips(p: Parser, rest: seq<Token>)
    requires p.state.PairKey? && p.tokens == [EndFlowSequence] + rest && !p.ended
    ensures Step(p) == Emit(p.(tokens := rest, state := PairValue), Inside(EMPTY_SCALAR))
  {
    hide NodeStep;
  }

  lemma EmptyValueOf(q: Parser)
    requires q.state.PairValue? && Step(q).Emit? && Step(q).event == Inside(EMPTY_SCALAR)
    ensures var r := Step(q).next; r.state.PairEnd? && |r.tokens| <= |q.tokens|
  {
    hide FullTag, NodeStep;
    if q.tokens[0].Value? { EmptyNode(Push(Skip(q), PairEnd)); }
  }

  lemma EmptyNode(q: Parser)
    requires q.states != []
    ensures var r := NodeStep(q, false, false);
      r.Emit? && r.event == Inside(EMPTY_SCALAR) ==> r.next.state == q.states[|q.states| - 1] && |r.next.tokens| <= |q.tokens|
  {
    hide FullTag;
  }

  lemma EndOf(q: Parser)
    requires q.state.PairEnd? && Step(q).Emit?
    ensures Step(q).next == q.(state := FlowSequenceEntry)
  {
  }

  lemma EndTakes(q: Parser)
    requires q.state.FlowSequenceEntry? && Step(q).Emit? && Step(q).event == Inside(SequenceEnd)
    ensures |Step(q).next.tokens| < |q.tokens|
  {
    hide FullTag, NodeStep;
    var c := PastComma(q, false);
    if c.Some? { NoEndFromNode(Push(c.value, FlowSequenceEntry)); }
  }

  lemma NoEndFromNode(q: Parser)
    ensures NodeStep(q, false, false).Emit? ==> NodeStep(q, false, false).event != Inside(SequenceEnd)
  {
    hide FullTag, Propertied;
  }

  lemma ParsesOne(p: Parser, q: Parser, e: Parsed, es: seq<Parsed>, all: seq<Parsed>, z: Parser)
    requires Step(p) == Emit(q, e) && Parses(q, es, z) && all == [e] + es
    ensures Parses(p, all, z)
  {
    hide Step, Parses, Goes;
    GoesOne(q, e, es, z);
    GoesParses(p, all, z);
  }
}
