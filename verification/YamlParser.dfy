/** From tokens to events: the parser's state machine, one event a step. */
module YamlParser {
  import opened Options
  import opened YamlDumper

  datatype Token =
    | StartStream | EndStream
    | VersionDirective(major: int, minor: int) | TagDirective(directive: Directive)
    | StartDocument | EndDocument
    | StartBlockSequence | StartBlockMapping | EndBlock
    | StartFlowSequence | EndFlowSequence | StartFlowMapping | EndFlowMapping
    | Dash | Comma | Key | Value
    | AliasToken(name: string) | Anchor(name: string) | Tag(handle: string, suffix: string)
    | Text(text: string, plain: bool)

  datatype Directive = Directive(handle: string, prefix: string)

  datatype State =
    | AtStreamStart | AtImplicitDocument | AtDocument | AtContent | AtDocumentEnd
    | AtBlockNode | AtBlockNodeOrIndentless | AtFlowNode
    | BlockSequenceFirst | BlockSequenceEntry | IndentlessEntry
    | BlockMappingFirst | BlockMappingKey | BlockMappingValue
    | FlowSequenceFirst | FlowSequenceEntry | PairKey | PairValue | PairEnd
    | FlowMappingFirst | FlowMappingKey | FlowMappingValue | FlowMappingEmpty
    | AtEnd

  /** The tokens not read yet, the states to come back to, the marks of the open
      collections (here, how many tokens were left), and the document's tag directives. */
  datatype Parser = Parser(tokens: seq<Token>, state: State, states: seq<State>, marks: seq<nat>,
                           tags: seq<Directive>, ended: bool)

  datatype Parsed = StreamStart | StreamEnd | Inside(event: Event)

  /** NoToken: the scanner failed. Broken: an empty stack is popped or a missing token read. */
  datatype Failure = NoToken | Syntax | Broken

  datatype Result = Emit(next: Parser, event: Parsed) | Fail(why: Failure)

  // ----- moves on the parser's fields -----

  function Skip(p: Parser): Parser
    requires p.tokens != []
  {
    p.(tokens := p.tokens[1..], ended := p.tokens[0].EndStream?)
  }

  function Push(p: Parser, s: State): Parser {
    p.(states := p.states + [s])
  }

  /** Back to the state last pushed, with an event. */
  function Popped(p: Parser, e: Event): Result {
    if p.states == [] then Fail(Broken) else
      Emit(p.(state := p.states[|p.states| - 1], states := p.states[..|p.states| - 1]), Inside(e))
  }

  /** Past the first token of a collection, whose mark is kept. */
  function Begun(p: Parser): Parser
    requires p.tokens != []
  {
    Skip(p.(marks := p.marks + [|p.tokens|]))
  }

  /** Past the last token of a collection. */
  function Closed(p: Parser, e: Event): Result
    requires p.tokens != []
  {
    if p.marks == [] then Fail(Broken) else Popped(Skip(p).(marks := p.marks[..|p.marks| - 1]), e)
  }

  function Complain(p: Parser): Result {
    if p.marks == [] then Fail(Broken) else Fail(Syntax)
  }

  const EMPTY_SCALAR: Event := ScalarEvent(None, None, "", true)

  function Missing(p: Parser, s: State): Result {
    Emit(p.(state := s), Inside(EMPTY_SCALAR))
  }

  // ----- directives -----

  function Declared(tags: seq<Directive>, handle: string): Option<string> {
    if tags == [] then None
    else if tags[0].handle == handle then Some(tags[0].prefix)
    else Declared(tags[1..], handle)
  }

  /** A repeated handle is an error, unless duplicates are allowed: then the first counts. */
  function Append(tags: seq<Directive>, d: Directive, duplicates: bool): Option<seq<Directive>> {
    if Declared(tags, d.handle).None? then Some(tags + [d]) else if duplicates then Some(tags) else None
  }

  function Default(tags: seq<Directive>): seq<Directive> {
    var one := Append(tags, Directive("!", "!"), true);
    if one.None? then tags else
      var two := Append(one.value, Directive("!!", "tag:yaml.org,2002:"), true);
      if two.None? then tags else two.value
  }

  datatype Directed = Directed(next: Parser) | Misdirected(why: Failure)

  function Directives(p: Parser, versioned: bool): Directed
    decreases |p.tokens|
  {
    if p.tokens == [] then Misdirected(NoToken) else
      match p.tokens[0]
      case VersionDirective(major, minor) =>
        if versioned || major != 1 || (minor != 1 && minor != 2) then Misdirected(Syntax) else Directives(Skip(p), true)
      case TagDirective(d) =>
        var tags := Append(p.tags, d, false);
        if tags.None? then Misdirected(Syntax) else Directives(Skip(p.(tags := tags.value)), versioned)
      case _ => Directed(p.(tags := Default(p.tags)))
  }

  // ----- nodes -----

  /** An anchor and a tag, in either order, before a node. */
  datatype Properties = Properties(anchor: Option<string>, handle: Option<string>, suffix: string)

  function Propertied(p: Parser): Option<(Parser, Properties)>
    requires p.tokens != []
  {
    match p.tokens[0]
    case Anchor(a) =>
      var q := Skip(p);
      if q.tokens == [] then None
      else if !q.tokens[0].Tag? then Some((q, Properties(Some(a), None, "")))
      else if |q.tokens| == 1 then None
      else Some((Skip(q), Properties(Some(a), Some(q.tokens[0].handle), q.tokens[0].suffix)))
    case Tag(handle, suffix) =>
      var q := Skip(p);
      if q.tokens == [] then None
      else if !q.tokens[0].Anchor? then Some((q, Properties(None, Some(handle), suffix)))
      else if |q.tokens| == 1 then None
      else Some((Skip(q), Properties(Some(q.tokens[0].name), Some(handle), suffix)))
    case _ => Some((p, Properties(None, None, "")))
  }

  /** The full tag, unless the handle is not declared. */
  function FullTag(tags: seq<Directive>, r: Properties): Option<Option<string>> {
    if r.handle.None? then Some(None)
    else if r.handle.value == "" then Some(Some(r.suffix))
    else
      var prefix := Declared(tags, r.handle.value);
      if prefix.None? then None else Some(Some(prefix.value + r.suffix))
  }

  function ContentStep(p: Parser, anchor: Option<string>, tag: Option<string>, block: bool, indentless: bool): Result
    requires p.tokens != []
  {
    var t, none := p.tokens[0], tag.None? || tag.value == "";
    if indentless && t.Dash? then Emit(p.(state := IndentlessEntry), Inside(SequenceStart(anchor, tag, none)))
    else if t.Text? then
      Popped(Skip(p), ScalarEvent(anchor, tag, t.text, (t.plain && tag.None?) || tag == Some("!")))
    else if t.StartFlowSequence? then Emit(p.(state := FlowSequenceFirst), Inside(SequenceStart(anchor, tag, none)))
    else if t.StartFlowMapping? then Emit(p.(state := FlowMappingFirst), Inside(MappingStart(anchor, tag, none)))
    else if block && t.StartBlockSequence? then Emit(p.(state := BlockSequenceFirst), Inside(SequenceStart(anchor, tag, none)))
    else if block && t.StartBlockMapping? then Emit(p.(state := BlockMappingFirst), Inside(MappingStart(anchor, tag, none)))
    else if anchor.Some? || tag.Some? then Popped(p, ScalarEvent(anchor, tag, "", none))
    else Fail(Syntax)
  }

  function NodeStep(p: Parser, block: bool, indentless: bool): Result {
    if p.tokens == [] then Fail(NoToken)
    else if p.tokens[0].AliasToken? then Popped(Skip(p), Alias(Some(p.tokens[0].name)))
    else
      var q := Propertied(p);
      if q.None? then Fail(NoToken) else
        var tag := FullTag(p.tags, q.value.1);
        if tag.None? then Fail(Syntax) else ContentStep(q.value.0, q.value.1.anchor, tag.value, block, indentless)
  }

  // ----- documents -----

  function StreamStartStep(p: Parser): Result {
    if p.tokens == [] then Fail(NoToken)
    else if !p.tokens[0].StartStream? then Fail(Syntax)
    else Emit(Skip(p).(state := AtImplicitDocument), StreamStart)
  }

  function PastEnds(p: Parser): Parser
    decreases |p.tokens|
  {
    if p.tokens != [] && p.tokens[0].EndDocument? then PastEnds(Skip(p)) else p
  }

  function DocumentStartStep(p0: Parser, isImplicit: bool): Result {
    var p := if isImplicit then p0 else PastEnds(p0);
    if p.tokens == [] then Fail(NoToken) else
      var t := p.tokens[0];
      if isImplicit && !t.VersionDirective? && !t.TagDirective? && !t.StartDocument? && !t.EndStream? then
        var d := Directives(p, false);
        if d.Misdirected? then Fail(d.why) else
          Emit(Push(d.next, AtDocumentEnd).(state := AtBlockNode), Inside(DocumentStart))
      else if !t.EndStream? then
        var d := Directives(p, false);
        if d.Misdirected? then Fail(d.why)
        else if d.next.tokens == [] then Fail(NoToken)
        else if !d.next.tokens[0].StartDocument? then Fail(Syntax)
        else Emit(Skip(Push(d.next, AtDocumentEnd)).(state := AtContent), Inside(DocumentStart))
      else Emit(Skip(p).(state := AtEnd), StreamEnd)
  }

  function ContentOrNot(p: Parser): Result {
    if p.tokens == [] then Fail(NoToken) else
      var t := p.tokens[0];
      if t.VersionDirective? || t.TagDirective? || t.StartDocument? || t.EndDocument? || t.EndStream? then
        Popped(p, EMPTY_SCALAR)
      else NodeStep(p, true, false)
  }

  function DocumentEndStep(p: Parser): Result {
    if p.tokens == [] then Fail(NoToken) else
      var q := if p.tokens[0].EndDocument? then Skip(p) else p;
      Emit(q.(tags := [], state := AtDocument), Inside(DocumentEnd))
  }

  // ----- block collections -----

  function BlockSequenceStep(p: Parser): Result {
    if p.tokens == [] then Fail(NoToken)
    else if p.tokens[0].Dash? then
      var q := Skip(p);
      if q.tokens == [] then Fail(NoToken)
      else if !q.tokens[0].Dash? && !q.tokens[0].EndBlock? then NodeStep(Push(q, BlockSequenceEntry), true, false)
      else Missing(q, BlockSequenceEntry)
    else if p.tokens[0].EndBlock? then Closed(p, SequenceEnd)
    else Complain(p)
  }

  function IndentlessStep(p: Parser): Result {
    if p.tokens == [] then Fail(NoToken)
    else if p.tokens[0].Dash? then
      var q := Skip(p);
      if q.tokens == [] then Fail(NoToken) else
        var t := q.tokens[0];
        if !t.Dash? && !t.Key? && !t.Value? && !t.EndBlock? then NodeStep(Push(q, IndentlessEntry), true, false)
        else Missing(q, IndentlessEntry)
    else Popped(p, SequenceEnd)
  }

  function BlockMappingKeyStep(p: Parser): Result {
    if p.tokens == [] then Fail(NoToken)
    else if p.tokens[0].Key? then
      var q := Skip(p);
      if q.tokens == [] then Fail(NoToken) else
        var t := q.tokens[0];
        if !t.Key? && !t.Value? && !t.EndBlock? then NodeStep(Push(q, BlockMappingValue), true, true)
        else Missing(q, BlockMappingValue)
    else if p.tokens[0].EndBlock? then Closed(p, MappingEnd)
    else Complain(p)
  }

  function BlockMappingValueStep(p: Parser): Result {
    if p.tokens == [] then Fail(NoToken)
    else if p.tokens[0].Value? then
      var q := Skip(p);
      if q.tokens == [] then Fail(NoToken) else
        var t := q.tokens[0];
        if !t.Key? && !t.Value? && !t.EndBlock? then NodeStep(Push(q, BlockMappingKey), true, true)
        else Missing(q, BlockMappingKey)
    else Missing(p, BlockMappingKey)
  }

  // ----- flow collections -----

  /** Past the comma before an entry that is not the first; None if it is not there. */
  function PastComma(p: Parser, first: bool): Option<Parser>
    requires p.tokens != []
  {
    if first then Some(p) else if p.tokens[0].Comma? then Some(Skip(p)) else None
  }

  function FlowSequenceStep(p: Parser, first: bool): Result {
    if p.tokens == [] then Fail(NoToken)
    else if p.tokens[0].EndFlowSequence? then Closed(p, SequenceEnd)
    else
      var q := PastComma(p, first);
      if q.None? then Complain(p)
      else if q.value.tokens == [] then Fail(NoToken)
      else if q.value.tokens[0].Key? then Emit(Skip(q.value).(state := PairKey), Inside(MappingStart(None, None, true)))
      else if q.value.tokens[0].EndFlowSequence? then Closed(q.value, SequenceEnd)
      else NodeStep(Push(q.value, FlowSequenceEntry), false, false)
  }

  /** An empty key skips the token after it. */
  function PairKeyStep(p: Parser): Result {
    if p.tokens == [] then Fail(NoToken) else
      var t := p.tokens[0];
      if !t.Value? && !t.Comma? && !t.EndFlowSequence? then NodeStep(Push(p, PairValue), false, false)
      else Missing(Skip(p), PairValue)
  }

  function PairValueStep(p: Parser): Result {
    if p.tokens == [] then Fail(NoToken)
    else if p.tokens[0].Value? then
      var q := Skip(p);
      if q.tokens == [] then Fail(NoToken)
      else if !q.tokens[0].Comma? && !q.tokens[0].EndFlowSequence? then NodeStep(Push(q, PairEnd), false, false)
      else Missing(q, PairEnd)
    else Missing(p, PairEnd)
  }

  function PairEndStep(p: Parser): Result {
    if p.tokens == [] then Fail(NoToken) else Emit(p.(state := FlowSequenceEntry), Inside(MappingEnd))
  }

  function FlowMappingKeyStep(p: Parser, first: bool): Result {
    if p.tokens == [] then Fail(NoToken)
    else if p.tokens[0].EndFlowMapping? then Closed(p, MappingEnd)
    else
      var q := PastComma(p, first);
      if q.None? then Complain(p)
      else if q.value.tokens == [] then Fail(NoToken)
      else if q.value.tokens[0].Key? then
        var r := Skip(q.value);
        if r.tokens == [] then Fail(NoToken) else
          var t := r.tokens[0];
          if !t.Value? && !t.Comma? && !t.EndFlowMapping? then NodeStep(Push(r, FlowMappingValue), false, false)
          else Missing(r, FlowMappingValue)
      else if q.value.tokens[0].EndFlowMapping? then Closed(q.value, MappingEnd)
      else NodeStep(Push(q.value, FlowMappingEmpty), false, false)
  }

  function FlowMappingValueStep(p: Parser, empty: bool): Result {
    if p.tokens == [] then Fail(NoToken)
    else if empty then Missing(p, FlowMappingKey)
    else if p.tokens[0].Value? then
      var q := Skip(p);
      if q.tokens == [] then Fail(NoToken)
      else if !q.tokens[0].Comma? && !q.tokens[0].EndFlowMapping? then NodeStep(Push(q, FlowMappingKey), false, false)
      else Missing(q, FlowMappingKey)
    else Missing(p, FlowMappingKey)
  }

  // ----- the machine -----

  /** One event, from a state that is not the end. */
  function Step(p: Parser): Result {
    match p.state
    case AtStreamStart => StreamStartStep(p)
    case AtImplicitDocument => DocumentStartStep(p, true)
    case AtDocument => DocumentStartStep(p, false)
    case AtContent => ContentOrNot(p)
    case AtDocumentEnd => DocumentEndStep(p)
    case AtBlockNode => NodeStep(p, true, false)
    case AtBlockNodeOrIndentless => NodeStep(p, true, true)
    case AtFlowNode => NodeStep(p, false, false)
    case BlockSequenceFirst => if p.tokens == [] then Fail(Broken) else BlockSequenceStep(Begun(p))
    case BlockSequenceEntry => BlockSequenceStep(p)
    case IndentlessEntry => IndentlessStep(p)
    case BlockMappingFirst => if p.tokens == [] then Fail(Broken) else BlockMappingKeyStep(Begun(p))
    case BlockMappingKey => BlockMappingKeyStep(p)
    case BlockMappingValue => BlockMappingValueStep(p)
    case FlowSequenceFirst => if p.tokens == [] then Fail(Broken) else FlowSequenceStep(Begun(p), true)
    case FlowSequenceEntry => FlowSequenceStep(p, false)
    case PairKey => PairKeyStep(p)
    case PairValue => PairValueStep(p)
    case PairEnd => PairEndStep(p)
    case FlowMappingFirst => if p.tokens == [] then Fail(Broken) else FlowMappingKeyStep(Begun(p), true)
    case FlowMappingKey => FlowMappingKeyStep(p, false)
    case FlowMappingValue => FlowMappingValueStep(p, false)
    case FlowMappingEmpty => FlowMappingValueStep(p, true)
    case AtEnd => Fail(Broken)
  }

  /** The parser with its fields, changed in place. */
  class Machine {
    var tokens: seq<Token>
    var state: State
    var states: seq<State>
    var marks: seq<nat>
    var tags: seq<Directive>
    var ended: bool
    var failed: bool

    ghost function View(): Parser
      reads this
    {
      Parser(tokens, state, states, marks, tags, ended)
    }

    /** What a step was to do was done; after a failure only the failure counts. */
    ghost predicate Did(r: Option<Parsed>, expected: Result)
      reads this
    {
      match expected
      case Emit(q, e) => r == Some(e) && View() == q && !failed
      case Fail(_) => r.None? && failed
    }

    constructor (tokens: seq<Token>)
      ensures View() == Parser(tokens, AtStreamStart, [], [], [], false) && !failed
    {
      this.tokens, state, states, marks, tags, ended, failed := tokens, AtStreamStart, [], [], [], false, false;
    }

    /** The next event; none after the end of the stream or an error. */
    method Parse() returns (r: Option<Parsed>)
      modifies this
      ensures old(failed || ended || state.AtEnd?) ==> r.None? && View() == old(View()) && failed == old(failed)
      ensures !old(failed || ended || state.AtEnd?) ==> Did(r, Step(old(View())))
    {
      if ended || failed || state.AtEnd? {
        return None;
      }
      hide StreamStartStep, DocumentStartStep, ContentOrNot, DocumentEndStep, NodeStep, BlockSequenceStep, IndentlessStep,
        BlockMappingKeyStep, BlockMappingValueStep, FlowSequenceStep, PairKeyStep, PairValueStep, PairEndStep,
        FlowMappingKeyStep, FlowMappingValueStep;
      match state
      case AtStreamStart => r := ParseStreamStart();
      case AtImplicitDocument => r := ParseDocumentStart(true);
      case AtDocument => r := ParseDocumentStart(false);
      case AtContent => r := ParseDocumentContent();
      case AtDocumentEnd => r := ParseDocumentEnd();
      case AtBlockNode => r := ParseNode(true, false);
      case AtBlockNodeOrIndentless => r := ParseNode(true, true);
      case AtFlowNode => r := ParseNode(false, false);
      case BlockSequenceFirst => r := ParseBlockSequenceEntry(true);
      case BlockSequenceEntry => r := ParseBlockSequenceEntry(false);
      case IndentlessEntry => r := ParseIndentlessSequenceEntry();
      case BlockMappingFirst => r := ParseBlockMappingKey(true);
      case BlockMappingKey => r := ParseBlockMappingKey(false);
      case BlockMappingValue => r := ParseBlockMappingValue();
      case FlowSequenceFirst => r := ParseFlowSequenceEntry(true);
      case FlowSequenceEntry => r := ParseFlowSequenceEntry(false);
      case PairKey => r := ParseFlowSequenceEntryMappingKey();
      case PairValue => r := ParseFlowSequenceEntryMappingValue();
      case PairEnd => r := ParseFlowSequenceEntryMappingEnd();
      case FlowMappingFirst => r := ParseFlowMappingKey(true);
      case FlowMappingKey => r := ParseFlowMappingKey(false);
      case FlowMappingValue => r := ParseFlowMappingValue(false);
      case FlowMappingEmpty => r := ParseFlowMappingValue(true);
    }

    method SkipToken()
      requires tokens != []
      modifies this`tokens, this`ended
      ensures View() == Skip(old(View()))
    {
      ended := tokens[0].EndStream?;
      tokens := tokens[1..];
    }

    method Error() returns (r: Option<Parsed>)
      modifies this`failed
      ensures failed && r.None?
    {
      failed := true;
      r := None;
    }

    /** Comes back to the state last pushed. */
    method PopState() returns (ok: bool)
      modifies this`state, this`states
      ensures ok == (old(states) != [])
      ensures ok ==> View() == old(View()).(state := old(states)[|old(states)| - 1], states := old(states)[..|old(states)| - 1])
    {
      ok := states != [];
      if ok {
        state := states[|states| - 1];
        states := states[..|states| - 1];
      }
    }

    method ParseStreamStart() returns (r: Option<Parsed>)
      requires !failed
      modifies this
      ensures Did(r, StreamStartStep(old(View())))
    {
      if tokens == [] || !tokens[0].StartStream? {
        r := Error();
        return;
      }
      state := AtImplicitDocument;
      SkipToken();
      r := Some(StreamStart);
    }

    method ParseDocumentStart(isImplicit: bool) returns (r: Option<Parsed>)
      requires !failed
      modifies this
      ensures Did(r, DocumentStartStep(old(View()), isImplicit))
    {
      hide Directives;
      if !isImplicit {
        while tokens != [] && tokens[0].EndDocument?
          invariant PastEnds(View()) == PastEnds(old(View())) && !failed
          decreases |tokens|
        {
          SkipToken();
        }
      }
      if tokens == [] {
        r := Error();
        return;
      }
      var t := tokens[0];
      if isImplicit && !t.VersionDirective? && !t.TagDirective? && !t.StartDocument? && !t.EndStream? {
        var ok := ProcessDirectives();
        if !ok {
          return None;
        }
        states := states + [AtDocumentEnd];
        state := AtBlockNode;
        r := Some(Inside(DocumentStart));
      } else if !t.EndStream? {
        var ok := ProcessDirectives();
        if !ok {
          return None;
        }
        if tokens == [] || !tokens[0].StartDocument? {
          r := Error();
          return;
        }
        states := states + [AtDocumentEnd];
        state := AtContent;
        SkipToken();
        r := Some(Inside(DocumentStart));
      } else {
        state := AtEnd;
        SkipToken();
        r := Some(StreamEnd);
      }
    }

    method ProcessDirectives() returns (ok: bool)
      requires !failed
      modifies this
      ensures match Directives(old(View()), false)
        case Directed(q) => ok && View() == q && !failed
        case Misdirected(_) => !ok && failed
    {
      var versioned := false;
      while tokens != [] && (tokens[0].VersionDirective? || tokens[0].TagDirective?)
        invariant Directives(View(), versioned) == Directives(old(View()), false) && !failed
        decreases |tokens|
      {
        if tokens[0].VersionDirective? {
          if versioned || tokens[0].major != 1 || (tokens[0].minor != 1 && tokens[0].minor != 2) {
            failed := true;
            return false;
          }
          versioned := true;
        } else {
          ok := AppendTagDirective(tokens[0].directive, false);
          if !ok {
            failed := true;
            return;
          }
        }
        SkipToken();
      }
      if tokens == [] {
        failed := true;
        return false;
      }
      ok := AppendTagDirective(Directive("!", "!"), true);
      ok := AppendTagDirective(Directive("!!", "tag:yaml.org,2002:"), true);
    }

    method AppendTagDirective(d: Directive, duplicates: bool) returns (ok: bool)
      modifies this`tags
      ensures var a := Append(old(tags), d, duplicates); ok == a.Some? && tags == if ok then a.value else old(tags)
    {
      assert tags == tags[0..];
      for k := 0 to |tags|
        invariant tags == old(tags) && Declared(tags, d.handle) == Declared(tags[k..], d.handle)
      {
        assert tags[k..][1..] == tags[k + 1..];
        if tags[k].handle == d.handle {
          return duplicates;
        }
      }
      tags := tags + [d];
      ok := true;
    }

    method ParseDocumentContent() returns (r: Option<Parsed>)
      requires !failed
      modifies this
      ensures Did(r, ContentOrNot(old(View())))
    {
      hide NodeStep;
      if tokens == [] {
        r := Error();
        return;
      }
      var t := tokens[0];
      if t.VersionDirective? || t.TagDirective? || t.StartDocument? || t.EndDocument? || t.EndStream? {
        var ok := PopState();
        if ok { r := Some(Inside(EMPTY_SCALAR)); } else { r := Error(); }
      } else {
        r := ParseNode(true, false);
      }
    }

    method ParseDocumentEnd() returns (r: Option<Parsed>)
      requires !failed
      modifies this
      ensures Did(r, DocumentEndStep(old(View())))
    {
      if tokens == [] {
        r := Error();
        return;
      }
      if tokens[0].EndDocument? {
        SkipToken();
      }
      ghost var before := View();
      while tags != []
        invariant View() == before.(tags := tags) && !failed
        decreases |tags|
      {
        tags := tags[..|tags| - 1];
      }
      state := AtDocument;
      r := Some(Inside(DocumentEnd));
    }

    /** The anchor and tag before a node. */
    method ParseProperties() returns (r: Option<Properties>)
      requires tokens != []
      modifies this`tokens, this`ended
      ensures var q := Propertied(old(View())); r.Some? == q.Some? && (q.Some? ==> View() == q.value.0 && r.value == q.value.1)
    {
      var anchor: Option<string>, handle: Option<string>, suffix := None, None, "";
      if tokens[0].Anchor? {
        anchor := Some(tokens[0].name);
        SkipToken();
        if tokens == [] {
          return None;
        }
        if tokens[0].Tag? {
          handle, suffix := Some(tokens[0].handle), tokens[0].suffix;
          SkipToken();
          if tokens == [] {
            return None;
          }
        }
      } else if tokens[0].Tag? {
        handle, suffix := Some(tokens[0].handle), tokens[0].suffix;
        SkipToken();
        if tokens == [] {
          return None;
        }
        if tokens[0].Anchor? {
          anchor := Some(tokens[0].name);
          SkipToken();
          if tokens == [] {
            return None;
          }
        }
      }
      r := Some(Properties(anchor, handle, suffix));
    }

    /** The declared prefix of a tag's handle before its suffix. */
    method ResolveTag(r: Properties) returns (tag: Option<Option<string>>)
      ensures tag == FullTag(tags, r)
    {
      if r.handle.None? {
        return Some(None);
      }
      if r.handle.value == "" {
        return Some(Some(r.suffix));
      }
      assert tags == tags[0..];
      for k := 0 to |tags|
        invariant Declared(tags, r.handle.value) == Declared(tags[k..], r.handle.value)
      {
        assert tags[k..][1..] == tags[k + 1..];
        if tags[k].handle == r.handle.value {
          return Some(Some(tags[k].prefix + r.suffix));
        }
      }
      tag := None;
    }

    method ParseNode(block: bool, indentless: bool) returns (r: Option<Parsed>)
      requires !failed
      modifies this
      ensures Did(r, NodeStep(old(View()), block, indentless))
    {
      hide Propertied, FullTag;
      if tokens == [] {
        r := Error();
        return;
      }
      if tokens[0].AliasToken? {
        var name := tokens[0].name;
        var ok := PopState();
        SkipToken();
        if ok { r := Some(Inside(Alias(Some(name)))); } else { r := Error(); }
        return;
      }
      var properties := ParseProperties();
      if properties.None? {
        r := Error();
        return;
      }
      KeptTags(old(View()));
      var tag := ResolveTag(properties.value);
      if tag.None? {
        r := Error();
        return;
      }
      r := ParseNodeContent(properties.value.anchor, tag.value, block, indentless);
    }

    method ParseNodeContent(anchor: Option<string>, tag: Option<string>, block: bool, indentless: bool) returns (r: Option<Parsed>)
      requires !failed && tokens != []
      modifies this
      ensures Did(r, ContentStep(old(View()), anchor, tag, block, indentless))
    {
      var t, none := tokens[0], tag.None? || tag.value == "";
      if indentless && t.Dash? {
        state := IndentlessEntry;
        r := Some(Inside(SequenceStart(anchor, tag, none)));
      } else if t.Text? {
        var plain := (t.plain && tag.None?) || tag == Some("!");
        var ok := PopState();
        SkipToken();
        if ok { r := Some(Inside(ScalarEvent(anchor, tag, t.text, plain))); } else { r := Error(); }
      } else if t.StartFlowSequence? {
        state := FlowSequenceFirst;
        r := Some(Inside(SequenceStart(anchor, tag, none)));
      } else if t.StartFlowMapping? {
        state := FlowMappingFirst;
        r := Some(Inside(MappingStart(anchor, tag, none)));
      } else if block && t.StartBlockSequence? {
        state := BlockSequenceFirst;
        r := Some(Inside(SequenceStart(anchor, tag, none)));
      } else if block && t.StartBlockMapping? {
        state := BlockMappingFirst;
        r := Some(Inside(MappingStart(anchor, tag, none)));
      } else if anchor.Some? || tag.Some? {
        var ok := PopState();
        if ok { r := Some(Inside(ScalarEvent(anchor, tag, "", none))); } else { r := Error(); }
      } else {
        r := Error();
      }
    }

    // ----- collections -----

    /** Keeps the mark of a collection's first token and skips it. */
    method Begin()
      requires tokens != []
      modifies this
      ensures View() == Begun(old(View())) && failed == old(failed)
    {
      marks := marks + [|tokens|];
      SkipToken();
    }

    method End(e: Event) returns (r: Option<Parsed>)
      requires tokens != [] && !failed
      modifies this
      ensures Did(r, Closed(old(View()), e))
    {
      var ok := PopState();
      if !ok || marks == [] {
        r := Error();
        return;
      }
      marks := marks[..|marks| - 1];
      SkipToken();
      r := Some(Inside(e));
    }

    method ParseBlockSequenceEntry(first: bool) returns (r: Option<Parsed>)
      requires !failed
      modifies this
      ensures var p := old(View());
        Did(r, if !first then BlockSequenceStep(p) else if p.tokens == [] then Fail(Broken) else BlockSequenceStep(Begun(p)))
    {
      hide NodeStep, Closed;
      if tokens == [] {
        r := Error();
        return;
      }
      if first {
        Begin();
      }
      if tokens == [] {
        r := Error();
      } else if tokens[0].Dash? {
        SkipToken();
        if tokens == [] {
          r := Error();
        } else if !tokens[0].Dash? && !tokens[0].EndBlock? {
          states := states + [BlockSequenceEntry];
          r := ParseNode(true, false);
        } else {
          state := BlockSequenceEntry;
          r := Some(Inside(EMPTY_SCALAR));
        }
      } else if tokens[0].EndBlock? {
        r := End(SequenceEnd);
      } else {
        r := Error();
      }
    }

    method ParseIndentlessSequenceEntry() returns (r: Option<Parsed>)
      requires !failed
      modifies this
      ensures Did(r, IndentlessStep(old(View())))
    {
      hide NodeStep;
      if tokens == [] {
        r := Error();
      } else if tokens[0].Dash? {
        SkipToken();
        if tokens == [] {
          r := Error();
        } else if !tokens[0].Dash? && !tokens[0].Key? && !tokens[0].Value? && !tokens[0].EndBlock? {
          states := states + [IndentlessEntry];
          r := ParseNode(true, false);
        } else {
          state := IndentlessEntry;
          r := Some(Inside(EMPTY_SCALAR));
        }
      } else {
        var ok := PopState();
        if ok { r := Some(Inside(SequenceEnd)); } else { r := Error(); }
      }
    }

    method ParseBlockMappingKey(first: bool) returns (r: Option<Parsed>)
      requires !failed
      modifies this
      ensures var p := old(View());
        Did(r, if !first then BlockMappingKeyStep(p) else if p.tokens == [] then Fail(Broken) else BlockMappingKeyStep(Begun(p)))
    {
      hide NodeStep, Closed;
      if tokens == [] {
        r := Error();
        return;
      }
      if first {
        Begin();
      }
      if tokens == [] {
        r := Error();
      } else if tokens[0].Key? {
        SkipToken();
        if tokens == [] {
          r := Error();
        } else if !tokens[0].Key? && !tokens[0].Value? && !tokens[0].EndBlock? {
          states := states + [BlockMappingValue];
          r := ParseNode(true, true);
        } else {
          state := BlockMappingValue;
          r := Some(Inside(EMPTY_SCALAR));
        }
      } else if tokens[0].EndBlock? {
        r := End(MappingEnd);
      } else {
        r := Error();
      }
    }

    method ParseBlockMappingValue() returns (r: Option<Parsed>)
      requires !failed
      modifies this
      ensures Did(r, BlockMappingValueStep(old(View())))
    {
      hide NodeStep;
      if tokens == [] {
        r := Error();
        return;
      }
      if tokens[0].Value? {
        SkipToken();
        if tokens == [] {
          r := Error();
          return;
        }
        if !tokens[0].Key? && !tokens[0].Value? && !tokens[0].EndBlock? {
          states := states + [BlockMappingKey];
          r := ParseNode(true, true);
          return;
        }
      }
      state := BlockMappingKey;
      r := Some(Inside(EMPTY_SCALAR));
    }

    method ParseFlowSequenceEntry(first: bool) returns (r: Option<Parsed>)
      requires !failed
      modifies this
      ensures var p := old(View());
        Did(r, if !first then FlowSequenceStep(p, false) else if p.tokens == [] then Fail(Broken) else FlowSequenceStep(Begun(p), true))
    {
      hide NodeStep, Closed;
      if tokens == [] {
        r := Error();
        return;
      }
      if first {
        Begin();
      }
      if tokens == [] {
        r := Error();
        return;
      }
      if !tokens[0].EndFlowSequence? {
        if !first {
          if tokens[0].Comma? {
            SkipToken();
            if tokens == [] {
              r := Error();
              return;
            }
          } else {
            r := Error();
            return;
          }
        }
        if tokens[0].Key? {
          state := PairKey;
          SkipToken();
          return Some(Inside(MappingStart(None, None, true)));
        } else if !tokens[0].EndFlowSequence? {
          states := states + [FlowSequenceEntry];
          r := ParseNode(false, false);
          return;
        }
      }
      r := End(SequenceEnd);
    }

    method ParseFlowSequenceEntryMappingKey() returns (r: Option<Parsed>)
      requires !failed
      modifies this
      ensures Did(r, PairKeyStep(old(View())))
    {
      hide NodeStep;
      if tokens == [] {
        r := Error();
      } else if !tokens[0].Value? && !tokens[0].Comma? && !tokens[0].EndFlowSequence? {
        states := states + [PairValue];
        r := ParseNode(false, false);
      } else {
        SkipToken();
        state := PairValue;
        r := Some(Inside(EMPTY_SCALAR));
      }
    }

    method ParseFlowSequenceEntryMappingValue() returns (r: Option<Parsed>)
      requires !failed
      modifies this
      ensures Did(r, PairValueStep(old(View())))
    {
      hide NodeStep;
      if tokens == [] {
        r := Error();
        return;
      }
      if tokens[0].Value? {
        SkipToken();
        if tokens == [] {
          r := Error();
          return;
        }
        if !tokens[0].Comma? && !tokens[0].EndFlowSequence? {
          states := states + [PairEnd];
          r := ParseNode(false, false);
          return;
        }
      }
      state := PairEnd;
      r := Some(Inside(EMPTY_SCALAR));
    }

    method ParseFlowSequenceEntryMappingEnd() returns (r: Option<Parsed>)
      requires !failed
      modifies this
      ensures Did(r, PairEndStep(old(View())))
    {
      if tokens == [] {
        r := Error();
        return;
      }
      state := FlowSequenceEntry;
      r := Some(Inside(MappingEnd));
    }

    method ParseFlowMappingKey(first: bool) returns (r: Option<Parsed>)
      requires !failed
      modifies this
      ensures var p := old(View());
        Did(r, if !first then FlowMappingKeyStep(p, false) else if p.tokens == [] then Fail(Broken) else FlowMappingKeyStep(Begun(p), true))
    {
      hide NodeStep, Closed;
      if tokens == [] {
        r := Error();
        return;
      }
      if first {
        Begin();
      }
      if tokens == [] {
        r := Error();
        return;
      }
      if !tokens[0].EndFlowMapping? {
        if !first {
          if tokens[0].Comma? {
            SkipToken();
            if tokens == [] {
              r := Error();
              return;
            }
          } else {
            r := Error();
            return;
          }
        }
        if tokens[0].Key? {
          SkipToken();
          if tokens == [] {
            r := Error();
            return;
          }
          if !tokens[0].Value? && !tokens[0].Comma? && !tokens[0].EndFlowMapping? {
            states := states + [FlowMappingValue];
            r := ParseNode(false, false);
          } else {
            state := FlowMappingValue;
            r := Some(Inside(EMPTY_SCALAR));
          }
          return;
        } else if !tokens[0].EndFlowMapping? {
          states := states + [FlowMappingEmpty];
          r := ParseNode(false, false);
          return;
        }
      }
      r := End(MappingEnd);
    }

    method ParseFlowMappingValue(empty: bool) returns (r: Option<Parsed>)
      requires !failed
      modifies this
      ensures Did(r, FlowMappingValueStep(old(View()), empty))
    {
      hide NodeStep;
      if tokens == [] {
        r := Error();
        return;
      }
      if empty {
        state := FlowMappingKey;
        return Some(Inside(EMPTY_SCALAR));
      }
      if tokens[0].Value? {
        SkipToken();
        if tokens == [] {
          r := Error();
          return;
        }
        if !tokens[0].Comma? && !tokens[0].EndFlowMapping? {
          states := states + [FlowMappingKey];
          r := ParseNode(false, false);
          return;
        }
      }
      state := FlowMappingKey;
      r := Some(Inside(EMPTY_SCALAR));
    }
  }

  lemma KeptTags(p: Parser)
    requires p.tokens != []
    ensures Propertied(p).Some? ==> Propertied(p).value.0.tags == p.tags && Propertied(p).value.0.tokens != []
  {
  }
}
