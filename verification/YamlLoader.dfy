/** Loading a document: events one by one put nodes on a stack and hang each below the
    innermost open collection. */
module YamlLoader {
  import opened Options
  import opened YamlDumper
  import opened YamlGraph

  datatype AliasData = AliasData(anchor: string, index: nat)

  datatype Loading = Loading(nodes: Graph, aliases: seq<AliasData>, ctx: seq<nat>)

  datatype Error = DuplicateAnchor | UndefinedAlias | LimitReached | AssertionFailed

  datatype Outcome = Going(state: Loading) | Failed(error: Error)

  /** No stack is pushed to beyond this. */
  const LIMIT: nat := 0x7fff_fffe

  /** A missing tag, or a lone exclamation mark, stands for the default one. */
  function TagOr(tag: Option<string>, default_: string): string {
    if tag == None || tag.value == "!" then default_ else tag.value
  }

  /** The index of the first alias entry of that anchor, or 0. */
  function FindAlias(aliases: seq<AliasData>, anchor: string): nat {
    if aliases == [] then 0
    else if aliases[0].anchor == anchor then aliases[0].index
    else FindAlias(aliases[1..], anchor)
  }

  function Registered(aliases: seq<AliasData>, anchor: string): bool {
    exists k | 0 <= k < |aliases| :: aliases[k].anchor == anchor
  }

  /** The last pair still waits for its value. */
  predicate Pending(pairs: seq<Pair>) {
    pairs != [] && pairs[|pairs| - 1].key != 0 && pairs[|pairs| - 1].value == 0
  }

  /** A collection with one more child: a value if the last pair waits for one, else a key. */
  function AddChild(n: Node, index: nat): Node {
    match n
    case Scalar(_, _) => n
    case Sequence(tag, items) => Sequence(tag, items + [index])
    case Mapping(tag, pairs) =>
      if Pending(pairs) then Mapping(tag, pairs[|pairs| - 1 := pairs[|pairs| - 1].(value := index)])
      else Mapping(tag, pairs + [Pair(index, 0)])
  }

  predicate Full(n: Node) {
    match n
    case Scalar(_, _) => false
    case Sequence(_, items) => |items| >= LIMIT
    case Mapping(_, pairs) => !Pending(pairs) && |pairs| >= LIMIT
  }

  /** Hangs a node below the innermost open collection, if any. */
  function Hang(st: Loading, index: nat): Outcome {
    if st.ctx == [] then Going(st) else
      var parent := st.ctx[|st.ctx| - 1];
      if !(1 <= parent <= |st.nodes|) || st.nodes[parent - 1].Scalar? then Failed(AssertionFailed)
      else if Full(st.nodes[parent - 1]) then Failed(LimitReached)
      else Going(st.(nodes := st.nodes[parent - 1 := AddChild(st.nodes[parent - 1], index)]))
  }

  /** Puts a new node on the stack, registers its anchor, and hangs it. */
  function Put(st: Loading, n: Node, anchor: Option<string>): Outcome {
    if |st.nodes| >= LIMIT then Failed(LimitReached)
    else if anchor.Some? && Registered(st.aliases, anchor.value) then Failed(DuplicateAnchor)
    else
      var index := |st.nodes| + 1;
      var aliases := if anchor.Some? then st.aliases + [AliasData(anchor.value, index)] else st.aliases;
      Hang(Loading(st.nodes + [n], aliases, st.ctx), index)
  }

  /** Makes the collection just put the innermost open one. */
  function Enter(r: Outcome): Outcome {
    if r.Failed? then r
    else if |r.state.ctx| >= LIMIT then Failed(LimitReached)
    else Going(r.state.(ctx := r.state.ctx + [|r.state.nodes|]))
  }

  function Leave(st: Loading, mapping: bool): Outcome {
    if st.ctx == [] then Failed(AssertionFailed) else
      var index := st.ctx[|st.ctx| - 1];
      if !(1 <= index <= |st.nodes|) || st.nodes[index - 1].Scalar? || st.nodes[index - 1].Mapping? != mapping
      then Failed(AssertionFailed)
      else Going(st.(ctx := st.ctx[..|st.ctx| - 1]))
  }

  function Step(st: Loading, e: Event): Outcome {
    match e
    case Alias(anchor) =>
      if anchor.None? then Failed(AssertionFailed)
      else if !Registered(st.aliases, anchor.value) then Failed(UndefinedAlias)
      else Hang(st, FindAlias(st.aliases, anchor.value))
    case ScalarEvent(anchor, tag, value, _) => Put(st, Scalar(TagOr(tag, SCALAR_TAG), value), anchor)
    case SequenceStart(anchor, tag, _) => Enter(Put(st, Sequence(TagOr(tag, SEQUENCE_TAG), []), anchor))
    case MappingStart(anchor, tag, _) => Enter(Put(st, Mapping(TagOr(tag, MAPPING_TAG), []), anchor))
    case SequenceEnd => Leave(st, false)
    case MappingEnd => Leave(st, true)
    case DocumentStart => Failed(AssertionFailed)
    case DocumentEnd => Failed(AssertionFailed)
  }

  /** All events, as long as none fails. */
  function Steps(st: Loading, events: seq<Event>): Outcome
    decreases |events|
  {
    if events == [] then Going(st) else
      var r := Step(st, events[0]);
      if r.Failed? then r else Steps(r.state, events[1..])
  }

  lemma {:induction false} StepsJoin(st: Loading, a: seq<Event>, b: seq<Event>)
    ensures Steps(st, a + b) == if Steps(st, a).Failed? then Steps(st, a) else Steps(Steps(st, a).state, b)
    decreases |a|
  {
    if a == [] {
      assert a + b == b;
    } else {
      assert (a + b)[0] == a[0] && (a + b)[1..] == a[1..] + b;
      var r := Step(st, a[0]);
      if r.Going? {
        StepsJoin(r.state, a[1..], b);
      }
    }
  }

  lemma StepsOne(st: Loading, e: Event)
    ensures Steps(st, [e]) == Step(st, e)
  {
    assert [e][1..] == [];
    var r := Step(st, e);
    assert r.Going? ==> Steps(r.state, []) == r;
  }

  class Loader {
    var nodes: Graph
    var aliases: seq<AliasData>
    var ctx: seq<nat>

    ghost function State(): Loading
      reads this
    {
      Loading(nodes, aliases, ctx)
    }

    constructor ()
      ensures State() == Loading([], [], [])
    {
      nodes, aliases, ctx := [], [], [];
    }

    /** Adds an anchor, unless it is there already. */
    method RegisterAnchor(index: nat, anchor: Option<string>) returns (ok: bool)
      modifies this`aliases
      ensures ok <==> !(anchor.Some? && Registered(old(aliases), anchor.value))
      ensures ok ==> aliases == if anchor.Some? then old(aliases) + [AliasData(anchor.value, index)] else old(aliases)
    {
      ok := true;
      if anchor.None? {
        return;
      }
      for k := 0 to |aliases|
        invariant aliases == old(aliases) && forall j | 0 <= j < k :: aliases[j].anchor != anchor.value
      {
        if aliases[k].anchor == anchor.value {
          return false;
        }
      }
      aliases := aliases + [AliasData(anchor.value, index)];
    }

    /** Hangs a node below the innermost open collection. */
    method LoadNodeAdd(index: nat) returns (r: Option<Error>)
      modifies this`nodes
      ensures var h := Hang(old(State()), index);
        if r.None? then h == Going(State()) else h == Failed(r.value)
    {
      if ctx == [] {
        return None;
      }
      var parent := ctx[|ctx| - 1];
      if !(1 <= parent <= |nodes|) {
        return Some(AssertionFailed);
      }
      match nodes[parent - 1] {
        case Sequence(tag, items) =>
          if |items| >= LIMIT {
            return Some(LimitReached);
          }
          nodes := nodes[parent - 1 := Sequence(tag, items + [index])];
        case Mapping(tag, pairs) =>
          if |pairs| > 0 && pairs[|pairs| - 1].key != 0 && pairs[|pairs| - 1].value == 0 {
            nodes := nodes[parent - 1 := Mapping(tag, pairs[|pairs| - 1 := pairs[|pairs| - 1].(value := index)])];
          } else {
            if |pairs| >= LIMIT {
              return Some(LimitReached);
            }
            nodes := nodes[parent - 1 := Mapping(tag, pairs + [Pair(index, 0)])];
          }
        case Scalar(_, _) =>
          return Some(AssertionFailed);
      }
      r := None;
    }

    method LoadAlias(anchor: Option<string>) returns (r: Option<Error>)
      modifies this`nodes
      ensures var s := Step(old(State()), Alias(anchor));
        if r.None? then s == Going(State()) else s == Failed(r.value)
    {
      if anchor.None? {
        return Some(AssertionFailed);
      }
      assert aliases == aliases[0..];
      for k := 0 to |aliases|
        invariant nodes == old(nodes) && forall j | 0 <= j < k :: aliases[j].anchor != anchor.value
        invariant FindAlias(aliases, anchor.value) == FindAlias(aliases[k..], anchor.value)
      {
        assert aliases[k..][1..] == aliases[k + 1..];
        if aliases[k].anchor == anchor.value {
          r := LoadNodeAdd(aliases[k].index);
          return;
        }
      }
      r := Some(UndefinedAlias);
    }

    /** Puts a node on the stack and hangs it. */
    method PutNode(n: Node, anchor: Option<string>) returns (r: Option<Error>)
      modifies this`nodes, this`aliases
      ensures var p := Put(old(State()), n, anchor);
        if r.None? then p == Going(State()) else p == Failed(r.value)
    {
      if |nodes| >= LIMIT {
        return Some(LimitReached);
      }
      nodes := nodes + [n];
      var index := |nodes|;
      var ok := RegisterAnchor(index, anchor);
      if !ok {
        return Some(DuplicateAnchor);
      }
      r := LoadNodeAdd(index);
    }

    method LoadCollection(n: Node, anchor: Option<string>) returns (r: Option<Error>)
      modifies this
      ensures var p := Enter(Put(old(State()), n, anchor));
        if r.None? then p == Going(State()) else p == Failed(r.value)
    {
      r := PutNode(n, anchor);
      if r.Some? {
        return;
      }
      if |ctx| >= LIMIT {
        return Some(LimitReached);
      }
      ctx := ctx + [|nodes|];
    }

    method LoadEnd(mapping: bool) returns (r: Option<Error>)
      modifies this`ctx
      ensures var s := Leave(old(State()), mapping);
        if r.None? then s == Going(State()) else s == Failed(r.value)
    {
      if |ctx| == 0 {
        return Some(AssertionFailed);
      }
      var index := ctx[|ctx| - 1];
      if !(1 <= index <= |nodes|) || nodes[index - 1].Scalar? || nodes[index - 1].Mapping? != mapping {
        return Some(AssertionFailed);
      }
      ctx := ctx[..|ctx| - 1];
      r := None;
    }

    /** The loop over the events of a document, up to DOCUMENT-END. */
    method LoadNodes(events: seq<Event>) returns (r: Option<Error>)
      requires events != [] && events[|events| - 1] == DocumentEnd
      requires forall k | 0 <= k < |events| - 1 :: events[k] != DocumentEnd
      modifies this
      ensures var s := Steps(old(State()), events[..|events| - 1]);
        if r.None? then s == Going(State()) else s == Failed(r.value)
    {
      var k, n := 0, |events| - 1;
      ghost var all := Steps(State(), events[..n]);
      assert events[..n] == events[k..n];
      while events[k] != DocumentEnd
        invariant k <= n && all == Steps(State(), events[k..n])
        decreases n - k
      {
        var e := events[k];
        assert events[k..n][0] == e && events[k..n][1..] == events[k + 1..n];
        match e {
          case Alias(anchor) =>
            r := LoadAlias(anchor);
          case ScalarEvent(anchor, tag, value, _) =>
            r := PutNode(Scalar(TagOr(tag, SCALAR_TAG), value), anchor);
          case SequenceStart(anchor, tag, _) =>
            r := LoadCollection(Sequence(TagOr(tag, SEQUENCE_TAG), []), anchor);
          case SequenceEnd =>
            r := LoadEnd(false);
          case MappingStart(anchor, tag, _) =>
            r := LoadCollection(Mapping(TagOr(tag, MAPPING_TAG), []), anchor);
          case MappingEnd =>
            r := LoadEnd(true);
          case DocumentStart =>
            r := Some(AssertionFailed);
        }
        if r.Some? {
          return;
        }
        k := k + 1;
      }
      assert events[k..n] == [];
      r := None;
    }
  }

  // ----- what any accepted stream of events keeps to -----

  /** The anchor an event gives to its node. */
  function Given(e: Event): Option<string> {
    match e
    case ScalarEvent(anchor, _, _, _) => anchor
    case SequenceStart(anchor, _, _) => anchor
    case MappingStart(anchor, _, _) => anchor
    case _ => None
  }

  function AllGiven(events: seq<Event>): seq<string> {
    if events == [] then [] else
      (if Given(events[0]).Some? then [Given(events[0]).value] else []) + AllGiven(events[1..])
  }

  function Texts(aliases: seq<AliasData>): seq<string> {
    seq(|aliases|, k requires 0 <= k < |aliases| => aliases[k].anchor)
  }

  lemma RegisteredTexts(aliases: seq<AliasData>, anchor: string)
    ensures Registered(aliases, anchor) <==> anchor in Texts(aliases)
  {
    var t := Texts(aliases);
    assert forall k | 0 <= k < |aliases| :: t[k] == aliases[k].anchor;
  }

  lemma StepGives(st: Loading, e: Event)
    requires Step(st, e).Going?
    ensures Texts(Step(st, e).state.aliases) == Texts(st.aliases) + AllGiven([e])
    ensures Given(e).Some? ==> Given(e).value !in Texts(st.aliases)
    ensures e.Alias? ==> e.anchor.Some? && e.anchor.value in Texts(st.aliases)
  {
    assert [e][1..] == [];
    var given := Given(e);
    if given.Some? {
      RegisteredTexts(st.aliases, given.value);
    }
    if e.Alias? && e.anchor.Some? {
      RegisteredTexts(st.aliases, e.anchor.value);
    }
    assert AllGiven([e]) == if given.Some? then [given.value] else [];
  }

  lemma GivenHead(events: seq<Event>)
    requires events != []
    ensures AllGiven(events) == AllGiven([events[0]]) + AllGiven(events[1..])
  {
    hide Given;
    assert [events[0]][1..] == [];
  }

  lemma {:induction false} StepsGive(st: Loading, events: seq<Event>)
    requires Steps(st, events).Going?
    ensures Texts(Steps(st, events).state.aliases) == Texts(st.aliases) + AllGiven(events)
    decreases |events|
  {
    hide Step, Texts, Given;
    if events == [] {
      assert Texts(st.aliases) + [] == Texts(st.aliases);
    } else {
      hide AllGiven;
      var st' := Step(st, events[0]).state;
      assert Steps(st, events) == Steps(st', events[1..]);
      hide Steps;
      StepGives(st, events[0]);
      StepsGive(st', events[1..]);
      GivenHead(events);
      var a, b, c := Texts(st.aliases), AllGiven([events[0]]), AllGiven(events[1..]);
      assert a + b + c == a + (b + c);
    }
  }

  /** In a stream of events that loads, every alias names an anchor given before it, and
      no anchor is given twice. */
  lemma AcceptedAnchors(events: seq<Event>, k: nat)
    requires Steps(Loading([], [], []), events).Going? && k < |events|
    ensures events[k].Alias? ==> events[k].anchor.Some? && events[k].anchor.value in AllGiven(events[..k])
    ensures Given(events[k]).Some? ==> Given(events[k]).value !in AllGiven(events[..k])
  {
    hide Step, Steps, Texts;
    var st := Loading([], [], []);
    StepsJoin(st, events[..k + 1], events[k + 1..]);
    assert events == events[..k + 1] + events[k + 1..];
    StepsJoin(st, events[..k], [events[k]]);
    assert events[..k + 1] == events[..k] + [events[k]];
    StepsGive(st, events[..k]);
    var at := Steps(st, events[..k]).state;
    StepsOne(at, events[k]);
    StepGives(at, events[k]);
    NoTexts();
    assert [] + AllGiven(events[..k]) == AllGiven(events[..k]);
  }

  lemma NoTexts()
    ensures Texts([]) == []
  {
  }
}
