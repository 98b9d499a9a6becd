/** What loading any events comes to: each node from its own event, and below it what the
    events directly inside its collection stand for. */
module YamlLoaded {
  import opened Options
  import opened YamlDumper
  import opened YamlGraph
  import opened YamlLoader

  const START: Loading := Loading([], [], [])

  predicate Opens(e: Event) {
    e.SequenceStart? || e.MappingStart?
  }

  predicate Closes(e: Event) {
    e.SequenceEnd? || e.MappingEnd?
  }

  predicate IsNode(e: Event) {
    e.ScalarEvent? || Opens(e)
  }

  /** How many of the first `k` events are of nodes. */
  function Count(es: seq<Event>, k: nat): nat
    requires k <= |es|
  {
    if k == 0 then 0 else Count(es, k - 1) + if IsNode(es[k - 1]) then 1 else 0
  }

  /** Where the collection begins that is open before the i-th event, or the one `d` levels
      further out. */
  function Around(es: seq<Event>, i: nat, d: nat): Option<nat>
    requires i <= |es|
    decreases i
  {
    if i == 0 then None
    else if Closes(es[i - 1]) then Around(es, i - 1, d + 1)
    else if !Opens(es[i - 1]) then Around(es, i - 1, d)
    else if d == 0 then Some(i - 1)
    else Around(es, i - 1, d - 1)
  }

  /** Which of the first `i` events stand for something directly inside a collection. */
  function Inside(es: seq<Event>, p: nat, i: nat): seq<nat>
    requires i <= |es|
  {
    if i == 0 then [] else
      Inside(es, p, i - 1) +
      if (IsNode(es[i - 1]) || es[i - 1].Alias?) && Around(es, i - 1, 0) == Some(p) then [i - 1] else []
  }

  /** The tag an event has, if it has one that is not a lone exclamation mark. */
  predicate Tagged(tag: string, given: Option<string>, default_: string) {
    if given.Some? && given.value != "!" then tag == given.value else tag == default_
  }

  /** Kind, value and tag of a node are those of its event. */
  predicate MadeFrom(n: Node, e: Event) {
    match e
    case ScalarEvent(_, tag, value, _) => n.Scalar? && n.value == value && Tagged(n.tag, tag, "tag:yaml.org,2002:str")
    case SequenceStart(_, tag, _) => n.Sequence? && Tagged(n.tag, tag, "tag:yaml.org,2002:seq")
    case MappingStart(_, tag, _) => n.Mapping? && Tagged(n.tag, tag, "tag:yaml.org,2002:map")
    case _ => false
  }

  /** The event at `j` stands for the r-th node: it is that node's, or an alias of it. */
  predicate Refers(es: seq<Event>, j: nat, r: nat)
    requires j < |es|
  {
    if es[j].Alias? then exists q | 0 <= q < j :: Given(es[q]) == es[j].anchor && r == Count(es, q + 1)
    else r == Count(es, j + 1)
  }

  /** The children of a node are what stands directly inside; a mapping's last key may be
      without a value. */
  ghost predicate Holds(es: seq<Event>, p: nat, i: nat, n: Node)
    requires i <= |es|
  {
    var ps, cs := Inside(es, p, i), Children(n);
    && |cs| == |ps| + (if n.Mapping? && |ps| % 2 == 1 then 1 else 0)
    && (forall m | 0 <= m < |ps| :: 0 <= ps[m] < i && cs[m] >= 1 && Refers(es, ps[m], cs[m]))
    && (|cs| > |ps| ==> cs[|ps|] == 0)
  }

  ghost predicate NodeOk(es: seq<Event>, i: nat, nodes: Graph, p: nat)
    requires i <= |es| && p < i
  {
    IsNode(es[p]) ==>
      && 1 <= Count(es, p + 1) <= |nodes|
      && MadeFrom(nodes[Count(es, p + 1) - 1], es[p]) && Holds(es, p, i, nodes[Count(es, p + 1) - 1])
  }

  predicate EntryOk(es: seq<Event>, i: nat, a: AliasData)
    requires i <= |es|
  {
    exists q | 0 <= q < i :: Given(es[q]) == Some(a.anchor) && a.index == Count(es, q + 1)
  }

  predicate OpenOk(es: seq<Event>, i: nat, ctx: seq<nat>, d: nat)
    requires i <= |es|
  {
    if d < |ctx| then Around(es, i, d).Some? && Around(es, i, d).value < i && ctx[|ctx| - 1 - d] == Count(es, Around(es, i, d).value + 1)
    else Around(es, i, d) == None
  }

  ghost predicate EntriesOk(es: seq<Event>, i: nat, aliases: seq<AliasData>)
    requires i <= |es|
  {
    forall k | 0 <= k < |aliases| :: EntryOk(es, i, aliases[k])
  }

  ghost predicate NodesOk(es: seq<Event>, i: nat, nodes: Graph)
    requires i <= |es|
  {
    forall p | 0 <= p < i :: NodeOk(es, i, nodes, p)
  }

  ghost predicate OpensOk(es: seq<Event>, i: nat, ctx: seq<nat>)
    requires i <= |es|
  {
    forall d: nat :: OpenOk(es, i, ctx, d)
  }

  /** The loader after the first `i` events. */
  ghost predicate Loaded(es: seq<Event>, i: nat, st: Loading)
    requires i <= |es|
  {
    |st.nodes| == Count(es, i) && NodesOk(es, i, st.nodes) && OpensOk(es, i, st.ctx) && EntriesOk(es, i, st.aliases)
  }

  lemma {:induction false} AroundOpens(es: seq<Event>, i: nat, d: nat)
    requires i <= |es| && Around(es, i, d).Some?
    ensures Around(es, i, d).value < i && Opens(es[Around(es, i, d).value])
    decreases i
  {
    if Closes(es[i - 1]) {
      AroundOpens(es, i - 1, d + 1);
    } else if !Opens(es[i - 1]) {
      AroundOpens(es, i - 1, d);
    } else if d > 0 {
      AroundOpens(es, i - 1, d - 1);
    }
  }

  lemma {:induction false} CountGrows(es: seq<Event>, j: nat, k: nat)
    requires j <= k <= |es|
    ensures Count(es, j) <= Count(es, k)
    ensures forall q | j <= q < k && IsNode(es[q]) :: Count(es, j) < Count(es, q + 1) <= Count(es, k)
    decreases k
  {
    if j < k {
      CountGrows(es, j, k - 1);
    }
  }

  /** Different nodes have different numbers. */
  lemma Numbered(es: seq<Event>, p: nat, q: nat)
    requires p < |es| && q < |es| && IsNode(es[p]) && IsNode(es[q]) && p != q
    ensures Count(es, p + 1) != Count(es, q + 1)
  {
    if p < q { CountGrows(es, p + 1, q + 1); } else { CountGrows(es, q + 1, p + 1); }
  }

  // ----- one event more -----

  /** Nothing was put inside `p`. */
  lemma HoldsOn(es: seq<Event>, p: nat, i: nat, n: Node)
    requires i < |es| && Holds(es, p, i, n) && Inside(es, p, i + 1) == Inside(es, p, i)
    ensures Holds(es, p, i + 1, n)
  {
    hide Refers, Inside;
  }

  /** The first `k` children are there, and a key's value is still missing if `k` is odd. */
  predicate Filled(n: Node, k: nat) {
    var cs := Children(n);
    && |cs| == k + (if n.Mapping? && k % 2 == 1 then 1 else 0)
    && (forall m | 0 <= m < k :: cs[m] >= 1) && (|cs| > k ==> cs[k] == 0)
  }

  lemma ChildAdded(n: Node, k: nat, r: nat)
    requires Filled(n, k) && !n.Scalar? && r >= 1
    ensures Filled(AddChild(n, r), k + 1) && Children(AddChild(n, r))[..k + 1] == Children(n)[..k] + [r]
  {
    if n.Mapping? {
      PairAdded(n, k, r);
    }
  }

  lemma PairAdded(n: Node, k: nat, r: nat)
    requires Filled(n, k) && n.Mapping? && r >= 1
    ensures Filled(AddChild(n, r), k + 1) && Children(AddChild(n, r))[..k + 1] == Children(n)[..k] + [r]
  {
    hide Flatten;
    PairsGrow(n.pairs, r);
    var f, f' := Flatten(n.pairs), Children(AddChild(n, r));
    PendingWhen(n, k);
    if k % 2 == 1 {
      assert f' == f[..k] + [r];
    } else {
      assert f' == f + [r, 0] && f[..k] == f;
    }
  }

  lemma PendingWhen(n: Node, k: nat)
    requires Filled(n, k) && n.Mapping?
    ensures Pending(n.pairs) == (k % 2 == 1) && k == if k % 2 == 1 then 2 * |n.pairs| - 1 else 2 * |n.pairs|
  {
    hide Flatten;
    if n.pairs != [] {
      Halved(n.pairs, 2 * |n.pairs| - 2);
      Halved(n.pairs, 2 * |n.pairs| - 1);
    }
  }

  lemma HoldsMore(es: seq<Event>, p: nat, i: nat, n: Node, r: nat)
    requires i < |es| && Holds(es, p, i, n) && !n.Scalar? && r >= 1 && Refers(es, i, r)
    requires Inside(es, p, i + 1) == Inside(es, p, i) + [i]
    ensures Holds(es, p, i + 1, AddChild(n, r))
  {
    hide Refers, Inside, Children, AddChild;
    var ps, cs, cs' := Inside(es, p, i), Children(n), Children(AddChild(n, r));
    var k := |ps|;
    ChildAdded(n, k, r);
    assert (AddChild(n, r)).Mapping? == n.Mapping? by { AddedKind(n, r); }
    forall m | 0 <= m < k ensures cs'[m] == cs[m] && (ps + [i])[m] == ps[m] {
      assert cs'[..k + 1][m] == (cs[..k] + [r])[m];
    }
    assert cs'[..k + 1][k] == r;
  }

  lemma AddedKind(n: Node, r: nat)
    ensures var a := AddChild(n, r); a.Mapping? == n.Mapping? && a.Scalar? == n.Scalar? && a.tag == n.tag
    ensures n.Scalar? ==> AddChild(n, r) == n
  {
  }

  lemma PairsGrow(pairs: seq<Pair>, r: nat)
    ensures Flatten(pairs + [Pair(r, 0)]) == Flatten(pairs) + [r, 0]
    ensures pairs != [] ==>
      var k := |pairs| - 1;
      Flatten(pairs[k := pairs[k].(value := r)]) == Flatten(pairs)[..2 * k + 1] + [r]
  {
    var a, b := Flatten(pairs + [Pair(r, 0)]), Flatten(pairs) + [r, 0];
    forall j | 0 <= j < |a| ensures a[j] == b[j] {
      Halved(pairs + [Pair(r, 0)], j);
      if j < 2 * |pairs| { Halved(pairs, j); }
    }
    if pairs != [] {
      var k := |pairs| - 1;
      var c, d := Flatten(pairs[k := pairs[k].(value := r)]), Flatten(pairs)[..2 * k + 1] + [r];
      forall j | 0 <= j < |c| ensures c[j] == d[j] {
        Halved(pairs[k := pairs[k].(value := r)], j);
        Halved(pairs, j);
      }
    }
  }

  lemma Halved(pairs: seq<Pair>, j: nat)
    requires j < 2 * |pairs|
    ensures Flatten(pairs)[j] == if j % 2 == 0 then pairs[j / 2].key else pairs[j / 2].value
  {
    var f, k := Flatten(pairs), j / 2;
    hide Flatten;
    if j % 2 == 0 { assert j == 2 * k && f[2 * k] == pairs[k].key; } else { assert j == 2 * k + 1 && f[2 * k + 1] == pairs[k].value; }
  }


  lemma {:induction false} NothingInside(es: seq<Event>, p: nat, i: nat)
    requires i <= |es| && i <= p + 1
    ensures Inside(es, p, i) == []
  {
    if i > 0 {
      NothingInside(es, p, i - 1);
      if Around(es, i - 1, 0).Some? { AroundOpens(es, i - 1, 0); }
    }
  }

  lemma InsideNext(es: seq<Event>, p: nat, i: nat)
    requires i < |es|
    ensures Inside(es, p, i + 1) == Inside(es, p, i) +
      if (IsNode(es[i]) || es[i].Alias?) && Around(es, i, 0) == Some(p) then [i] else []
  {
  }

  /** The nodes when what the i-th event stands for has been hung: the new node, if it is
      one, is there already. */
  ghost predicate Ready(es: seq<Event>, i: nat, st: Loading)
    requires i < |es|
  {
    && |st.nodes| == Count(es, i + 1) && NodesOk(es, i, st.nodes) && OpensOk(es, i, st.ctx)
    && (IsNode(es[i]) ==> st.nodes != [] && MadeFrom(st.nodes[|st.nodes| - 1], es[i]) && Children(st.nodes[|st.nodes| - 1]) == [])
  }

  lemma ReadyAt(es: seq<Event>, i: nat, st: Loading, p: nat)
    requires i < |es| && Ready(es, i, st) && p <= i && IsNode(es[p])
    ensures 1 <= Count(es, p + 1) <= |st.nodes|
    ensures var n := st.nodes[Count(es, p + 1) - 1]; MadeFrom(n, es[p]) && if p < i then Holds(es, p, i, n) else Holds(es, i, i + 1, n)
  {
    hide Inside, Children, MadeFrom, Holds, Count, Around;
    if p < i {
      assert NodeOk(es, i, st.nodes, p);
    } else {
      HoldsNothing(es, i, st.nodes[|st.nodes| - 1]);
    }
  }

  lemma HangGoes(st: Loading, r: nat)
    requires Hang(st, r).Going?
    ensures var t := Hang(st, r).state;
      && t.ctx == st.ctx && t.aliases == st.aliases
      && if st.ctx == [] then t.nodes == st.nodes else
        var parent := st.ctx[|st.ctx| - 1];
        1 <= parent <= |st.nodes| && !st.nodes[parent - 1].Scalar?
        && t.nodes == st.nodes[parent - 1 := AddChild(st.nodes[parent - 1], r)]
  {
  }

  lemma Hung(es: seq<Event>, i: nat, st: Loading, r: nat, p: nat)
    requires i < |es| && (IsNode(es[i]) || es[i].Alias?) && r >= 1 && Refers(es, i, r)
    requires Ready(es, i, st) && Hang(st, r).Going? && p <= i
    ensures NodeOk(es, i + 1, Hang(st, r).state.nodes, p)
  {
    hide Refers, Inside, Children, MadeFrom, Holds, Count, Around, AddChild, Hang;
    HangGoes(st, r);
    if IsNode(es[p]) {
      ReadyAt(es, i, st, p);
      var o, n := Around(es, i, 0), st.nodes[Count(es, p + 1) - 1];
      assert OpenOk(es, i, st.ctx, 0);
      hide Ready, IsNode;
      InsideNext(es, p, i);
      if o.Some? { AroundOpens(es, i, 0); }
      if o == Some(p) {
        if p < i { HoldsMore(es, p, i, n, r); }
        MadeStays(n, es[p], r);
      } else {
        if o.Some? { Numbered(es, p, o.value) by { assert IsNode(es[o.value]) by { NodeOpens(es[o.value]); } } }
        if p < i { HoldsOn(es, p, i, n); }
      }
    }
  }

  lemma NodeOpens(e: Event)
    requires Opens(e)
    ensures IsNode(e)
  {
  }

  lemma CountNext(es: seq<Event>, p: nat)
    requires p < |es|
    ensures Count(es, p + 1) == Count(es, p) + if IsNode(es[p]) then 1 else 0
  {
  }

  lemma MadeStays(n: Node, e: Event, r: nat)
    requires MadeFrom(n, e)
    ensures MadeFrom(AddChild(n, r), e)
  {
    AddedKind(n, r);
  }

  lemma HoldsNothing(es: seq<Event>, i: nat, n: Node)
    requires i < |es| && Children(n) == []
    ensures Holds(es, i, i + 1, n)
  {
    NothingInside(es, i, i + 1);
  }

  /** An event that stands for something: the state once that is hung. */
  lemma HungAll(es: seq<Event>, i: nat, st: Loading, r: nat)
    requires i < |es| && (IsNode(es[i]) || es[i].Alias?) && r >= 1 && Refers(es, i, r)
    requires Ready(es, i, st) && Hang(st, r).Going?
    ensures var t := Hang(st, r).state;
      && |t.nodes| == |st.nodes| && t.ctx == st.ctx && t.aliases == st.aliases
      && NodesOk(es, i + 1, t.nodes)
  {
    var t := Hang(st, r).state;
    assert |t.nodes| == |st.nodes| && t.ctx == st.ctx && t.aliases == st.aliases;
    hide Hang, Ready, NodeOk, Refers;
    var next := i + 1;
    forall p | 0 <= p < next ensures NodeOk(es, next, t.nodes, p) {
      Hung(es, i, st, r, p);
    }
  }

  // ----- the open collections and the anchors -----

  lemma OpenSame(es: seq<Event>, i: nat, ctx: seq<nat>)
    requires i < |es| && !Opens(es[i]) && !Closes(es[i]) && OpensOk(es, i, ctx)
    ensures OpensOk(es, i + 1, ctx)
  {
    var next := i + 1;
    forall d: nat ensures OpenOk(es, next, ctx, d) {
      assert OpenOk(es, i, ctx, d);
      assert Around(es, i + 1, d) == Around(es, i, d);
      hide Around, Count;
    }
  }

  lemma OpenMore(es: seq<Event>, i: nat, ctx: seq<nat>)
    requires i < |es| && Opens(es[i]) && OpensOk(es, i, ctx)
    ensures OpensOk(es, i + 1, ctx + [Count(es, i + 1)])
  {
    var next := i + 1;
    var more := ctx + [Count(es, i + 1)];
    forall d: nat ensures OpenOk(es, next, more, d) {
      if d == 0 {
        assert Around(es, i + 1, 0) == Some(i);
      } else {
        assert OpenOk(es, i, ctx, d - 1);
        assert Around(es, i + 1, d) == Around(es, i, d - 1);
        hide Around, Count;
      }
    }
  }

  lemma OpenLess(es: seq<Event>, i: nat, ctx: seq<nat>)
    requires i < |es| && Closes(es[i]) && ctx != [] && OpensOk(es, i, ctx)
    ensures OpensOk(es, i + 1, ctx[..|ctx| - 1])
  {
    var next := i + 1;
    var less := ctx[..|ctx| - 1];
    forall d: nat ensures OpenOk(es, next, less, d) {
      assert OpenOk(es, i, ctx, d + 1);
      assert Around(es, i + 1, d) == Around(es, i, d + 1);
      hide Around, Count;
    }
  }

  lemma EntriesSame(es: seq<Event>, i: nat, aliases: seq<AliasData>)
    requires i < |es| && EntriesOk(es, i, aliases)
    ensures EntriesOk(es, i + 1, aliases)
  {
    hide Count;
    forall k | 0 <= k < |aliases| ensures EntryOk(es, i + 1, aliases[k]) {
      assert EntryOk(es, i, aliases[k]);
    }
  }

  lemma EntriesMore(es: seq<Event>, i: nat, aliases: seq<AliasData>, anchor: string)
    requires i < |es| && EntriesOk(es, i, aliases) && Given(es[i]) == Some(anchor)
    ensures EntriesOk(es, i + 1, aliases + [AliasData(anchor, Count(es, i + 1))])
  {
    EntriesSame(es, i, aliases);
    assert EntryOk(es, i + 1, AliasData(anchor, Count(es, i + 1))) by { hide Count; }
  }

  lemma {:induction false} FoundAmong(aliases: seq<AliasData>, anchor: string) returns (k: nat)
    requires Registered(aliases, anchor)
    ensures k < |aliases| && aliases[k].anchor == anchor && FindAlias(aliases, anchor) == aliases[k].index
  {
    if aliases[0].anchor == anchor {
      k := 0;
    } else {
      var j :| 0 <= j < |aliases| && aliases[j].anchor == anchor;
      assert aliases[1..][j - 1].anchor == anchor;
      k := FoundAmong(aliases[1..], anchor);
      k := k + 1;
    }
  }

  lemma AliasRefers(es: seq<Event>, i: nat, aliases: seq<AliasData>)
    requires i < |es| && es[i].Alias? && es[i].anchor.Some? && EntriesOk(es, i, aliases) && Registered(aliases, es[i].anchor.value)
    ensures var r := FindAlias(aliases, es[i].anchor.value); r >= 1 && Refers(es, i, r)
  {
    hide Count;
    var k := FoundAmong(aliases, es[i].anchor.value);
    assert EntryOk(es, i, aliases[k]);
    var q :| 0 <= q < i && Given(es[q]) == Some(aliases[k].anchor) && aliases[k].index == Count(es, q + 1);
    CountNext(es, q);
  }

  // ----- event by event -----

  /** A node put on the stack and hung. */
  lemma PutLoads(es: seq<Event>, i: nat, st: Loading, n: Node)
    requires i < |es| && Loaded(es, i, st) && IsNode(es[i]) && Put(st, n, Given(es[i])).Going?
    requires MadeFrom(n, es[i]) && Children(n) == []
    ensures var t := Put(st, n, Given(es[i])).state;
      && |t.nodes| == Count(es, i + 1) && NodesOk(es, i + 1, t.nodes) && t.ctx == st.ctx && EntriesOk(es, i + 1, t.aliases)
  {
    hide Refers, MadeFrom, Holds, Count, Around, OpenOk, EntriesOk, Hang, Registered, IsNode, Given;
    CountNext(es, i);
    var index := |st.nodes| + 1;
    var aliases := if Given(es[i]).Some? then st.aliases + [AliasData(Given(es[i]).value, index)] else st.aliases;
    var put := Loading(st.nodes + [n], aliases, st.ctx);
    EntriesSame(es, i, st.aliases);
    if Given(es[i]).Some? {
      EntriesMore(es, i, st.aliases, Given(es[i]).value);
    }
    OwnNode(es, i);
    NodesMore(es, i, st.nodes, n);
    HungAll(es, i, put, index);
  }

  lemma NodesMore(es: seq<Event>, i: nat, nodes: Graph, n: Node)
    requires i <= |es| && NodesOk(es, i, nodes)
    ensures NodesOk(es, i, nodes + [n])
  {
    hide Count, Holds, MadeFrom, IsNode;
    forall p | 0 <= p < i ensures NodeOk(es, i, nodes + [n], p) {
      assert NodeOk(es, i, nodes, p);
    }
  }

  lemma OwnNode(es: seq<Event>, i: nat)
    requires i < |es| && IsNode(es[i])
    ensures Refers(es, i, Count(es, i + 1))
  {
    hide Count;
  }

  lemma StepLoads(es: seq<Event>, i: nat, st: Loading)
    requires i < |es| && Loaded(es, i, st) && Step(st, es[i]).Going?
    ensures Loaded(es, i + 1, Step(st, es[i]).state)
  {
    hide Count, NodesOk, OpensOk, EntriesOk, Put, Hang, Registered, Holds, Refers;
    CountNext(es, i);
    match es[i]
    case Alias(anchor) =>
      EntriesSame(es, i, st.aliases);
      AliasRefers(es, i, st.aliases);
      OpenSame(es, i, st.ctx);
      HungAll(es, i, st, FindAlias(st.aliases, anchor.value));
    case ScalarEvent(anchor, tag, value, _) =>
      OpenSame(es, i, st.ctx);
      PutLoads(es, i, st, Scalar(TagOr(tag, SCALAR_TAG), value));
    case SequenceStart(anchor, tag, _) =>
      OpenMore(es, i, st.ctx);
      PutLoads(es, i, st, Sequence(TagOr(tag, SEQUENCE_TAG), []));
    case MappingStart(anchor, tag, _) =>
      OpenMore(es, i, st.ctx);
      PutLoads(es, i, st, Mapping(TagOr(tag, MAPPING_TAG), []));
    case _ =>
      EntriesSame(es, i, st.aliases);
      OpenLess(es, i, st.ctx);
      LeftAll(es, i, st.nodes);
  }

  /** The end of a collection changes no node. */
  lemma LeftAll(es: seq<Event>, i: nat, nodes: Graph)
    requires i < |es| && Closes(es[i]) && NodesOk(es, i, nodes)
    ensures NodesOk(es, i + 1, nodes)
  {
    hide Count, Holds, MadeFrom, Inside;
    var next := i + 1;
    forall p | 0 <= p < next ensures NodeOk(es, next, nodes, p) {
      if p < i && IsNode(es[p]) {
        assert NodeOk(es, i, nodes, p);
        InsideNext(es, p, i);
        HoldsOn(es, p, i, nodes[Count(es, p + 1) - 1]);
      }
    }
  }

  lemma {:induction false} StepsLoad(es: seq<Event>, i: nat, st: Loading)
    requires i <= |es| && Loaded(es, i, st) && Steps(st, es[i..]).Going?
    ensures Loaded(es, |es|, Steps(st, es[i..]).state)
    decreases |es| - i
  {
    hide Loaded, Step;
    if i < |es| {
      assert es[i..][0] == es[i] && es[i..][1..] == es[i + 1..];
      StepLoads(es, i, st);
      StepsLoad(es, i + 1, Step(st, es[i]).state);
    } else {
      assert es[i..] == [] && i == |es|;
    }
  }

  lemma StartLoads(es: seq<Event>)
    ensures Loaded(es, 0, START)
  {
  }

  /** Any events that load: there is a node for each event of one, in their order, with its
      kind, value and tag, and with the default tag of its kind if the event has none but a
      lone exclamation mark. Its children, in order, are what the events directly inside of
      it stand for: their nodes, and the nodes of their anchors. */
  lemma LoadedExactly(es: seq<Event>, p: nat)
    requires Steps(START, es).Going? && p < |es| && IsNode(es[p])
    ensures var g := Steps(START, es).state.nodes;
      && |g| == Count(es, |es|) && 1 <= Count(es, p + 1) <= |g|
      && MadeFrom(g[Count(es, p + 1) - 1], es[p]) && Holds(es, p, |es|, g[Count(es, p + 1) - 1])
  {
    hide Count, Holds, MadeFrom, Steps;
    StartLoads(es);
    assert es[0..] == es;
    StepsLoad(es, 0, START);
    assert NodeOk(es, |es|, Steps(START, es).state.nodes, p);
  }


  // ----- the implicit flags of a dump -----

  /** An event with its tag left out, if it says that may be. */
  function Bared(e: Event): Event {
    if IsNode(e) && e.implicit_ then e.(tag := None) else e
  }

  function BaredAll(es: seq<Event>): seq<Event> {
    if es == [] then [] else [Bared(es[0])] + BaredAll(es[1..])
  }

  /** A dumped node's event says so if and only if the node has the tag it would be given
      without one. */
  lemma ImplicitExactly(n: Node, id: nat)
    ensures Opening(n, id).implicit_ <==> MadeFrom(n, Opening(n, id).(tag := None))
    ensures MadeFrom(n, Opening(n, id)) <==> n.tag != "!"
  {
    assert |SCALAR_TAG| > 1 && |SEQUENCE_TAG| > 1 && |MAPPING_TAG| > 1;
  }

  /** Leaving the tag out makes no difference. */
  ghost predicate Fair(e: Event) {
    forall st :: Step(st, Bared(e)) == Step(st, e)
  }

  lemma OpeningFair(n: Node, id: nat)
    ensures Fair(Opening(n, id)) && forall e | e in Closing(n) :: Fair(e)
  {
    hide Put, Leave, Hang, Enter;
    ImplicitExactly(n, id);
  }

  lemma {:induction false} RenderFair(g: Graph, ids: Ids, w: Walk)
    requires |ids| == |g|
    ensures forall e | e in Render(g, ids, w) :: Fair(e)
    decreases w
  {
    hide Fair, Opening, Closing;
    match w
    case First(i, kids) =>
      RenderAllFair(g, ids, kids);
      if 1 <= i <= |g| { OpeningFair(g[i - 1], ids[i - 1]); }
    case Again(i) =>
      if 1 <= i <= |g| { AliasFair(AnchorOf(ids[i - 1])); }
  }

  lemma AliasFair(anchor: Option<string>)
    ensures Fair(Alias(anchor))
  {
  }

  lemma {:induction false} RenderAllFair(g: Graph, ids: Ids, ws: Walks)
    requires |ids| == |g|
    ensures forall e | e in RenderAll(g, ids, ws) :: Fair(e)
    decreases ws
  {
    hide Fair, Render;
    match ws
    case Done =>
    case Next(w, rest) =>
      RenderFair(g, ids, w);
      RenderAllFair(g, ids, rest);
  }

  lemma {:induction false} StepsBared(st: Loading, es: seq<Event>)
    requires forall e | e in es :: Fair(e)
    ensures Steps(st, BaredAll(es)) == Steps(st, es)
    decreases |es|
  {
    hide Step, Bared;
    if es != [] {
      assert BaredAll(es)[1..] == BaredAll(es[1..]);
      assert Fair(es[0]);
      var r := Step(st, es[0]);
      if r.Going? {
        StepsBared(r.state, es[1..]);
      }
    }
  }

  /** The tags that a dump says may be left out can be: the same is loaded without them. */
  lemma ImplicitTagsComeBack(g: Graph)
    requires YamlGraph.Sound(g) && g != []
    ensures var es := Render(g, RootIds(g), RootWalk(g)); Steps(START, BaredAll(es)) == Steps(START, es)
  {
    hide Render, RootIds, RootWalk, Fair, Steps;
    RenderFair(g, RootIds(g), RootWalk(g));
    StepsBared(START, Render(g, RootIds(g), RootWalk(g)));
  }
}
