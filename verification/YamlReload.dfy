/** Loading what was dumped: one walk over the events rebuilds the walk over the graph. */
module YamlReload {
  import opened Collections
  import opened Options
  import opened YamlAnchors
  import opened YamlDumper
  import opened YamlGraph
  import opened YamlLoader
  import opened YamlRoundTrip

  // ----- anchors on the way -----

  /** No anchor is given twice. */
  ghost predicate Unique(ids: Ids) {
    forall j, k | 0 <= j < k < |ids| && ids[j] != 0 :: ids[j] != ids[k]
  }

  /** Every node met again has an anchor. */
  ghost predicate Named(w: Walk, ids: Ids) {
    match w
    case First(_, kids) => NamedAll(kids, ids)
    case Again(i) => 1 <= i <= |ids| && ids[i - 1] != 0
  }

  ghost predicate NamedAll(ws: Walks, ids: Ids) {
    match ws
    case Done => true
    case Next(w, rest) => Named(w, ids) && NamedAll(rest, ids)
  }

  /** The alias entries once the nodes in `o` are loaded. */
  function AliasesOf(o: seq<nat>, ids: Ids): seq<AliasData> {
    if o == [] then [] else
      var k := |o| - 1;
      AliasesOf(o[..k], ids) +
      if 1 <= o[k] <= |ids| && ids[o[k] - 1] != 0 then [AliasData(AnchorText(ids[o[k] - 1]), |o|)] else []
  }

  lemma AliasesAppend(o: seq<nat>, i: nat, ids: Ids)
    requires 1 <= i <= |ids|
    ensures AliasesOf(o + [i], ids) == AliasesOf(o, ids) +
      if ids[i - 1] != 0 then [AliasData(AnchorText(ids[i - 1]), |o| + 1)] else []
  {
    hide AnchorText;
    var s := o + [i];
    assert s[..|o|] == o && s[|o|] == i;
  }

  lemma {:induction false} FindAliasAppend(a: seq<AliasData>, x: AliasData, anchor: string)
    ensures Registered(a + [x], anchor) <==> Registered(a, anchor) || x.anchor == anchor
    ensures FindAlias(a + [x], anchor) ==
      if Registered(a, anchor) then FindAlias(a, anchor) else if x.anchor == anchor then x.index else 0
  {
    assert (a + [x])[|a|] == x;
    assert forall k | 0 <= k < |a| :: (a + [x])[k] == a[k];
    if a == [] {
      assert [] + [x] == [x];
    } else {
      assert (a + [x])[1..] == a[1..] + [x];
      FindAliasAppend(a[1..], x, anchor);
      assert Registered(a, anchor) <==> a[0].anchor == anchor || Registered(a[1..], anchor) by {
        assert forall k | 0 < k < |a| :: a[k] == a[1..][k - 1];
      }
    }
  }

  /** An anchor is registered just when its node was met, at that node's position. */
  lemma {:induction false} AliasFound(o: seq<nat>, ids: Ids, i: nat)
    requires Unique(ids) && NoRepeats(o) && 1 <= i <= |ids| && ids[i - 1] != 0
    ensures var a, text := AliasesOf(o, ids), AnchorText(ids[i - 1]);
      && (Registered(a, text) <==> i in o)
      && (i in o ==> FindAlias(a, text) == Pos(o, i))
  {
    hide AnchorText;
    if o != [] {
      var k, text := |o| - 1, AnchorText(ids[i - 1]);
      var front, x := o[..k], o[k];
      assert o == front + [x];
      assert NoRepeats(front);
      AliasFound(front, ids, i);
      var a := AliasesOf(front, ids);
      assert a + [] == a;
      if 1 <= x <= |ids| && ids[x - 1] != 0 {
        var d := AliasData(AnchorText(ids[x - 1]), |o|);
        FindAliasAppend(a, d, text);
        if d.anchor == text {
          AnchorTextInjective(ids[x - 1], ids[i - 1]);
          assert !(x < i) && !(i < x);
        }
      }
      if i in front {
        PosPrefix(front, [x], i);
      } else if i == x {
        PosLast(front, i);
      }
    }
  }

  // ----- room on the stacks -----

  /** The graph is within the stacks' limits, and the anchors are as they should be. */
  ghost predicate Setting(g: Graph, ids: Ids) {
    var n := |g|;
    && n <= LIMIT && |ids| == n && Unique(ids)
    && forall i | 0 <= i < n :: |Children(g[i])| <= Capacity(g[i])
  }

  function Capacity(n: Node): nat {
    if n.Mapping? then 2 * LIMIT else LIMIT
  }

  /** The collection can take `c` more children. */
  ghost predicate Roomy(n: Node, c: nat) {
    var limit := Capacity(n);
    match n
    case Scalar(_, _) => false
    case Sequence(_, items) => |items| + c <= limit
    case Mapping(_, pairs) => 2 * |pairs| + c <= limit + if Pending(pairs) then 1 else 0
  }

  lemma AddRoom(n: Node, index: nat, c: nat)
    requires Roomy(n, c + 1) && index != 0
    ensures !Full(n) && !n.Scalar? && Roomy(AddChild(n, index), c)
  {
  }

  ghost function UpTo(n: nat): (r: set<nat>)
    ensures |r| == n && forall i: nat :: i in r <==> 1 <= i <= n
  {
    if n == 0 then {} else UpTo(n - 1) + {n}
  }

  lemma Pigeons(o: seq<nat>, n: nat)
    requires NoRepeats(o) && Within(n, o)
    ensures |o| <= n
  {
    SizeOfImage(o, |o|);
    Fewer(set k | 0 <= k < |o| :: o[k], UpTo(n));
  }

  lemma {:induction false} SizeOfImage(o: seq<nat>, m: nat)
    requires NoRepeats(o) && m <= |o|
    ensures |(set k | 0 <= k < m :: o[k])| == m
  {
    if m > 0 {
      SizeOfImage(o, m - 1);
      assert (set k | 0 <= k < m :: o[k]) == (set k | 0 <= k < m - 1 :: o[k]) + {o[m - 1]};
    }
  }

  // ----- the loader along the walk -----

  /** The loader after the nodes in `o`, with room for `c` more children where it hangs them. */
  ghost predicate At(st: Loading, ids: Ids, o: seq<nat>, c: nat) {
    var n, top := |st.nodes|, Top(st.ctx);
    && n == |o| && st.aliases == AliasesOf(o, ids) && |st.ctx| <= n
    && (st.ctx != [] ==> 1 <= top <= n && Roomy(st.nodes[top - 1], c))
  }

  function Top(ctx: seq<nat>): nat {
    if ctx == [] then 0 else ctx[|ctx| - 1]
  }

  /** All of `s` hung below the innermost open collection, if any. */
  function Hung(nodes: Graph, top: nat, s: seq<nat>): (r: Graph)
    ensures |r| == |nodes|
  {
    if 1 <= top <= |nodes| then nodes[top - 1 := AddAll(nodes[top - 1], s)] else nodes
  }

  /** The loader after it has also met `f` for the first time, and hung `s`. */
  function After(g: Graph, ids: Ids, st: Loading, o: seq<nat>, f: seq<nat>, s: seq<nat>): Loading {
    Loading(Hung(st.nodes, Top(st.ctx), s) + Loaded(g, f, o + f), AliasesOf(o + f, ids), st.ctx)
  }

  lemma AddOne(n: Node, index: nat)
    ensures AddAll(n, [index]) == AddChild(n, index)
  {
    assert [index][1..] == [];
  }

  lemma HangIs(st: Loading, ids: Ids, o: seq<nat>, index: nat, c: nat)
    requires At(st, ids, o, c + 1) && index != 0
    ensures Hang(st, index) == Going(st.(nodes := Hung(st.nodes, Top(st.ctx), [index])))
  {
    if st.ctx != [] {
      var n := st.nodes[Top(st.ctx) - 1];
      AddRoom(n, index, c);
      AddOne(n, index);
    }
  }

  /** An alias hangs the node it stands for. */
  lemma AliasStep(g: Graph, ids: Ids, i: nat, o: seq<nat>, st: Loading)
    requires Setting(g, ids) && NoRepeats(o) && Within(|g|, o) && i in o && ids[i - 1] != 0 && At(st, ids, o, 1)
    ensures Steps(st, [Alias(AnchorOf(ids[i - 1]))]) == Going(After(g, ids, st, o, [], Positions(o, [i])))
  {
    hide AnchorText, Steps, Hang;
    StepsOne(st, Alias(AnchorOf(ids[i - 1])));
    AliasFound(o, ids, i);
    PosFinds(o, i);
    HangIs(st, ids, o, Pos(o, i), 0);
    assert Positions(o, [i]) == [Pos(o, i)];
    assert o + [] == o && Loaded(g, [], o) == [];
    var nodes := Hung(st.nodes, Top(st.ctx), [Pos(o, i)]);
    assert nodes + [] == nodes;
  }

  /** A node met first is put on the stack, open if it is a collection. */
  lemma OpenStep(g: Graph, ids: Ids, i: nat, o: seq<nat>, st: Loading)
    requires Setting(g, ids) && NoRepeats(o) && Within(|g|, o) && i !in o && 1 <= i <= |g| && At(st, ids, o, 1)
    ensures var n := g[i - 1];
      Step(st, Opening(n, ids[i - 1])) == Going(Loading(Hung(st.nodes, Top(st.ctx), [|o| + 1]) + [Opened(n)],
        AliasesOf(o + [i], ids), if n.Scalar? then st.ctx else st.ctx + [|o| + 1]))
  {
    hide AnchorText, AddAll, AliasesOf, Opened, Step, Opening, Put, Hung, NoRepeats, Within;
    var n := g[i - 1];
    Extended(g, o, i);
    Pigeons(o + [i], |g|);
    AliasesAppend(o, i, ids);
    if ids[i - 1] != 0 {
      AliasFound(o, ids, i);
    }
    PutIs(st, ids, o, Opened(n), AnchorOf(ids[i - 1]));
    OpeningIs(n, ids[i - 1], st);
  }

  lemma OpeningIs(n: Node, id: nat, st: Loading)
    ensures Step(st, Opening(n, id)) ==
      if n.Scalar? then Put(st, Opened(n), AnchorOf(id)) else YamlLoader.Enter(Put(st, Opened(n), AnchorOf(id)))
  {
    hide Put, YamlLoader.Enter, AnchorText;
  }

  lemma PutIs(st: Loading, ids: Ids, o: seq<nat>, n: Node, anchor: Option<string>)
    requires At(st, ids, o, 1) && |o| < LIMIT && (anchor.Some? ==> !Registered(st.aliases, anchor.value))
    ensures Put(st, n, anchor) == Going(Loading(Hung(st.nodes, Top(st.ctx), [|o| + 1]) + [n],
      if anchor.Some? then st.aliases + [AliasData(anchor.value, |o| + 1)] else st.aliases, st.ctx))
  {
    var index := |o| + 1;
    if st.ctx != [] {
      var parent := st.nodes[Top(st.ctx) - 1];
      AddRoom(parent, index, 0);
      AddOne(parent, index);
    }
  }

  /** Ready to load a walk. */
  ghost predicate Ready(g: Graph, ids: Ids, o: seq<nat>, st: Loading, c: nat) {
    var n := |g|;
    Setting(g, ids) && NoRepeats(o) && Within(n, o) && At(st, ids, o, c)
  }

  lemma HungJoin(nodes: Graph, more: Graph, top: nat, s: seq<nat>, t: seq<nat>)
    requires top <= |nodes|
    ensures Hung(nodes + more, top, s) == Hung(nodes, top, s) + more
    ensures Hung(Hung(nodes, top, s), top, t) == Hung(nodes, top, s + t)
  {
    if 1 <= top {
      AddAllJoin(nodes[top - 1], s, t);
    }
  }

  lemma {:induction false} AddAllJoin(n: Node, s: seq<nat>, t: seq<nat>)
    ensures AddAll(AddAll(n, s), t) == AddAll(n, s + t)
    decreases |s|
  {
    if s == [] {
      assert s + t == t;
    } else {
      assert (s + t)[0] == s[0] && (s + t)[1..] == s[1..] + t;
      AddAllJoin(AddChild(n, s[0]), s[1..], t);
    }
  }

  /** One child loaded, the loader is ready for the next ones. */
  lemma ReadyNext(g: Graph, ids: Ids, w: Walk, o: seq<nat>, st: Loading, c: nat)
    requires Ready(g, ids, o, st, c + 1) && Explored(g, w, o)
    ensures Ready(g, ids, o + Firsts(w), After(g, ids, st, o, Firsts(w), Positions(o + Firsts(w), [w.node])), c)
  {
    hide AliasesOf, Pos, Loaded, Setting;
    var f := Firsts(w);
    WalkCovers(g, w, o);
    CoveredSoFar(g, o, f, Met(w), [w.node]);
    PosFinds(o + f, w.node);
    var p := Pos(o + f, w.node);
    assert Positions(o + f, [w.node]) == [p];
    if st.ctx != [] {
      AddRoom(st.nodes[Top(st.ctx) - 1], p, c);
      AddOne(st.nodes[Top(st.ctx) - 1], p);
    }
  }

  /** What two loads in a row come to. */
  lemma AfterThen(g: Graph, ids: Ids, st: Loading, o: seq<nat>, f: seq<nat>, f': seq<nat>, x: nat, cs: seq<nat>, top: nat)
    requires Closed(g, f, o + f) && x in o + f && top == Top(st.ctx) <= |st.nodes|
    ensures After(g, ids, After(g, ids, st, o, f, Positions(o + f, [x])), o + f, f', Positions(o + f + f', cs))
      == After(g, ids, st, o, f + f', Positions(o + (f + f'), [x] + cs))
  {
    hide AliasesOf, Pos, Loaded, Closed, AddAll;
    var o', p := o + f + f', Pos(o + f, x);
    assert o + (f + f') == o';
    PosPrefix(o + f, f', x);
    assert Positions(o + f, [x]) == [p];
    PositionsHead(o', x, cs);
    ClosedGrow(g, f, o + f, f');
    LoadedJoin(g, f, f', o');
    var l, l' := Loaded(g, f, o'), Loaded(g, f', o');
    HungJoin(st.nodes, l, top, [p], Positions(o', cs));
    HungJoin(Hung(st.nodes, top, [p]), l, top, Positions(o', cs), []);
    assert Hung(st.nodes, top, [p] + Positions(o', cs)) + l + l' == Hung(st.nodes, top, [p] + Positions(o', cs)) + (l + l');
  }

  /** The events of a walk load its nodes, hang the first of them, and leave the
      open collections as they were. */
  lemma {:induction false} LoadWalk(g: Graph, ids: Ids, w: Walk, o: seq<nat>, st: Loading)
    requires Ready(g, ids, o, st, 1) && Explored(g, w, o) && Named(w, ids)
    ensures |ids| == |g|
    ensures Steps(st, Render(g, ids, w)) == Going(After(g, ids, st, o, Firsts(w), Positions(o + Firsts(w), [w.node])))
    decreases w, 2
  {
    hide Ready, Steps, ExploredAll, NamedAll, After, RenderAll, Positions, Opening, Closing, FirstsAll, Children;
    match w
    case Again(i) =>
      LoadAgain(g, ids, i, o, st);
    case First(i, kids) =>
      LoadFirst(g, ids, i, kids, o, st);
  }

  lemma LoadAgain(g: Graph, ids: Ids, i: nat, o: seq<nat>, st: Loading)
    requires Ready(g, ids, o, st, 1) && Explored(g, Again(i), o) && Named(Again(i), ids)
    ensures |ids| == |g|
    ensures Steps(st, Render(g, ids, Again(i))) == Going(After(g, ids, st, o, Firsts(Again(i)), Positions(o + Firsts(Again(i)), [i])))
  {
    AliasStep(g, ids, i, o, st);
    assert o + [] == o;
  }

  lemma LoadFirst(g: Graph, ids: Ids, i: nat, kids: Walks, o: seq<nat>, st: Loading)
    requires Ready(g, ids, o, st, 1) && 1 <= i <= |g| && i !in o
    requires ExploredAll(g, Children(g[i - 1]), kids, o + [i]) && NamedAll(kids, ids)
    ensures |ids| == |g|
    ensures Steps(st, [Opening(g[i - 1], ids[i - 1])] + RenderAll(g, ids, kids) + Closing(g[i - 1]))
      == Going(After(g, ids, st, o, [i] + FirstsAll(kids), Positions(o + ([i] + FirstsAll(kids)), [i])))
    decreases kids, 2
  {
    hide Ready, Steps, ExploredAll, NamedAll, After, RenderAll, Opening, Closing, Positions, Opened, Children, Step;
    hide AliasesOf, Hung, NoRepeats, Within, FirstsAll;
    var n, f := g[i - 1], FirstsAll(kids);
    ReadyIs(g, ids, o, st, 1);
    var st1 := Put1(g, ids, i, o, st);
    LoadInside(g, ids, i, kids, o, st1);
    var st2 := if n.Scalar? then st1 else After(g, ids, st1, o + [i], f, Positions(o + [i] + f, Children(n)));
    FirstDone(g, ids, i, kids, o, st, st1);
    StepsChain(st, Opening(n, ids[i - 1]), RenderAll(g, ids, kids), Closing(n), st1, st2);
  }

  lemma StepsChain(st: Loading, e: Event, inner: seq<Event>, closing: seq<Event>, st1: Loading, st2: Loading)
    requires Step(st, e) == Going(st1) && Steps(st1, inner) == Going(st2)
    ensures Steps(st, [e] + inner + closing) == Steps(st2, closing)
  {
    hide Step, Steps;
    StepsOne(st, e);
    StepsJoin(st, [e], inner);
    StepsJoin(st, [e] + inner, closing);
  }

  /** The loader once a node met first is on the stack. */
  lemma Put1(g: Graph, ids: Ids, i: nat, o: seq<nat>, st: Loading) returns (st1: Loading)
    requires Ready(g, ids, o, st, 1) && i !in o && 1 <= i <= |g|
    ensures |ids| == |g| && Step(st, Opening(g[i - 1], ids[i - 1])) == Going(st1)
    ensures st1 == Loading(Hung(st.nodes, Top(st.ctx), [|o| + 1]) + [Opened(g[i - 1])], AliasesOf(o + [i], ids),
                           if g[i - 1].Scalar? then st.ctx else st.ctx + [|o| + 1])
    ensures |st.nodes| == |o| && NoRepeats(o + [i]) && Within(|g|, o + [i])
    ensures !g[i - 1].Scalar? ==> Ready(g, ids, o + [i], st1, |Children(g[i - 1])|)
  {
    hide AliasesOf, Opening, AnchorText;
    OpenStep(g, ids, i, o, st);
    var n := g[i - 1];
    st1 := Loading(Hung(st.nodes, Top(st.ctx), [|o| + 1]) + [Opened(n)], AliasesOf(o + [i], ids),
                   if n.Scalar? then st.ctx else st.ctx + [|o| + 1]);
    Extended(g, o, i);
    assert |Children(n)| <= Capacity(n);
  }

  /** The children of an opened node, loaded below it. */
  lemma LoadInside(g: Graph, ids: Ids, i: nat, kids: Walks, o: seq<nat>, st1: Loading)
    requires 1 <= i <= |g| && ExploredAll(g, Children(g[i - 1]), kids, o + [i]) && NamedAll(kids, ids)
    requires !g[i - 1].Scalar? ==> Ready(g, ids, o + [i], st1, |Children(g[i - 1])|)
    requires |ids| == |g|
    ensures g[i - 1].Scalar? ==> kids == Done && Steps(st1, RenderAll(g, ids, kids)) == Going(st1)
    ensures !g[i - 1].Scalar? ==>
      Steps(st1, RenderAll(g, ids, kids)) == Going(After(g, ids, st1, o + [i], FirstsAll(kids), Positions(o + [i] + FirstsAll(kids), Children(g[i - 1]))))
    decreases kids, 1
  {
    if !g[i - 1].Scalar? {
      LoadWalks(g, ids, Children(g[i - 1]), kids, o + [i], st1);
    }
  }

  lemma {:induction false} LoadWalks(g: Graph, ids: Ids, cs: seq<nat>, ws: Walks, o: seq<nat>, st: Loading)
    requires Ready(g, ids, o, st, |cs|) && ExploredAll(g, cs, ws, o) && NamedAll(ws, ids)
    ensures |ids| == |g|
    ensures Steps(st, RenderAll(g, ids, ws)) == Going(After(g, ids, st, o, FirstsAll(ws), Positions(o + FirstsAll(ws), cs)))
    decreases ws, 0
  {
    hide After, Positions, Ready, Steps, Explored, Named, Firsts, Closed;
    match ws
    case Done =>
      AfterNone(g, ids, st, o);
    case Next(w, rest) =>
      ReadyIs(g, ids, o, st, |cs|);
      ReadyNext(g, ids, w, o, st, |cs| - 1);
      LoadWalk(g, ids, w, o, st);
      var st' := After(g, ids, st, o, Firsts(w), Positions(o + Firsts(w), [w.node]));
      LoadWalks(g, ids, cs[1..], rest, o + Firsts(w), st');
      StepsJoin(st, Render(g, ids, w), RenderAll(g, ids, rest));
      WalkClosed(g, w, o);
      WalkCovers(g, w, o);
      CoveredSoFar(g, o, Firsts(w), Met(w), [w.node]);
      AfterThen(g, ids, st, o, Firsts(w), FirstsAll(rest), w.node, cs[1..], Top(st.ctx));
      assert cs == [w.node] + cs[1..];
  }

  lemma ReadyIs(g: Graph, ids: Ids, o: seq<nat>, st: Loading, c: nat)
    requires Ready(g, ids, o, st, c)
    ensures |ids| == |g| && NoRepeats(o) && Within(|g|, o) && Top(st.ctx) <= |st.nodes|
    ensures forall k: nat | k <= c :: Ready(g, ids, o, st, k)
  {
  }

  lemma AfterNone(g: Graph, ids: Ids, st: Loading, o: seq<nat>)
    requires exists c: nat :: Ready(g, ids, o, st, c)
    ensures After(g, ids, st, o, [], Positions(o + [], [])) == st && Steps(st, []) == Going(st) && |ids| == |g|
  {
    assert o + [] == o;
    assert forall n :: AddAll(n, []) == n;
    var nodes := Hung(st.nodes, Top(st.ctx), []);
    assert nodes == st.nodes && nodes + [] == nodes;
  }

  /** Where a node met first stands, and what it comes back as. */
  lemma FirstComesBack(g: Graph, i: nat, kids: Walks, o: seq<nat>)
    requires 1 <= i <= |g| && ExploredAll(g, Children(g[i - 1]), kids, o + [i]) && i !in o
    requires NoRepeats(o + [i]) && Within(|g|, o + [i])
    ensures var o' := o + ([i] + FirstsAll(kids));
      && o + [i] + FirstsAll(kids) == o' && Positions(o', [i]) == [|o| + 1]
      && AddAll(Opened(g[i - 1]), Positions(o', Children(g[i - 1]))) == Renamed(g[i - 1], o')
      && Loaded(g, [i] + FirstsAll(kids), o') == [Renamed(g[i - 1], o')] + Loaded(g, FirstsAll(kids), o')
  {
    hide Opened, Renamed, Explored, ExploredAll, NoRepeats, Within, Pos, Positions, Loaded, FirstsAll, MetAll, Children, Covers, Covered;
    hide AddAll;
    var n, f := g[i - 1], FirstsAll(kids);
    FirstPosition(o, i, f);
    LoadedFirst(g, i, f, o + ([i] + f));
    WalksCover(g, Children(n), kids, o + [i]);
    CoversAll(g, o + [i], f, MetAll(kids), Children(n));
    AddAllRenames(n, o + ([i] + f));
  }

  lemma FirstPosition(o: seq<nat>, i: nat, f: seq<nat>)
    requires i !in o
    ensures o + [i] + f == o + ([i] + f) && Positions(o + ([i] + f), [i]) == [|o| + 1]
  {
    hide Pos, Positions;
    PosLast(o, i);
    PosPrefix(o + [i], f, i);
    assert o + [i] + f == o + ([i] + f);
    OnePosition(o + ([i] + f), i);
  }

  /** Closing the node leaves it as it comes back, and the open collections as before. */
  lemma FirstDone(g: Graph, ids: Ids, i: nat, kids: Walks, o: seq<nat>, st: Loading, st1: Loading)
    requires 1 <= i <= |g| && ExploredAll(g, Children(g[i - 1]), kids, o + [i]) && |st.nodes| == |o| && i !in o
    requires NoRepeats(o + [i]) && Within(|g|, o + [i]) && (g[i - 1].Scalar? ==> kids == Done)
    requires st1 == Loading(Hung(st.nodes, Top(st.ctx), [|o| + 1]) + [Opened(g[i - 1])], AliasesOf(o + [i], ids),
                            if g[i - 1].Scalar? then st.ctx else st.ctx + [|o| + 1])
    ensures var n, f := g[i - 1], FirstsAll(kids);
      var st2 := if n.Scalar? then st1 else After(g, ids, st1, o + [i], f, Positions(o + [i] + f, Children(n)));
      Steps(st2, Closing(n)) == Going(After(g, ids, st, o, [i] + f, Positions(o + ([i] + f), [i])))
  {
    hide AliasesOf, Opened, Renamed, ExploredAll, NoRepeats, Within, Steps, Closing, Hung, Positions, Loaded, AddAll;
    FirstComesBack(g, i, kids, o);
    var n, h := g[i - 1], Hung(st.nodes, Top(st.ctx), [|o| + 1]);
    if n.Scalar? {
      ScalarDone(n, o, i, o + ([i] + FirstsAll(kids)), g, h);
    } else {
      CollectionDone(g, ids, i, FirstsAll(kids), o, h, st.ctx);
    }
  }

  lemma CollectionDone(g: Graph, ids: Ids, i: nat, f: seq<nat>, o: seq<nat>, h: Graph, ctx: seq<nat>)
    requires 1 <= i <= |g| && !g[i - 1].Scalar? && |h| == |o|
    requires AddAll(Opened(g[i - 1]), Positions(o + [i] + f, Children(g[i - 1]))) == Renamed(g[i - 1], o + [i] + f)
    ensures var n, o' := g[i - 1], o + [i] + f;
      Steps(Loading(Hung(h + [Opened(n)], |o| + 1, Positions(o', Children(n))) + Loaded(g, f, o'), AliasesOf(o', ids), ctx + [|o| + 1]),
            Closing(n))
        == Going(Loading(h + ([Renamed(n, o')] + Loaded(g, f, o')), AliasesOf(o', ids), ctx))
  {
    hide AliasesOf, Opened, Renamed, Steps, Closing, Hung, Positions, Loaded, AddAll;
    var n, o' := g[i - 1], o + [i] + f;
    HungLast(h, Opened(n), Positions(o', Children(n)));
    assert h + [Renamed(n, o')] + Loaded(g, f, o') == h + ([Renamed(n, o')] + Loaded(g, f, o'));
    LeaveStep(Loading(h + [Renamed(n, o')] + Loaded(g, f, o'), AliasesOf(o', ids), ctx), n, o', |o| + 1);
  }

  lemma OnePosition(o: seq<nat>, i: nat)
    ensures Positions(o, [i]) == [Pos(o, i)]
  {
    assert [i][1..] == [];
  }

  lemma HungLast(h: Graph, n: Node, s: seq<nat>)
    ensures Hung(h + [n], |h| + 1, s) == h + [AddAll(n, s)]
  {
  }

  lemma LoadedFirst(g: Graph, i: nat, f: seq<nat>, o: seq<nat>)
    requires 1 <= i <= |g|
    ensures Loaded(g, [i] + f, o) == [Renamed(g[i - 1], o)] + Loaded(g, f, o)
  {
    assert ([i] + f)[0] == i && ([i] + f)[1..] == f;
  }

  lemma ScalarDone(n: Node, o: seq<nat>, i: nat, o': seq<nat>, g: Graph, h: Graph)
    requires n.Scalar? && o' == o + ([i] + FirstsAll(Done))
    ensures Opened(n) == Renamed(n, o') && Loaded(g, [], o') == [] && o' == o + [i]
    ensures h + ([Opened(n)] + []) == h + [Opened(n)]
    ensures forall x: Loading :: Steps(x, Closing(n)) == Going(x)
  {
    assert [i] + [] == [i];
  }

  lemma LeaveStep(st: Loading, n: Node, o: seq<nat>, index: nat)
    requires !n.Scalar? && 1 <= index <= |st.nodes| && st.nodes[index - 1] == Renamed(n, o)
    ensures Steps(st.(ctx := st.ctx + [index]), Closing(n)) == Going(st)
  {
    hide Positions, RenamedPairs;
    var open := st.(ctx := st.ctx + [index]);
    assert open.ctx[..|open.ctx| - 1] == st.ctx;
    StepsOne(open, if n.Mapping? then MappingEnd else SequenceEnd);
  }
}
