/** Two ends over two byte channels: every interleaving of their reads and writes, and
    of the bytes on the way, comes to the same end. */
module SocksNetwork {
  import opened ByteOrder
  import opened Options
  import opened SocksAddress
  import opened SocksEndpoints

  /** What was written and has not been read: bytes still on the way, and bytes arrived. */
  datatype Channel = Channel(flying: Bytes, arrived: Bytes)

  datatype Net = Net(client: End, server: End, up: Channel, down: Channel)

  datatype Move = ClientMoves | ServerMoves | UpCarries | DownCarries

  /** An end that failed has closed its socket. */
  predicate Closed(e: End) {
    e.Over? && !e.verdict.ok
  }

  /** One read or write of an end: the new end, what it left unread, and what it wrote. */
  datatype Moved = Moved(end: End, from: Channel, wrote: Bytes)

  function Moving(e: End, peer: End, from: Channel): Option<Moved> {
    match ActOf(e)
    case Stop => None
    case Put(bytes) => Some(Moved(Sent(e), from, bytes))
    case Take(n) =>
      if n <= |from.arrived| then Some(Moved(Got(e, from.arrived[..n]), from.(arrived := from.arrived[n..]), []))
      else if Closed(peer) && from.flying == [] then Some(Moved(Short(e), Channel([], []), []))
      else None
  }

  /** An end that returned success keeps its socket: who waits for it goes on waiting. */
  lemma SuccessStaysOpen(e: End, v: Verdict, from: Channel, n: nat)
    requires v.ok && ActOf(e) == Take(n) && n > |from.arrived|
    ensures Moving(e, Over(v), from) == None
  {
  }

  function Carry(c: Channel): Option<Channel> {
    if c.flying == [] then None else Some(Channel(c.flying[1..], c.arrived + [c.flying[0]]))
  }

  function Step(n: Net, m: Move): Option<Net> {
    match m
    case ClientMoves =>
      var r := Moving(n.client, n.server, n.down);
      if r.None? then None
      else Some(Net(r.value.end, n.server, n.up.(flying := n.up.flying + r.value.wrote), r.value.from))
    case ServerMoves =>
      var r := Moving(n.server, n.client, n.up);
      if r.None? then None
      else Some(Net(n.client, r.value.end, r.value.from, n.down.(flying := n.down.flying + r.value.wrote)))
    case UpCarries =>
      var r := Carry(n.up);
      if r.None? then None else Some(n.(up := r.value))
    case DownCarries =>
      var r := Carry(n.down);
      if r.None? then None else Some(n.(down := r.value))
  }

  function Run(n: Net, moves: seq<Move>): Option<Net>
    decreases |moves|
  {
    if moves == [] then Some(n) else
      var r := Step(n, moves[0]);
      if r.None? then None else Run(r.value, moves[1..])
  }

  /** No end and no byte can move. */
  ghost predicate Still(n: Net) {
    forall m :: Step(n, m).None?
  }

  // ----- the order of moves does not matter -----

  /** What an end does is not changed by a byte arriving, unless it waits for that byte. */
  lemma MovingAfterCarry(e: End, peer: End, c: Channel)
    requires Moving(e, peer, c).Some? && Carry(c).Some?
    ensures var r, c' := Moving(e, peer, c).value, Carry(c).value;
      && Moving(e, peer, c').Some? && Carry(r.from).Some?
      && Moving(e, peer, c').value == r.(from := Carry(r.from).value)
  {
    var act := ActOf(e);
    if act.Take? {
      var b := c.flying[0];
      assert (c.arrived + [b])[..act.n] == c.arrived[..act.n];
      assert (c.arrived + [b])[act.n..] == c.arrived[act.n..] + [b];
    }
  }

  /** Nor by more being written to it, unless its peer had closed. */
  lemma MovingAfterWrite(e: End, peer: End, peer': End, c: Channel, w: Bytes)
    requires Moving(e, peer, c).Some? && !Closed(peer)
    ensures var r, c' := Moving(e, peer, c).value, c.(flying := c.flying + w);
      Moving(e, peer', c') == Some(r.(from := r.from.(flying := r.from.flying + w)))
  {
  }

  lemma CarryAfterWrite(c: Channel, w: Bytes)
    requires Carry(c).Some?
    ensures Carry(c.(flying := c.flying + w)) == Some(Carry(c).value.(flying := Carry(c).value.flying + w))
  {
    assert (c.flying + w)[1..] == c.flying[1..] + w;
  }

  function Rank(m: Move): nat {
    match m
    case ClientMoves => 0
    case ServerMoves => 1
    case UpCarries => 2
    case DownCarries => 3
  }

  /** Two different moves that are both possible can be made in either order. */
  lemma Diamond(n: Net, a: Move, b: Move)
    requires a != b && Step(n, a).Some? && Step(n, b).Some?
    ensures Step(Step(n, a).value, b).Some? && Step(Step(n, a).value, b) == Step(Step(n, b).value, a)
  {
    if Rank(a) < Rank(b) { DiamondOrdered(n, a, b); } else { DiamondOrdered(n, b, a); }
  }

  lemma DiamondOrdered(n: Net, a: Move, b: Move)
    requires Rank(a) < Rank(b) && Step(n, a).Some? && Step(n, b).Some?
    ensures Step(Step(n, a).value, b).Some? && Step(Step(n, a).value, b) == Step(Step(n, b).value, a)
  {
    if a.ClientMoves? && b.ServerMoves? {
      BothMove(n);
    } else if a.ClientMoves? {
      hide Moving, Carry;
      var r := Moving(n.client, n.server, n.down).value;
      if b.UpCarries? { CarryAfterWrite(n.up, r.wrote); } else { MovingAfterCarry(n.client, n.server, n.down); }
    } else if a.ServerMoves? {
      hide Moving, Carry;
      var r := Moving(n.server, n.client, n.up).value;
      if b.DownCarries? { CarryAfterWrite(n.down, r.wrote); } else { MovingAfterCarry(n.server, n.client, n.up); }
    }
  }

  lemma BothMove(n: Net)
    requires Step(n, ClientMoves).Some? && Step(n, ServerMoves).Some?
    ensures var c, s := Step(n, ClientMoves).value, Step(n, ServerMoves).value;
      Step(c, ServerMoves).Some? && Step(c, ServerMoves) == Step(s, ClientMoves)
  {
    var c, s := Moving(n.client, n.server, n.down).value, Moving(n.server, n.client, n.up).value;
    NotClosed(n.client, n.server, n.down);
    NotClosed(n.server, n.client, n.up);
    MovingAfterWrite(n.client, n.server, s.end, n.down, s.wrote);
    MovingAfterWrite(n.server, n.client, c.end, n.up, c.wrote);
    hide Moving, Closed;
  }

  lemma NotClosed(e: End, peer: End, from: Channel)
    requires Moving(e, peer, from).Some?
    ensures !Closed(e)
  {
  }

  // ----- all runs come to the same end -----

  /** If some run from here comes to a standstill, making any possible move first leaves
      one move less to the same standstill. */
  lemma {:induction false} Strip(n: Net, moves: seq<Move>, m: Move) returns (rest: seq<Move>)
    requires Run(n, moves).Some? && Still(Run(n, moves).value) && Step(n, m).Some?
    ensures |rest| + 1 == |moves| && Run(Step(n, m).value, rest) == Run(n, moves)
    decreases |moves|
  {
    hide Step;
    if moves[0] == m {
      rest := moves[1..];
    } else {
      Diamond(n, moves[0], m);
      var next := Step(n, moves[0]).value;
      var r := Strip(next, moves[1..], m);
      rest := [moves[0]] + r;
      assert rest[1..] == r;
    }
  }

  /** Every run is part of one that ends at the standstill, and none is longer. */
  lemma {:induction false} Confluence(n: Net, moves: seq<Move>, other: seq<Move>) returns (rest: seq<Move>)
    requires Run(n, moves).Some? && Still(Run(n, moves).value) && Run(n, other).Some?
    ensures |other| + |rest| == |moves| && Run(Run(n, other).value, rest) == Run(n, moves)
    decreases |other|
  {
    if other == [] {
      rest := moves;
    } else {
      var r := Strip(n, moves, other[0]);
      rest := Confluence(Step(n, other[0]).value, r, other[1..]);
    }
  }

  ghost predicate Reaches(n: Net, n': Net) {
    exists moves :: Run(n, moves) == Some(n')
  }

  /** Where every run ends: none goes on for ever, and none gets stuck elsewhere. */
  ghost predicate EndsAt(n: Net, t: Net) {
    exists moves :: Run(n, moves) == Some(t) && Still(t) && AllWithin(n, t, |moves|)
  }

  ghost predicate AllWithin(n: Net, t: Net, bound: nat) {
    forall other: seq<Move> :: Run(n, other).Some? ==>
      var u := Run(n, other).value;
      |other| <= bound && Reaches(u, t) && (Still(u) ==> u == t)
  }

  lemma AllEndThere(n: Net, t: Net)
    requires Still(t) && Reaches(n, t)
    ensures EndsAt(n, t)
  {
    var moves :| Run(n, moves) == Some(t);
    forall other: seq<Move> | Run(n, other).Some?
      ensures var u := Run(n, other).value; |other| <= |moves| && Reaches(u, t) && (Still(u) ==> u == t)
    {
      var rest := Confluence(n, moves, other);
    }
    assert AllWithin(n, t, |moves|);
  }

  // ----- one run after another -----

  lemma {:induction false} RunJoin(n: Net, a: seq<Move>, b: seq<Move>)
    requires Run(n, a).Some?
    ensures Run(n, a + b) == Run(Run(n, a).value, b)
    decreases |a|
  {
    if a == [] {
      assert a + b == b;
    } else {
      assert (a + b)[0] == a[0] && (a + b)[1..] == a[1..] + b;
      RunJoin(Step(n, a[0]).value, a[1..], b);
    }
  }

  lemma ReachesThen(n: Net, n': Net, n'': Net)
    requires Reaches(n, n') && Reaches(n', n'')
    ensures Reaches(n, n'')
  {
    var a :| Run(n, a) == Some(n');
    var b :| Run(n', b) == Some(n'');
    RunJoin(n, a, b);
  }

  lemma ReachesStep(n: Net, m: Move)
    requires Step(n, m).Some?
    ensures Reaches(n, Step(n, m).value)
  {
    assert [m][1..] == [];
    assert Run(n, [m]) == Run(Step(n, m).value, [m][1..]) == Some(Step(n, m).value);
  }

  lemma ReachesSelf(n: Net)
    ensures Reaches(n, n)
  {
    assert Run(n, []) == Some(n);
  }

  /** Nothing on the way. */
  function Calm(c: End, s: End, up: Bytes, down: Bytes): Net {
    Net(c, s, Channel([], up), Channel([], down))
  }

  lemma {:induction false} UpArrives(c: End, s: End, w: Bytes, up: Bytes, down: Bytes)
    ensures Reaches(Net(c, s, Channel(w, up), Channel([], down)), Calm(c, s, up + w, down))
  {
    var n := Net(c, s, Channel(w, up), Channel([], down));
    if w == [] {
      assert up + w == up;
      ReachesSelf(n);
    } else {
      hide Reaches;
      ReachesStep(n, UpCarries);
      UpArrives(c, s, w[1..], up + [w[0]], down);
      assert up + [w[0]] + w[1..] == up + w;
      ReachesThen(n, Step(n, UpCarries).value, Calm(c, s, up + w, down));
    }
  }

  lemma {:induction false} DownArrives(c: End, s: End, w: Bytes, up: Bytes, down: Bytes)
    ensures Reaches(Net(c, s, Channel([], up), Channel(w, down)), Calm(c, s, up, down + w))
  {
    var n := Net(c, s, Channel([], up), Channel(w, down));
    if w == [] {
      assert down + w == down;
      ReachesSelf(n);
    } else {
      hide Reaches;
      ReachesStep(n, DownCarries);
      DownArrives(c, s, w[1..], up, down + [w[0]]);
      assert down + [w[0]] + w[1..] == down + w;
      ReachesThen(n, Step(n, DownCarries).value, Calm(c, s, up, down + w));
    }
  }

  // ----- an end on its own -----

  datatype Gone = Gone(end: End, out: Bytes, rest: Bytes)

  /** An end as far as it gets with the bytes it has. */
  function Go(e: End, input: Bytes): Gone
    decreases Left(e)
  {
    match ActOf(e)
    case Stop => Gone(e, [], input)
    case Put(bytes) =>
      Progress(e, []);
      var g := Go(Sent(e), input);
      g.(out := bytes + g.out)
    case Take(n) =>
      if n <= |input| then
        Progress(e, input[..n]);
        Go(Got(e, input[..n]), input[n..])
      else Gone(e, [], input)
  }

  lemma {:induction false} GoJoin(e: End, i: Bytes, j: Bytes)
    ensures var g := Go(e, i);
      var g' := Go(g.end, g.rest + j);
      Go(e, i + j) == g'.(out := g.out + g'.out)
    decreases Left(e)
  {
    hide Sent, Got, ActOf;
    match ActOf(e)
    case Stop =>
    case Put(bytes) =>
      Progress(e, []);
      GoJoin(Sent(e), i, j);
      var g := Go(Sent(e), i);
      var g' := Go(g.end, g.rest + j);
      assert bytes + (g.out + g'.out) == bytes + g.out + g'.out;
    case Take(n) =>
      if n <= |i| {
        Progress(e, i[..n]);
        GoJoin(Got(e, i[..n]), i[n..], j);
        assert (i + j)[..n] == i[..n] && (i + j)[n..] == i[n..] + j;
      } else {
        var g' := Go(e, i + j);
        assert [] + g'.out == g'.out;
      }
  }

  lemma {:induction false} ClientGoes(c: End, s: End, up: Bytes, down: Bytes)
    ensures var g := Go(c, down); Reaches(Calm(c, s, up, down), Calm(g.end, s, up + g.out, g.rest))
    decreases Left(c)
  {
    hide Sent, Got, ActOf, Reaches;
    var n, g := Calm(c, s, up, down), Go(c, down);
    var t := Calm(g.end, s, up + g.out, g.rest);
    match ActOf(c)
    case Stop =>
      assert up + [] == up;
      ReachesSelf(n);
    case Put(bytes) =>
      Progress(c, []);
      var n1 := Net(Sent(c), s, Channel(bytes, up), Channel([], down));
      assert [] + bytes == bytes;
      ReachesStep(n, ClientMoves);
      UpArrives(Sent(c), s, bytes, up, down);
      ClientGoes(Sent(c), s, up + bytes, down);
      assert up + bytes + Go(Sent(c), down).out == up + g.out;
      ReachesThen(n1, Calm(Sent(c), s, up + bytes, down), t);
      ReachesThen(n, n1, t);
    case Take(k) =>
      if k <= |down| {
        Progress(c, down[..k]);
        var none: Bytes := [];
        assert none + none == none;
        ReachesStep(n, ClientMoves);
        ClientGoes(Got(c, down[..k]), s, up, down[k..]);
        ReachesThen(n, Calm(Got(c, down[..k]), s, up, down[k..]), t);
      } else {
        assert up + [] == up;
        ReachesSelf(n);
      }
  }

  lemma {:induction false} ServerGoes(c: End, s: End, up: Bytes, down: Bytes)
    ensures var g := Go(s, up); Reaches(Calm(c, s, up, down), Calm(c, g.end, g.rest, down + g.out))
    decreases Left(s)
  {
    hide Sent, Got, ActOf, Reaches;
    var n, g := Calm(c, s, up, down), Go(s, up);
    var t := Calm(c, g.end, g.rest, down + g.out);
    match ActOf(s)
    case Stop =>
      assert down + [] == down;
      ReachesSelf(n);
    case Put(bytes) =>
      Progress(s, []);
      var n1 := Net(c, Sent(s), Channel([], up), Channel(bytes, down));
      assert [] + bytes == bytes;
      ReachesStep(n, ServerMoves);
      DownArrives(c, Sent(s), bytes, up, down);
      ServerGoes(c, Sent(s), up, down + bytes);
      assert down + bytes + Go(Sent(s), up).out == down + g.out;
      ReachesThen(n1, Calm(c, Sent(s), up, down + bytes), t);
      ReachesThen(n, n1, t);
    case Take(k) =>
      if k <= |up| {
        Progress(s, up[..k]);
        var none: Bytes := [];
        assert none + none == none;
        ReachesStep(n, ServerMoves);
        ServerGoes(c, Got(s, up[..k]), up[k..], down);
        ReachesThen(n, Calm(c, Got(s, up[..k]), up[k..], down), t);
      } else {
        assert down + [] == down;
        ReachesSelf(n);
      }
  }
}
