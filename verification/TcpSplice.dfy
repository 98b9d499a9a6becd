/** The splice of a TCP session: bytes queued by lwIP go to the socket, bytes read from the
    socket go through the ring buffer to lwIP, while lwIP calls back at every yield. */
module TcpSplice {
  import opened ByteOrder
  import opened Collections
  import opened Options
  import opened RingBuffer

  const TCP_WND: nat := 8 * 8191
  const MAX_VECTORS: nat := 64

  // ----- the queue of packet buffers -----

  /** Removes `n` bytes from the front, freeing the buffers used up. */
  function FreeHeader(q: seq<Bytes>, n: nat): seq<Bytes> {
    if q == [] || n == 0 then q
    else if n >= |q[0]| then FreeHeader(q[1..], n - |q[0]|)
    else [q[0][n..]] + q[1..]
  }

  lemma {:induction false} FreeHeaderDrops(q: seq<Bytes>, n: nat)
    requires n <= |Concat(q)|
    ensures Concat(FreeHeader(q, n)) == Concat(q)[n..]
  {
    if q != [] && n > 0 {
      if n >= |q[0]| {
        FreeHeaderDrops(q[1..], n - |q[0]|);
      } else {
        var t := [q[0][n..]] + q[1..];
        assert t[1..] == q[1..];
      }
    }
  }

  // ----- the world -----

  /** The lwIP end: what it queued for the session, whether it said that was all, how much
      more it may queue; what tcp_write took, how much of that was acknowledged, whether
      it refused any, the hole that left if it took bytes after refused ones, whether
      tcp_output failed, and how many times sending was shut down. */
  datatype Peer = Peer(received: Bytes, eof: bool, window: nat, accepted: Bytes, acked: nat,
                       refused: bool, hole: Option<Hole>, unsent: bool, finished: nat)

  /** After `at` bytes, `len` bytes are missing. */
  datatype Hole = Hole(at: nat, len: nat)

  /** The socket: what was read from it, whether reading ended, what was written to it,
      whether writing failed, and how many times it was shut down for writing. */
  datatype Socket = Socket(read: Bytes, ended: bool, wrote: Bytes, failed: bool, finished: nat)

  /** A call of lwIP: a chain of buffers (none at the end), an acknowledgement, an error. */
  datatype Event = Received(chain: seq<Bytes>) | Acknowledged(n: nat) | Error

  /** The result of a system call: a count, EAGAIN, or another error. */
  datatype Wrote = Wrote(n: nat) | WouldBlock | WriteError
  datatype Read = Read(bytes: Bytes) | WouldWait | ReadError

  /** What happens in one round of the main loop: results, and calls of lwIP whenever the
      task may have to wait. */
  datatype Turn = Turn(wrote: Wrote, before: seq<Event>, read: Read, between: seq<Event>,
                       writeOk: seq<bool>, outputOk: bool, after: seq<Event>, goOn: bool)

  // ----- what is kept -----

  /** The socket got what was queued, in order; the queue is the rest, and before it is
      freed, the `owed` bytes just written. While there is a connection, lwIP may queue just
      what is missing to a full window. */
  ghost predicate Forward(q: seq<Bytes>, owed: nat, received: Bytes, window: nat, wrote: Bytes, open: bool) {
    var c := Concat(q);
    && owed <= |wrote| <= |received| && wrote == received[..|wrote|]
    && c == received[|wrote| - owed..] && window + |c| <= TCP_WND && (open ==> window + |c| == TCP_WND)
  }

  /** What was taken is what was read, but for the hole. */
  ghost predicate TakenOf(accepted: Bytes, read: Bytes, hole: Option<Hole>) {
    var n := |accepted|;
    match hole
    case None => accepted <= read
    case Some(h) => h.at <= n && h.len + n <= |read| && accepted == read[..h.at] + read[h.at + h.len..h.len + n]
  }

  /** The ring got what was read, lwIP was handed what left the ring, in order, took all of
      that unless it refused any, and no byte is released that was not acknowledged. */
  ghost predicate Backward(r: Ring, read: Bytes, accepted: Bytes, acked: nat, refused: bool, hole: Option<Hole>) {
    var n := r.use;
    && r.rda <= n <= |r.written| && r.written == read
    && acked == |r.written| - n && acked <= |accepted| <= |r.written| - r.rda
    && (if refused then TakenOf(accepted, read, hole) else accepted == Taken(r) && hole.None?)
  }

  /** A direction is shut down once, and only when it is drained for good. */
  ghost predicate Finishes(q: seq<Bytes>, owed: nat, r: Ring, p: Peer, s: Socket) {
    var f := s.finished;
    && f <= 1 && p.finished <= 1
    && (f == 1 ==> q == [] && owed == 0 && p.eof)
    && (p.finished == 1 ==> s.ended && r.rda == 0 && !p.refused)
  }

  lemma Receiving(q: seq<Bytes>, owed: nat, received: Bytes, window: nat, wrote: Bytes, open: bool, chain: seq<Bytes>)
    requires Forward(q, owed, received, window, wrote, open) && |Concat(chain)| <= window
    ensures Forward(q + chain, owed, received + Concat(chain), window - |Concat(chain)|, wrote, open)
  {
    ConcatJoin(q, chain);
  }

  lemma Writing(q: seq<Bytes>, received: Bytes, window: nat, wrote: Bytes, open: bool, m: nat, n: nat)
    requires Forward(q, 0, received, window, wrote, open) && m <= |q| && n <= |Concat(q[..m])|
    ensures Forward(q, n, received, window, wrote + Concat(q[..m])[..n], open)
  {
    ConcatJoin(q[..m], q[m..]);
    assert q == q[..m] + q[m..];
    var c, w := Concat(q), |wrote|;
    assert Concat(q[..m])[..n] == c[..n] == received[w..w + n];
  }

  lemma Freeing(q: seq<Bytes>, owed: nat, received: Bytes, window: nat, wrote: Bytes, open: bool)
    requires Forward(q, owed, received, window, wrote, open)
    ensures owed <= |Concat(q)| < 0x1_0000
    ensures Forward(FreeHeader(q, owed), 0, received, if open then window + owed else window, wrote, open)
  {
    FreeHeaderDrops(q, owed);
  }

  /** When all is written and no more will come, the socket has all that was queued. */
  lemma Drained(received: Bytes, window: nat, wrote: Bytes, open: bool)
    requires Forward([], 0, received, window, wrote, open)
    ensures wrote == received && (open ==> window == TCP_WND)
  {
  }

  lemma Closing(q: seq<Bytes>, owed: nat, received: Bytes, window: nat, wrote: Bytes, open: bool)
    requires Forward(q, owed, received, window, wrote, open)
    ensures Forward(q, owed, received, window, wrote, false)
  {
  }

  lemma Releasing(r: Ring, read: Bytes, accepted: Bytes, acked: nat, refused: bool, hole: Option<Hole>, n: nat)
    requires Backward(r, read, accepted, acked, refused, hole) && n <= |accepted| - acked
    ensures n <= r.use - r.rda && Backward(ReleasedOf(r, n), read, accepted, acked + n, refused, hole)
  {
  }

  lemma Reading(r: Ring, read: Bytes, accepted: Bytes, acked: nat, refused: bool, hole: Option<Hole>, more: Bytes)
    requires Backward(r, read, accepted, acked, refused, hole) && r.size > 0
    ensures Backward(WrittenOf(r, more), read + more, accepted, acked, refused, hole)
  {
    assert Taken(WrittenOf(r, more)) == Taken(r);
  }

  // ----- what lwIP takes of what it is handed -----

  predicate Takes(oks: seq<bool>, i: nat) {
    i < |oks| && oks[i]
  }

  /** The regions taken, from the i-th on. */
  function Kept(d: Bytes, iov: seq<Region>, oks: seq<bool>, i: nat): Bytes
    decreases |iov| - i
  {
    if i >= |iov| then []
    else if Takes(oks, i) && iov[i].base + iov[i].len <= |d| then Stretch(d, iov[i].base, iov[i].len) + Kept(d, iov, oks, i + 1)
    else Kept(d, iov, oks, i + 1)
  }

  /** Some region is refused. */
  predicate AnyRefused(oks: seq<bool>, n: nat) {
    n > 0 && (AnyRefused(oks, n - 1) || !Takes(oks, n - 1))
  }

  /** Of two regions the first refused and the second taken: a hole. */
  function HoleOf(iov: seq<Region>, oks: seq<bool>, at: nat): Option<Hole> {
    if |iov| == 2 && !Takes(oks, 0) && Takes(oks, 1) then Some(Hole(at, iov[0].len)) else None
  }

  lemma HoleWhen(iov: seq<Region>, oks: seq<bool>, at: nat)
    ensures HoleOf(iov, oks, at).Some? <==> |iov| == 2 && !Takes(oks, 0) && Takes(oks, 1)
  {
  }

  lemma Handing(r: Ring, read: Bytes, p: Peer, d: Bytes, iov: seq<Region>, oks: seq<bool>)
    requires Backward(r, read, p.accepted, p.acked, false, None) && r.size > 0
    requires Gather(d, iov) == Unread(r) && Inside(iov, |d|) && 1 <= |iov| <= 2
    ensures Backward(ReadOf(r, r.rda), read, p.accepted + Kept(d, iov, oks, 0), p.acked,
                     AnyRefused(oks, |iov|), HoleOf(iov, oks, |p.accepted|))
  {
    var a, t := Stretch(d, iov[0].base, iov[0].len), Taken(r);
    assert t + Unread(r) == read;
    assert Gather(d, []) == [];
    if |iov| == 1 {
      assert iov[1..] == [];
      assert a + [] == a && Gather(d, iov) == a;
      OneKept(d, iov, oks);
    } else {
      var b := Stretch(d, iov[1].base, iov[1].len);
      assert iov[1..][0] == iov[1] && iov[1..][1..] == [];
      assert b + [] == b && Gather(d, iov[1..]) == b && Gather(d, iov) == a + b;
      TwoKept(d, iov, oks);
      hide Gather, Stretch, Kept;
      TwoTaken(t, a, b, read);
    }
  }

  lemma OneKept(d: Bytes, iov: seq<Region>, oks: seq<bool>)
    requires |iov| == 1 && Inside(iov, |d|)
    ensures Kept(d, iov, oks, 0) == if Takes(oks, 0) then Stretch(d, iov[0].base, iov[0].len) else []
  {
    assert Kept(d, iov, oks, 1) == [];
  }

  lemma TwoKept(d: Bytes, iov: seq<Region>, oks: seq<bool>)
    requires |iov| == 2 && Inside(iov, |d|)
    ensures var a, b := Stretch(d, iov[0].base, iov[0].len), Stretch(d, iov[1].base, iov[1].len);
      Kept(d, iov, oks, 0) == (if Takes(oks, 0) then a else []) + (if Takes(oks, 1) then b else [])
  {
    assert Kept(d, iov, oks, 2) == [];
    assert Kept(d, iov, oks, 1) == if Takes(oks, 1) then Stretch(d, iov[1].base, iov[1].len) else [];
  }

  /** How many of the unread bytes are in the first region: those before the ring wraps. */
  function UpToWrap(r: Ring, unread: nat): int {
    if r.rp + unread > r.size then r.size - r.rp else unread
  }

  /** The ring after bytes went into it and out of it. */
  function Through(r: Ring, more: Bytes): Ring
    requires r.size > 0
  {
    var w := WrittenOf(r, more);
    if |more| <= w.rda then ReadOf(w, |more|) else w
  }

  /** What lwIP takes of unread bytes of which the first `n` are in the first region. */
  function TakenFrom(unread: Bytes, n: nat, oks: seq<bool>): Bytes
    requires n <= |unread|
  {
    (if Takes(oks, 0) then unread[..n] else []) + if n < |unread| && Takes(oks, 1) then unread[n..] else []
  }

  lemma KeptIs(d: Bytes, iov: seq<Region>, oks: seq<bool>)
    requires Inside(iov, |d|) && 1 <= |iov| <= 2
    ensures var u := Gather(d, iov);
      iov[0].len <= |u| && (|iov| == 1 ==> iov[0].len == |u|) && Kept(d, iov, oks, 0) == TakenFrom(u, iov[0].len, oks)
    ensures AnyRefused(oks, |iov|) == !(Takes(oks, 0) && (|iov| == 2 ==> Takes(oks, 1)))
  {
    assert !AnyRefused(oks, 0) && (AnyRefused(oks, 1) == !Takes(oks, 0));
    var a := Stretch(d, iov[0].base, iov[0].len);
    assert Gather(d, []) == [];
    if |iov| == 1 {
      assert iov[1..] == [];
      assert Gather(d, iov) == a + [] == a;
      OneKept(d, iov, oks);
    } else {
      var b := Stretch(d, iov[1].base, iov[1].len);
      assert iov[1..][0] == iov[1] && iov[1..][1..] == [];
      assert Gather(d, iov[1..]) == b + [] == b && Gather(d, iov) == a + b;
      TwoKept(d, iov, oks);
      assert (a + b)[..|a|] == a && (a + b)[|a|..] == b;
    }
  }

  lemma TwoTaken(t: Bytes, a: Bytes, b: Bytes, read: Bytes)
    requires read == t + (a + b)
    ensures t + (a + b) <= read && t + (a + []) <= read && t + ([] + []) <= read
    ensures TakenOf(t + ([] + b), read, Some(Hole(|t|, |a|)))
  {
    assert read[|t| + |a|..] == b && read[..|t|] == t;
  }

  /** Taken out of order is taken not from the front: unless the bytes after the hole happen
      to be those in front of it. */
  lemma HoleExactly(accepted: Bytes, read: Bytes, hole: Option<Hole>)
    requires TakenOf(accepted, read, hole)
    ensures accepted <= read <==> hole.None? || SameAcross(read, hole.value, |accepted|)
  {
    if hole.Some? {
      var h, n := hole.value, |accepted|;
      assert read[..n] == read[..h.at] + read[h.at..n];
      assert accepted[..h.at] == read[..h.at] && accepted[h.at..] == read[h.at + h.len..h.len + n];
      if accepted <= read {
        assert accepted[h.at..] == read[..n][h.at..] == read[h.at..n];
      }
    }
  }

  ghost predicate SameAcross(read: Bytes, h: Hole, n: nat) {
    h.at <= n && h.len + n <= |read| && read[h.at..n] == read[h.at + h.len..h.len + n]
  }

  lemma GatherNext(d: Bytes, iov: seq<Region>, handed: Bytes, i: nat)
    requires i < |iov| && Inside(iov, |d|)
    ensures iov[i].base + iov[i].len <= |d|
    ensures handed + Gather(d, iov[i..]) == handed + d[iov[i].base..iov[i].base + iov[i].len] + Gather(d, iov[i + 1..])
  {
    assert iov[i..][0] == iov[i] && iov[i..][1..] == iov[i + 1..];
    assert Gather(d, iov[i..]) == d[iov[i].base..iov[i].base + iov[i].len] + Gather(d, iov[i + 1..]);
  }

  lemma GatherEnds(d: Bytes, iov: seq<Region>)
    ensures Gather(d, iov) == [] + Gather(d, iov[0..]) && Gather(d, iov[|iov|..]) == []
  {
    assert iov[0..] == iov && iov[|iov|..] == [];
  }

  /** What the socket takes of a queue in one call. */
  function Sent(q: seq<Bytes>, out: Wrote): Bytes {
    if out.Wrote? then var c := Concat(q[..Min(|q|, MAX_VECTORS)]); c[..Min(out.n, |c|)] else []
  }

  lemma RoomIsThere(iov: seq<Region>, from: nat, size: nat, n: nat)
    requires Leads(iov, from, size, n)
    ensures Total(iov) == n && (iov == [] ==> n == 0)
  {
  }

  lemma ReadIsWritten(r: Ring, read: Bytes, accepted: Bytes, acked: nat, refused: bool, hole: Option<Hole>)
    requires Backward(r, read, accepted, acked, refused, hole)
    ensures r.written == read && r.rda <= |read| && |Unread(r)| == r.rda && Unread(r) == read[|read| - r.rda..]
  {
  }

  lemma NoHole(r: Ring, read: Bytes, accepted: Bytes, acked: nat, hole: Option<Hole>)
    requires Backward(r, read, accepted, acked, false, hole)
    ensures hole == None
  {
  }

  lemma AllTaken(r: Ring, read: Bytes, accepted: Bytes, acked: nat, refused: bool, hole: Option<Hole>)
    requires Backward(r, read, accepted, acked, refused, hole) && r.rda == 0
    ensures !refused ==> accepted == read
  {
  }

  lemma TakenSoFar(r: Ring, read: Bytes, accepted: Bytes, acked: nat, refused: bool, hole: Option<Hole>)
    requires Backward(r, read, accepted, acked, refused, hole)
    ensures TakenOf(accepted, read, hole) && (hole.Some? ==> refused)
  {
  }

  /** What the system reads into so much room. */
  function ReadInto(input: Read, room: int): Bytes {
    if input.Read? && room > 0 then input.bytes[..Min(|input.bytes|, room)] else []
  }

  /** How the main loop stopped: on its own, because the yielder failed, or not yet. */
  datatype Halt = Done | Cut | Running

  // ----- what a session does, step by step -----

  /** A session and the world around it. */
  datatype View = View(queue: seq<Bytes>, open: bool, eof: bool, peer: Peer, fd: Socket, ring: Ring)

  /** lwIP calls only while there is a connection, queues no more than its window and
      nothing after the end, and acknowledges no more than it took. */
  predicate CanCall(v: View, e: Event) {
    v.open && match e
      case Received(chain) => !v.peer.eof && |Concat(chain)| <= v.peer.window
      case Acknowledged(n) => v.peer.acked + n <= |v.peer.accepted|
      case Error => true
  }

  function CalledBy(v: View, e: Event): View {
    if !CanCall(v, e) then v else
      match e
      case Received(chain) =>
        var c := Concat(chain);
        v.(queue := v.queue + chain, eof := v.eof || chain == [],
           peer := v.peer.(received := v.peer.received + c, window := v.peer.window - |c|, eof := chain == []))
      case Acknowledged(n) =>
        v.(ring := if n <= v.ring.use then ReleasedOf(v.ring, n) else v.ring, peer := v.peer.(acked := v.peer.acked + n))
      case Error => v.(open := false)
  }

  function DeliveredTo(v: View, events: seq<Event>): View
    decreases |events|
  {
    if events == [] then v else DeliveredTo(CalledBy(v, events[0]), events[1..])
  }

  /** Bytes the socket took leave the queue, and as many more may be queued. */
  function Granted(v: View, n: nat): View {
    v.(queue := FreeHeader(v.queue, n), peer := if v.open then v.peer.(window := v.peer.window + n) else v.peer)
  }

  function Forwarded(v: View, out: Wrote, before: seq<Event>): (View, int) {
    if v.queue == [] then
      if v.eof then (v.(fd := v.fd.(finished := v.fd.finished + 1)), -1) else (v, 0)
    else
      var bytes := Sent(v.queue, out);
      if bytes != [] then
        (Granted(DeliveredTo(v.(fd := v.fd.(wrote := v.fd.wrote + bytes)), before), |bytes|), 1)
      else if out.WouldBlock? then (v, 0)
      else (v.(fd := v.fd.(failed := true)), -1)
  }

  /** What the socket has goes into the room of the ring. */
  function ReadOnce(v: View, input: Read): (View, int) {
    var room := v.ring.size - v.ring.use;
    var more := ReadInto(input, room);
    if room == 0 || v.ring.size == 0 then (v, 0)
    else if more != [] then (v.(ring := WrittenOf(v.ring, more), fd := v.fd.(read := v.fd.read + more)), 1)
    else if input.WouldWait? then (v, 0)
    else (v.(fd := v.fd.(ended := true)), -1)
  }

  /** All that is unread goes to lwIP, in one region or in two where the ring wraps. */
  function HandedOver(v: View, writeOk: seq<bool>, outputOk: bool): (View, bool) {
    var r := v.ring;
    if !(0 < r.rda <= |r.written|) || r.size == 0 then (v, false) else
      var u, n := Unread(r), UpToWrap(r, r.rda);
      if !(0 <= n <= |u|) then (v, false) else
        var two := n < |u|;
        (v.(ring := ReadOf(r, r.rda),
            peer := v.peer.(accepted := v.peer.accepted + TakenFrom(u, n, writeOk),
                            refused := !(Takes(writeOk, 0) && (two ==> Takes(writeOk, 1))),
                            hole := if two && !Takes(writeOk, 0) && Takes(writeOk, 1) then Some(Hole(|v.peer.accepted|, n)) else None,
                            unsent := !outputOk)), true)
  }

  function Backwarded(v: View, input: Read, between: seq<Event>, writeOk: seq<bool>, outputOk: bool): (View, int) {
    var (w, res) := ReadOnce(v, input);
    var u := DeliveredTo(w, between);
    if !u.open then (u, -1) else
      var (t, sent) := HandedOver(u, writeOk, outputOk);
      if sent then (t, if t.peer.refused || t.peer.unsent then -1 else 1)
      else if res < 0 then (u.(peer := u.peer.(finished := u.peer.finished + 1)), -1)
      else (u, res)
  }

  /** The main loop: each direction as long as it is not over, until both are, or the
      yielder fails. */
  function Looped(v: View, resF: int, resB: int, turns: seq<Turn>): (View, Halt)
    decreases |turns|
  {
    if turns == [] then (v, Running) else
      var turn := turns[0];
      var (w, f) := if resF >= 0 then Forwarded(v, turn.wrote, turn.before) else (v, resF);
      var (u, b) := if resB >= 0 then Backwarded(w, turn.read, turn.between, turn.writeOk, turn.outputOk) else (w, resB);
      if f < 0 && b < 0 then (u, Done) else
        var t := DeliveredTo(u, turn.after);
        if !turn.goOn then (t, Cut) else Looped(t, f, b, turns[1..])
  }

  /** The wait for the last acknowledgements. */
  function Waited(v: View, waits: seq<Turn>): (View, Halt)
    decreases |waits|
  {
    if waits == [] then (v, Running)
    else if !v.open || v.ring.use == 0 then (v, Done)
    else
      var t := DeliveredTo(v, waits[0].after);
      if !waits[0].goOn then (t, Cut) else Waited(t, waits[1..])
  }

  // ----- what comes of it -----

  /** All that a run of calls queues. */
  function QueuedBy(events: seq<Event>): Bytes {
    if events == [] then [] else (if events[0].Received? then Concat(events[0].chain) else []) + QueuedBy(events[1..])
  }

  function AckedBy(events: seq<Event>): nat {
    if events == [] then 0 else (if events[0].Acknowledged? then events[0].n else 0) + AckedBy(events[1..])
  }

  /** Every call of the run can be made when its turn comes. */
  predicate Lawful(v: View, events: seq<Event>)
    decreases |events|
  {
    events == [] || (CanCall(v, events[0]) && Lawful(CalledBy(v, events[0]), events[1..]))
  }

  /** No call is lost, and none changes anything else. */
  lemma {:induction false} CallsArrive(v: View, events: seq<Event>)
    requires Lawful(v, events)
    ensures var t := DeliveredTo(v, events);
      && t.peer.received == v.peer.received + QueuedBy(events) && Concat(t.queue) == Concat(v.queue) + QueuedBy(events)
      && t.peer.window == v.peer.window - |QueuedBy(events)| && t.peer.acked == v.peer.acked + AckedBy(events)
      && (t.open <==> v.open && Error !in events)
      && t.peer.accepted == v.peer.accepted && t.fd == v.fd && t.ring.written == v.ring.written && t.ring.rda == v.ring.rda
    decreases |events|
  {
    if events != [] {
      CallArrives(v, events[0]);
      hide CanCall, CalledBy;
      CallsArrive(CalledBy(v, events[0]), events[1..]);
      Regroup(v.peer.received, QueuedBy([events[0]]), QueuedBy(events[1..]));
      Regroup(Concat(v.queue), QueuedBy([events[0]]), QueuedBy(events[1..]));
      assert [events[0]][1..] == [] && QueuedBy([events[0]]) + [] == QueuedBy([events[0]]);
    }
  }

  lemma CallArrives(v: View, e: Event)
    requires CanCall(v, e)
    ensures var t := CalledBy(v, e);
      && t.peer.received == v.peer.received + QueuedBy([e]) && Concat(t.queue) == Concat(v.queue) + QueuedBy([e])
      && t.peer.window == v.peer.window - |QueuedBy([e])| && t.peer.acked == v.peer.acked + AckedBy([e])
      && (t.open <==> v.open && e != Error)
      && t.peer.accepted == v.peer.accepted && t.fd == v.fd && t.ring.written == v.ring.written && t.ring.rda == v.ring.rda
  {
    assert [e][1..] == [] && QueuedBy([]) == [] && AckedBy([]) == 0;
    if e.Received? {
      ConcatJoin(v.queue, e.chain);
      assert Concat(e.chain) + [] == Concat(e.chain);
    } else {
      assert v.peer.received + [] == v.peer.received && Concat(v.queue) + [] == Concat(v.queue);
    }
  }

  /** A write: the bytes the socket took leave the queue and lwIP may queue as many more; the
      calls made meanwhile are not lost. */
  lemma ForwardedMeans(v: View, out: Wrote, before: seq<Event>)
    requires v.queue != [] && Sent(v.queue, out) != []
    requires Lawful(v.(fd := v.fd.(wrote := v.fd.wrote + Sent(v.queue, out))), before)
    ensures var (t, res) := Forwarded(v, out, before);
      var bytes := Sent(v.queue, out);
      && res == 1 && t.fd.wrote == v.fd.wrote + bytes && t.peer.received == v.peer.received + QueuedBy(before)
      && bytes + Concat(t.queue) == Concat(v.queue) + QueuedBy(before)
      && t.peer.window == v.peer.window - |QueuedBy(before)| + (if Error !in before && v.open then |bytes| else 0)
      && t.peer.acked == v.peer.acked + AckedBy(before)
  {
    var bytes := Sent(v.queue, out);
    var w := v.(fd := v.fd.(wrote := v.fd.wrote + bytes));
    hide CanCall, CalledBy, DeliveredTo, FreeHeader;
    CallsArrive(w, before);
    SentFirst(v.queue, out);
    var u := DeliveredTo(w, before);
    FreeHeaderDrops(u.queue, |bytes|);
    assert Concat(u.queue)[..|bytes|] == bytes;
    assert bytes + Concat(u.queue)[|bytes|..] == Concat(u.queue);
  }

  /** The socket gets the first bytes of the queue, from at most 64 of its buffers. */
  lemma SentFirst(q: seq<Bytes>, out: Wrote)
    ensures Sent(q, out) <= Concat(q) && Sent(q, out) <= Concat(q[..Min(|q|, 64)])
    ensures out == WriteError || out == WouldBlock ==> Sent(q, out) == []
    ensures out.Wrote? ==> |Sent(q, out)| == Min(out.n, |Concat(q[..Min(|q|, 64)])|)
  {
    var k := Min(|q|, 64);
    ConcatJoin(q[..k], q[k..]);
    assert q == q[..k] + q[k..];
  }

  predicate NoneEmpty(q: seq<Bytes>) {
    forall i | 0 <= i < |q| :: q[i] != []
  }

  lemma {:induction false} StaysFilled(q: seq<Bytes>, n: nat)
    requires NoneEmpty(q)
    ensures NoneEmpty(FreeHeader(q, n))
    decreases |q|
  {
    if q != [] && n > 0 && n >= |q[0]| {
      StaysFilled(q[1..], n - |q[0]|);
    }
  }

  /** A turn of the loop in which lwIP calls nothing. */
  predicate Quiet(t: Turn) {
    t.before == [] && t.between == [] && t.after == [] && t.goOn
  }

  predicate Writes(t: Turn) {
    Quiet(t) && t.wrote.Wrote? && t.wrote.n >= 1
  }

  /** The upload of one state and another: what the other direction leaves alone. */
  predicate SameUpload(v: View, t: View) {
    t.queue == v.queue && t.eof == v.eof && t.peer.received == v.peer.received
    && t.fd.wrote == v.fd.wrote && t.fd.failed == v.fd.failed && t.fd.finished == v.fd.finished
  }

  lemma BackwardedKeeps(v: View, input: Read, writeOk: seq<bool>, outputOk: bool)
    ensures SameUpload(v, Backwarded(v, input, [], writeOk, outputOk).0)
  {
    hide ReadInto, TakenFrom, UpToWrap;
  }

  /** Once the upload is over nothing is written any more. */
  lemma {:induction false} UploadOver(v: View, f: int, b: int, turns: seq<Turn>)
    requires f < 0 && forall i | 0 <= i < |turns| :: Quiet(turns[i])
    ensures SameUpload(v, Looped(v, f, b, turns).0)
    decreases |turns|
  {
    hide Backwarded, Forwarded;
    if turns != [] {
      var turn := turns[0];
      assert Quiet(turn);
      BackwardedKeeps(v, turn.read, turn.writeOk, turn.outputOk);
      var (u, b') := if b >= 0 then Backwarded(v, turn.read, turn.between, turn.writeOk, turn.outputOk) else (v, b);
      UploadOver(u, f, b', turns[1..]);
    }
  }

  /** If the socket takes something in each turn, all that was queued is written in as many
      turns as it has bytes, and one more shuts the socket down if no more will come. */
  lemma {:induction false} UploadDrains(v: View, f: int, b: int, turns: seq<Turn>)
    requires f >= 0 && NoneEmpty(v.queue) && |turns| > |Concat(v.queue)| && forall i | 0 <= i < |turns| :: Writes(turns[i])
    ensures var t := Looped(v, f, b, turns).0;
      && t.queue == [] && t.fd.wrote == v.fd.wrote + Concat(v.queue)
      && t.fd.finished == v.fd.finished + (if v.eof then 1 else 0) && t.fd.failed == v.fd.failed
    decreases |turns|
  {
    hide Backwarded, Looped;
    var turn := turns[0];
    assert Writes(turn);
    var (w, f') := Forwarded(v, turn.wrote, []);
    BackwardedKeeps(w, turn.read, turn.writeOk, turn.outputOk);
    var (u, b') := if b >= 0 then Backwarded(w, turn.read, [], turn.writeOk, turn.outputOk) else (w, b);
    LoopedOnce(v, f, b, turns);
    if v.queue == [] {
      assert v.fd.wrote + [] == v.fd.wrote;
      if v.eof {
        UploadOver(u, f', b', turns[1..]);
      } else if |turns| > 1 {
        UploadDrains(u, f', b', turns[1..]);
      } else {
        LoopedNone(u, f', b', turns[1..]);
      }
    } else {
      WriteTakes(v, turn.wrote);
      UploadDrains(u, f', b', turns[1..]);
      Regroup(v.fd.wrote, Sent(v.queue, turn.wrote), Concat(u.queue));
    }
  }

  lemma LoopedNone(v: View, f: int, b: int, turns: seq<Turn>)
    requires turns == []
    ensures Looped(v, f, b, turns) == (v, Running)
  {
  }

  lemma LoopedOnce(v: View, f: int, b: int, turns: seq<Turn>)
    requires turns != [] && Quiet(turns[0]) && f >= 0
    ensures var turn := turns[0];
      var (w, f') := Forwarded(v, turn.wrote, []);
      var (u, b') := if b >= 0 then Backwarded(w, turn.read, [], turn.writeOk, turn.outputOk) else (w, b);
      Looped(v, f, b, turns) == if f' < 0 && b' < 0 then (u, Done) else Looped(u, f', b', turns[1..])
  {
    hide Backwarded, Forwarded;
  }

  lemma WriteTakes(v: View, out: Wrote)
    requires v.queue != [] && NoneEmpty(v.queue) && out.Wrote? && out.n >= 1
    ensures var (w, f) := Forwarded(v, out, []);
      && f == 1 && w.fd == v.fd.(wrote := v.fd.wrote + Sent(v.queue, out)) && w.eof == v.eof
      && Sent(v.queue, out) != [] && Sent(v.queue, out) + Concat(w.queue) == Concat(v.queue) && NoneEmpty(w.queue)
  {
    var bytes := Sent(v.queue, out);
    SentFirst(v.queue, out);
    assert v.queue[..Min(|v.queue|, 64)][0] == v.queue[0];
    FreeHeaderDrops(v.queue, |bytes|);
    StaysFilled(v.queue, |bytes|);
    assert Concat(v.queue)[..|bytes|] == bytes;
    assert bytes + Concat(v.queue)[|bytes|..] == Concat(v.queue);
  }

  /** A turn in which the socket gives something and lwIP takes what it is handed. */
  predicate Gives(t: Turn) {
    Quiet(t) && t.read.Read? && t.read.bytes != [] && Takes(t.writeOk, 0) && Takes(t.writeOk, 1) && t.outputOk
  }

  function GivenBy(turns: seq<Turn>): Bytes {
    if turns == [] then [] else (if turns[0].read.Read? then turns[0].read.bytes else []) + GivenBy(turns[1..])
  }

  /** A ring with nothing unread and so much room. */
  predicate Ready(r: Ring, room: nat) {
    r.rda == 0 && r.rp < r.size && r.use + room <= r.size
  }

  lemma ForwardedKeeps(v: View, out: Wrote)
    ensures var t := Forwarded(v, out, []).0;
      && t.open == v.open && t.ring == v.ring && t.fd.read == v.fd.read
      && t.peer.accepted == v.peer.accepted && t.peer.refused == v.peer.refused && t.peer.finished == v.peer.finished
  {
    hide Sent, FreeHeader;
  }

  /** Bytes for which there is room go through the ring to lwIP at once. */
  lemma BackwardPasses(v: View, turn: Turn, room: nat)
    requires v.open && Ready(v.ring, room) && Gives(turn) && |turn.read.bytes| <= room
    ensures var (t, res) := Backwarded(v, turn.read, [], turn.writeOk, turn.outputOk);
      && res == 1 && t.open && Ready(t.ring, room - |turn.read.bytes|) && t.fd.read == v.fd.read + turn.read.bytes
      && t.peer.accepted == v.peer.accepted + turn.read.bytes && !t.peer.refused && t.peer.finished == v.peer.finished
      && t.fd.wrote == v.fd.wrote
  {
    var more := turn.read.bytes;
    assert more[..Min(|more|, v.ring.size - v.ring.use)] == more;
    var r := WrittenOf(v.ring, more);
    assert Unread(r) == more;
    var n := UpToWrap(r, r.rda);
    assert 0 <= n <= |more| && TakenFrom(more, n, turn.writeOk) == more;
  }

  /** What the socket gives is handed on to lwIP, whole and in order, as long as there is room
      for it until something is acknowledged. */
  lemma {:induction false} DownloadPasses(v: View, f: int, b: int, turns: seq<Turn>)
    requires b >= 0 && v.open && Ready(v.ring, |GivenBy(turns)|) && forall i | 0 <= i < |turns| :: Gives(turns[i])
    ensures var (t, halt) := Looped(v, f, b, turns);
      && halt == Running && t.fd.read == v.fd.read + GivenBy(turns) && t.peer.accepted == v.peer.accepted + GivenBy(turns)
      && (turns != [] ==> !t.peer.refused) && t.peer.finished == v.peer.finished
    decreases |turns|
  {
    hide Forwarded, Backwarded, Ready;
    if turns == [] {
      assert v.fd.read + [] == v.fd.read && v.peer.accepted + [] == v.peer.accepted;
    } else {
      var turn := turns[0];
      assert Gives(turn);
      ForwardedKeeps(v, turn.wrote);
      var (w, f') := if f >= 0 then Forwarded(v, turn.wrote, []) else (v, f);
      BackwardPasses(w, turn, |GivenBy(turns)|);
      var u := Backwarded(w, turn.read, [], turn.writeOk, turn.outputOk).0;
      assert Looped(v, f, b, turns) == Looped(u, f', 1, turns[1..]);
      hide Looped;
      DownloadPasses(u, f', 1, turns[1..]);
      Regroup(v.fd.read, turn.read.bytes, GivenBy(turns[1..]));
      Regroup(v.peer.accepted, turn.read.bytes, GivenBy(turns[1..]));
      if |turns| == 1 { LoopedNone(u, f', 1, turns[1..]); }
    }
  }

  /** When the socket has nothing more, sending is shut down, once. */
  lemma DownloadEnds(v: View, f: int, turn: Turn)
    requires v.open && Ready(v.ring, 1) && Quiet(turn) && (turn.read == ReadError || turn.read == Read.Read([]))
    ensures var t := Looped(v, f, 0, [turn]).0; t.peer.finished == v.peer.finished + 1 && t.peer.accepted == v.peer.accepted && t.fd.ended
  {
    hide Forwarded, Backwarded, Ready;
    ForwardedKeeps(v, turn.wrote);
    assert [turn][1..] == [];
    var (w, f') := if f >= 0 then Forwarded(v, turn.wrote, []) else (v, f);
    BackwardEnds(w, turn);
    DeliveredNothing(Backwarded(w, turn.read, [], turn.writeOk, turn.outputOk).0);
    LoopedNone(Backwarded(w, turn.read, [], turn.writeOk, turn.outputOk).0, f', -1, []);
    assert Looped(v, f, 0, [turn]).0 == Backwarded(w, turn.read, [], turn.writeOk, turn.outputOk).0;
  }

  lemma BackwardEnds(v: View, turn: Turn)
    requires v.open && Ready(v.ring, 1) && (turn.read == ReadError || turn.read == Read.Read([]))
    ensures var (t, res) := Backwarded(v, turn.read, [], turn.writeOk, turn.outputOk);
      res == -1 && t.peer.finished == v.peer.finished + 1 && t.peer.accepted == v.peer.accepted && t.fd.ended
  {
    hide HandedOver;
    assert HandedOver(v.(fd := v.fd.(ended := true)), turn.writeOk, turn.outputOk).1 == false by { NoneUnread(v.(fd := v.fd.(ended := true)), turn.writeOk, turn.outputOk); }
  }

  lemma NoneUnread(v: View, writeOk: seq<bool>, outputOk: bool)
    requires v.ring.rda == 0
    ensures HandedOver(v, writeOk, outputOk) == (v, false)
  {
  }

  /** All that lwIP calls while turns of the loop wait. */
  function CallsOf(turns: seq<Turn>): seq<Event> {
    if turns == [] then [] else turns[0].between + turns[0].after + CallsOf(turns[1..])
  }

  lemma {:induction false} DeliveredJoin(v: View, a: seq<Event>, b: seq<Event>)
    ensures DeliveredTo(v, a + b) == DeliveredTo(DeliveredTo(v, a), b)
    decreases |a|
  {
    hide CalledBy;
    if a == [] {
      assert a + b == b;
    } else {
      assert (a + b)[0] == a[0] && (a + b)[1..] == a[1..] + b;
      DeliveredJoin(CalledBy(v, a[0]), a[1..], b);
    }
  }

  lemma {:induction false} NotAfterEnd(v: View, events: seq<Event>)
    requires !v.open
    ensures DeliveredTo(v, events) == v
    decreases |events|
  {
    if events != [] {
      NotAfterEnd(v, events[1..]);
    }
  }

  lemma {:induction false} UnreadStays(v: View, events: seq<Event>)
    ensures DeliveredTo(v, events).ring.rda == v.ring.rda && DeliveredTo(v, events).ring.size == v.ring.size
    decreases |events|
  {
    if events != [] {
      UnreadStays(CalledBy(v, events[0]), events[1..]);
    }
  }

  /** A loop that only waits for the socket to give something misses no call of lwIP. */
  lemma {:induction false} WaitingMissesNothing(v: View, b: int, turns: seq<Turn>)
    requires b >= 0 && v.ring.rda == 0 && forall i | 0 <= i < |turns| :: turns[i].read == WouldWait && turns[i].goOn
    ensures Looped(v, -1, b, turns).0 == DeliveredTo(v, CallsOf(turns))
    decreases |turns|
  {
    hide DeliveredTo;
    if turns == [] {
      DeliveredNothing(v);
    } else {
      var turn, rest := turns[0], CallsOf(turns[1..]);
      var u := DeliveredTo(v, turn.between);
      UnreadStays(v, turn.between);
      UnreadStays(u, turn.after);
      DeliveredJoin(v, turn.between + turn.after, rest);
      DeliveredJoin(v, turn.between, turn.after);
      WaitsOnce(v, turn);
      if u.open {
        WaitingMissesNothing(DeliveredTo(u, turn.after), 0, turns[1..]);
      } else {
        NotAfterEnd(u, turn.after);
        NotAfterEnd(u, rest);
      }
    }
  }

  lemma DeliveredNothing(v: View)
    ensures DeliveredTo(v, []) == v
  {
  }

  lemma WaitsOnce(v: View, turn: Turn)
    requires v.ring.rda == 0 && turn.read == WouldWait
    ensures var u := DeliveredTo(v, turn.between);
      Backwarded(v, turn.read, turn.between, turn.writeOk, turn.outputOk) == (u, if u.open then 0 else -1)
  {
    hide DeliveredTo;
    UnreadStays(v, turn.between);
  }

  /** The wait at the end misses none either, and ends as soon as all is acknowledged. */
  lemma {:induction false} DrainMissesNothing(v: View, waits: seq<Turn>)
    requires forall i | 0 <= i < |waits| :: waits[i].goOn
    ensures var (t, halt) := Waited(v, waits);
      && (halt == Running ==> t == DeliveredTo(v, AfterOf(waits)))
      && (halt == Done ==> exists k | 0 <= k < |waits| :: t == DeliveredTo(v, AfterOf(waits[..k])) && (!t.open || t.ring.use == 0))
    decreases |waits|
  {
    hide DeliveredTo;
    if waits == [] {
      DeliveredNothing(v);
    } else if !v.open || v.ring.use == 0 {
      DeliveredNothing(v);
      assert waits[..0] == [];
    } else {
      var u := DeliveredTo(v, waits[0].after);
      DeliveredJoin(v, waits[0].after, AfterOf(waits[1..]));
      DrainMissesNothing(u, waits[1..]);
      if Waited(u, waits[1..]).1 == Done {
        var t := Waited(u, waits[1..]).0;
        var k :| 0 <= k < |waits[1..]| && t == DeliveredTo(u, AfterOf(waits[1..][..k])) && (!t.open || t.ring.use == 0);
        DeliveredJoin(v, waits[0].after, AfterOf(waits[1..][..k]));
        assert waits[..k + 1][1..] == waits[1..][..k];
      }
    }
  }

  function AfterOf(waits: seq<Turn>): seq<Event> {
    if waits == [] then [] else waits[0].after + AfterOf(waits[1..])
  }

  /** Which calls failed. */
  function Trouble(p: Peer): (bool, bool) {
    (p.refused, p.unsent)
  }

  class Session {
    const buffer: Buffer
    var queue: seq<Bytes>
    var pcb: bool
    var pcbEof: bool
    var peer: Peer
    var fd: Socket
    ghost var owed: nat

    ghost predicate Valid()
      reads this, buffer, buffer.data
    {
      var r := buffer.ring;
      buffer.Valid() && pcbEof == peer.eof && Forward(queue, owed, peer.received, peer.window, fd.wrote, pcb) && Backward(r, fd.read, peer.accepted, peer.acked, peer.refused, peer.hole) && Finishes(queue, owed, r, peer, fd)
    }

    ghost function Now(): View
      reads this, buffer
    {
      View(queue, pcb, pcbEof, peer, fd, buffer.ring)
    }

    constructor (size: nat)
      ensures Valid() && fresh(buffer) && fresh(buffer.data) && queue == [] && pcb && owed == 0
      ensures peer == Peer([], false, TCP_WND, [], 0, false, None, false, 0) && fd == Socket([], false, [], false, 0)
      ensures buffer.ring == Ring(size, 0, 0, 0, 0, 0, []) && buffer.maxSize == size
    {
      buffer := new Buffer(size);
      queue, pcb, pcbEof, owed := [], true, false, 0;
      peer := Peer([], false, TCP_WND, [], 0, false, None, false, 0);
      fd := Socket([], false, [], false, 0);
    }

    // ----- the calls of lwIP -----

    predicate Possible(e: Event)
      reads this, buffer
    {
      pcb && match e
        case Received(chain) => !peer.eof && |Concat(chain)| <= peer.window
        case Acknowledged(n) => peer.acked + n <= |peer.accepted|
        case Error => true
    }

    method RecvHandler(p: seq<Bytes>)
      requires Valid() && Possible(Received(p))
      modifies this
      ensures Valid() && pcb == old(pcb) && owed == old(owed) && fd == old(fd) && queue == old(queue) + p
      ensures peer == old(peer).(received := old(peer).received + Concat(p), window := old(peer).window - |Concat(p)|, eof := p == [])
      ensures Now() == CalledBy(old(Now()), Received(p)) && buffer.ring == old(buffer.ring)
    {
      hide Buffer.Valid, Forward;
      Receiving(queue, owed, peer.received, peer.window, fd.wrote, pcb, p);
      peer := peer.(received := peer.received + Concat(p), window := peer.window - |Concat(p)|, eof := p == []);
      if p != [] {
        if queue != [] { queue := queue + p; } else { queue := p; }
      } else {
        pcbEof := true;
      }
      assert queue == old(queue) + p;
    }

    method SentHandler(len: nat)
      requires Valid() && Possible(Acknowledged(len))
      modifies this, buffer
      ensures Valid() && pcb == old(pcb) && owed == old(owed) && fd == old(fd) && queue == old(queue)
      ensures peer == old(peer).(acked := old(peer).acked + len)
      ensures len <= old(buffer.ring).use && buffer.ring == ReleasedOf(old(buffer.ring), len)
      ensures Now() == CalledBy(old(Now()), Acknowledged(len))
    {
      hide Buffer.Valid, Backward;
      Releasing(buffer.ring, fd.read, peer.accepted, peer.acked, peer.refused, peer.hole, len);
      AsFields();
      buffer.ReadRelease(len);
      peer := peer.(acked := peer.acked + len);
    }

    method ErrHandler()
      requires Valid()
      modifies this
      ensures Valid() && !pcb && owed == old(owed) && fd == old(fd) && queue == old(queue) && peer == old(peer) && buffer.ring == old(buffer.ring)
      ensures old(pcb) ==> Now() == CalledBy(old(Now()), Error)
    {
      hide Buffer.Valid, Backward, Forward;
      Closing(queue, owed, peer.received, peer.window, fd.wrote, pcb);
      pcb := false;
    }

    /** What no call of lwIP changes. */
    twostate predicate Steady()
      reads this, buffer
    {
      && (pcb ==> old(pcb)) && owed == old(owed) && fd == old(fd)
      && Trouble(peer) == Trouble(old(peer)) && peer.finished == old(peer.finished)
      && peer.accepted == old(peer.accepted) && peer.hole == old(peer.hole)
      && old(peer.received) <= peer.received
      && buffer.ring.rda == old(buffer.ring.rda) && buffer.ring.written == old(buffer.ring.written)
    }

    method Deliver(events: seq<Event>)
      requires Valid()
      modifies this, buffer
      ensures Valid() && Steady() && Now() == DeliveredTo(old(Now()), events)
    {
      hide Valid, CalledBy;
      assert events[0..] == events && events[|events|..] == [];
      for i := 0 to |events|
        invariant Valid() && Steady()
        invariant DeliveredTo(Now(), events[i..]) == DeliveredTo(old(Now()), events)
      {
        assert events[i..][0] == events[i] && events[i..][1..] == events[i + 1..];
        Call(events[i]);
      }
    }

    method Call(e: Event)
      requires Valid()
      modifies this, buffer
      ensures Valid() && Steady() && Now() == CalledBy(old(Now()), e)
    {
      hide Valid, CalledBy;
      NotCalled(Now(), e);
      if Possible(e) {
        match e
        case Received(chain) => RecvHandler(chain);
        case Acknowledged(n) => SentHandler(n);
        case Error => ErrHandler();
      }
    }

    lemma NotCalled(v: View, e: Event)
      ensures !CanCall(v, e) ==> CalledBy(v, e) == v
    {
    }

    lemma AsFields()
      requires Valid()
      ensures buffer.ring.rda == buffer.rdaSize <= buffer.useSize == buffer.ring.use <= buffer.maxSize == buffer.ring.size
      ensures buffer.maxSize == buffer.data.Length
    {
      hide Forward, Backward, Finishes, Stored;
    }

    lemma Sizes()
      requires Valid()
      ensures buffer.useSize == buffer.ring.use
    {
      AsFields();
    }

    // ----- the two directions -----

    /** From the queue to the socket: 1 if bytes went, 0 to wait, -1 at the end. */
    method SpliceForward(out: Wrote, before: seq<Event>) returns (res: int)
      requires Valid() && owed == 0 && fd.finished == 0
      modifies this, buffer
      ensures Valid() && owed == 0 && (pcb ==> old(pcb)) && -1 <= res <= 1
      ensures res == (if old(queue) == [] then if old(pcbEof) then -1 else 0
                      else if Sent(old(queue), out) != [] then 1 else if out.WouldBlock? then 0 else -1)
      ensures fd == old(fd).(wrote := old(fd).wrote + Sent(old(queue), out),
                             finished := if old(queue) == [] && old(pcbEof) then 1 else 0,
                             failed := old(fd).failed || (old(queue) != [] && res < 0))
      ensures peer.accepted == old(peer.accepted) && Trouble(peer) == Trouble(old(peer)) && peer.finished == old(peer.finished)
      ensures buffer.ring.rda == old(buffer.ring.rda) && buffer.ring.written == old(buffer.ring.written)
      ensures (Now(), res) == Forwarded(old(Now()), out, before)
      ensures before == [] && old(pcb) ==>
        pcb && peer == old(peer).(window := old(peer).window + |Sent(old(queue), out)|)
    {
      hide Valid, Sent, Granted, DeliveredTo;
      SentIs([], out);
      var iov: seq<Bytes> := [];
      res := 1;
      if queue != [] {
        while |iov| < |queue| && |iov| < MAX_VECTORS
          invariant |iov| <= Min(|queue|, MAX_VECTORS) && iov == queue[..|iov|]
        {
          iov := iov + [queue[|iov|]];
        }
      } else if pcbEof {
        res := -1;
      } else {
        res := 0;
      }
      if iov != [] {
        res := WriteOut(iov, out, before);
      } else if res < 0 {
        ShutdownWrite();
      }
      DeliveredNone(old(Now()).(fd := fd));
      GrantedIs(old(Now()).(fd := fd), |Sent(old(queue), out)|);
    }

    /** The vectors go to the socket, and what it took leaves the queue. */
    method WriteOut(iov: seq<Bytes>, out: Wrote, before: seq<Event>) returns (res: int)
      requires Valid() && owed == 0 && fd.finished == 0 && iov != [] && iov == queue[..Min(|queue|, MAX_VECTORS)]
      modifies this, buffer
      ensures Valid() && owed == 0 && (pcb ==> old(pcb)) && -1 <= res <= 1
      ensures (Now(), res) == Forwarded(old(Now()), out, before)
      ensures res == (if Sent(old(queue), out) != [] then 1 else if out.WouldBlock? then 0 else -1)
      ensures fd == old(fd).(wrote := old(fd).wrote + Sent(old(queue), out), failed := old(fd).failed || res < 0)
      ensures peer.accepted == old(peer.accepted) && Trouble(peer) == Trouble(old(peer)) && peer.finished == old(peer.finished)
      ensures buffer.ring.rda == old(buffer.ring.rda) && buffer.ring.written == old(buffer.ring.written)
    {
      hide Valid, Sent, Granted, DeliveredTo;
      SentIs(queue, out);
      var s: int := WriteV(iov, out);
      ghost var bytes := Sent(old(queue), out);
      assert |bytes| == owed && Now() == old(Now()).(fd := old(fd).(wrote := old(fd).wrote + bytes));
      if s <= 0 {
        assert bytes == [] && old(fd).wrote + [] == old(fd).wrote;
        if s < 0 && out.WouldBlock? { res := 0; } else { res := -1; }
        Failed(res < 0);
      } else {
        Deliver(before);
        Freed(s);
        res := 1;
      }
    }

    lemma GrantedIs(v: View, n: nat)
      ensures Granted(v, n).peer == if v.open then v.peer.(window := v.peer.window + n) else v.peer
      ensures Granted(v, n).open == v.open
    {
    }

    lemma SentIs(q: seq<Bytes>, out: Wrote)
      ensures var c := Concat(q[..Min(|q|, MAX_VECTORS)]);
        Sent(q, out) == c[..if out.Wrote? then Min(out.n, |c|) else 0]
    {
    }

    lemma DeliveredNone(v: View)
      ensures DeliveredTo(v, []) == v
    {
    }

    method ShutdownWrite()
      requires Valid() && owed == 0 && fd.finished == 0 && queue == [] && pcbEof
      modifies this`fd
      ensures Valid() && fd == old(fd).(finished := 1)
    {
      hide Buffer.Valid, Stored;
      fd := fd.(finished := fd.finished + 1);
    }

    method Failed(now: bool)
      requires Valid()
      modifies this`fd
      ensures Valid() && fd == old(fd).(failed := old(fd).failed || now)
    {
      hide Buffer.Valid;
      fd := fd.(failed := fd.failed || now);
    }

    /** The system takes what it can. */
    method WriteV(iov: seq<Bytes>, out: Wrote) returns (s: int)
      requires Valid() && owed == 0 && fd.finished == 0 && iov != [] && iov <= queue
      modifies this`fd, this`owed
      ensures owed <= |Concat(iov)| && s == (if out.Wrote? then owed else -1)
      ensures Valid() && fd == old(fd).(wrote := old(fd).wrote + Concat(iov)[..owed])
      ensures owed == if out.Wrote? then Min(out.n, |Concat(iov)|) else 0
    {
      var bytes := Concat(iov);
      var n := if out.Wrote? then Min(out.n, |bytes|) else 0;
      s := if out.Wrote? then n else -1;
      assert queue[..|iov|] == iov;
      Writing(queue, peer.received, peer.window, fd.wrote, pcb, |iov|, n);
      hide Forward, Buffer.Valid;
      fd := fd.(wrote := fd.wrote + bytes[..n]);
      owed := n;
    }

    /** What was written leaves the queue, in 16 bits as lwIP counts it. */
    method Freed(s: int)
      requires Valid() && 0 < s == owed && fd.finished == 0
      modifies this`queue, this`peer, this`owed
      ensures Valid() && owed == 0 && Now() == Granted(old(Now()), s)
      ensures peer == if pcb then old(peer).(window := old(peer).window + s) else old(peer)
    {
      Freeing(queue, owed, peer.received, peer.window, fd.wrote, pcb);
      hide Forward, Buffer.Valid;
      queue := FreeHeader(queue, s % 0x1_0000);
      if pcb {
        peer := peer.(window := peer.window + s);
      }
      owed := 0;
    }

    /** From the socket through the ring to lwIP: 1 if bytes went, 0 to wait, -1 at the
        end or when lwIP is gone or fails. */
    method SpliceBackward(input: Read, between: seq<Event>, writeOk: seq<bool>, outputOk: bool) returns (res: int)
      requires Valid() && owed == 0 && Backing()
      modifies this, buffer, buffer.data
      ensures Valid() && owed == 0 && (pcb ==> old(pcb)) && -1 <= res <= 1
      ensures fd == old(fd).(read := fd.read, ended := fd.ended) && old(peer.received) <= peer.received
      ensures fd.read == old(fd).read + ReadInto(input, old(buffer.maxSize - buffer.useSize))
      ensures (Now(), res) == Backwarded(old(Now()), input, between, writeOk, outputOk)
      ensures res >= 0 ==> Backing()
      ensures res < 0 ==> peer.finished == 1 || !pcb || peer.refused || peer.unsent
      ensures between == [] && old(pcb) ==>
        var more, was := ReadInto(input, old(buffer.maxSize - buffer.useSize)), old(buffer.ring);
        && pcb && peer.acked == old(peer).acked
        && (if more == [] then
              buffer.ring == was && peer.accepted == old(peer).accepted
            else
              && was.size > 0 && buffer.ring == Through(was, more) && 0 <= UpToWrap(was, |more|) <= |more|
              && peer.accepted == old(peer).accepted + TakenFrom(more, UpToWrap(was, |more|), writeOk)
              && (res == -1 <==> !outputOk || !Takes(writeOk, 0) || (UpToWrap(was, |more|) < |more| && !Takes(writeOk, 1))))
    {
      hide Valid, TakenFrom, ReadInto, Takes;
      res := ReadV(input);
      Deliver(between);
      var err := false;
      if pcb {
        var sent;
        sent, err := HandOver(writeOk, outputOk);
        if sent { res := 1; } else if res < 0 { ShutdownSend(); }
      }
      if !pcb || err {
        res := -1;
      }
    }

    /** The socket can still be read, and nothing read waits in the ring. */
    ghost predicate Backing()
      reads this, buffer
    {
      peer.finished == 0 && Trouble(peer) == (false, false) && !fd.ended && buffer.ring.rda == 0
    }

    /** The system puts what it has into the room of the ring. */
    method ReadV(input: Read) returns (res: int)
      requires Valid() && Backing()
      modifies this`fd, buffer, buffer.data
      ensures Valid() && fd == old(fd).(read := fd.read, ended := res < 0)
      ensures fd.read == old(fd).read + ReadInto(input, old(buffer.maxSize - buffer.useSize))
      ensures (Now(), res) == ReadOnce(old(Now()), input)
      ensures res == (if old(buffer.maxSize == buffer.useSize) || input.WouldWait? then 0
                      else if fd.read != old(fd).read then 1 else -1)
      ensures buffer.ring.written == fd.read
      ensures buffer.ring.rda == |fd.read| - |old(fd).read|
      ensures var more := ReadInto(input, old(buffer.maxSize - buffer.useSize));
        more != [] ==> old(buffer.ring).size > 0 && buffer.ring == WrittenOf(old(buffer.ring), more)
      ensures fd.read == old(fd).read ==> buffer.ring == old(buffer.ring)
    {
      hide Forward, Backward, Leads, Filled, Stored, Total;
      AsFields();
      ReadIsWritten(buffer.ring, fd.read, peer.accepted, peer.acked, peer.refused, peer.hole);
      var iov := buffer.Writing();
      RoomIsThere(iov, buffer.wp, buffer.maxSize, buffer.maxSize - buffer.useSize);
      hide Buffer.Valid;
      if iov != [] {
        var bytes := if input.Read? then input.bytes[..Min(|input.bytes|, Total(iov))] else [];
        if bytes == [] {
          if input.WouldWait? { res := 0; } else { res := -1; }
          fd := fd.(ended := res < 0);
        } else {
          buffer.Fill(iov, bytes);
          TookIn(bytes);
          res := 1;
        }
      } else {
        res := 0;
      }
    }

    method TookIn(bytes: Bytes)
      requires Valid() && Backing() && 0 < |bytes| <= buffer.maxSize - buffer.useSize
      requires Filled(buffer.data[..], buffer.maxSize, buffer.wp, bytes)
      modifies this`fd, buffer
      ensures Valid() && fd == old(fd).(read := old(fd).read + bytes)
      ensures buffer.ring.written == fd.read && buffer.ring.rda == |bytes|
      ensures old(buffer.ring).size > 0 && buffer.ring == WrittenOf(old(buffer.ring), bytes)
    {
      hide Forward, Backward, Filled, Stored;
      AsFields();
      Reading(buffer.ring, fd.read, peer.accepted, peer.acked, peer.refused, peer.hole, bytes);
      hide Buffer.Valid;
      buffer.WriteFinish(|bytes|, bytes);
      fd := fd.(read := fd.read + bytes);
      ReadIsWritten(buffer.ring, fd.read, peer.accepted, peer.acked, peer.refused, peer.hole);
    }

    /** All that is unread goes to lwIP, region by region. */
    method HandOver(writeOk: seq<bool>, outputOk: bool) returns (sent: bool, err: bool)
      requires Valid() && pcb && Trouble(peer) == (false, false) && peer.finished == 0
      modifies this`peer, buffer
      ensures Valid() && buffer.ring.rda == 0 && peer.finished == 0 && (peer.refused || peer.unsent) == err
      ensures (Now(), sent) == HandedOver(old(Now()), writeOk, outputOk)
      ensures sent == (old(buffer.ring).rda > 0) && (!sent ==> !err && peer == old(peer))
      ensures !peer.refused ==> peer.accepted == fd.read
      ensures peer.hole.Some? <==>
        sent && old(buffer.rp + buffer.rdaSize > buffer.maxSize) && !Takes(writeOk, 0) && Takes(writeOk, 1)
      ensures peer.received == old(peer).received && old(peer).accepted <= peer.accepted && peer.acked == old(peer).acked
      ensures old(buffer.ring).rda <= |old(buffer.ring).written|
      ensures sent ==>
        var r, u := old(buffer.ring), Unread(old(buffer.ring));
        var n := UpToWrap(r, r.rda);
        && r.size > 0 && buffer.ring == ReadOf(r, r.rda) && 0 <= n <= |u|
        && peer.accepted == old(peer).accepted + TakenFrom(u, n, writeOk)
        && peer.unsent == !outputOk && peer.refused == !(Takes(writeOk, 0) && (n < |u| ==> Takes(writeOk, 1)))
      ensures !sent ==> buffer.ring == old(buffer.ring)
    {
      hide Forward, Backward, Gather, Inside, Unread, Taken, Stored, Kept, AnyRefused, HoleOf, TakenFrom;
      AsFields();
      ReadIsWritten(buffer.ring, fd.read, peer.accepted, peer.acked, peer.refused, peer.hole);
      NoHole(buffer.ring, fd.read, peer.accepted, peer.acked, peer.hole);
      var iov := buffer.Reading();
      sent, err := |iov| > 0, false;
      if sent {
        HoleIs(iov, writeOk, |peer.accepted|);
        err := Offer(iov, writeOk, outputOk);
      }
      AllTaken(buffer.ring, fd.read, peer.accepted, peer.acked, peer.refused, peer.hole);
    }

    lemma HoleIs(iov: seq<Region>, oks: seq<bool>, at: nat)
      requires iov != []
      ensures HoleOf(iov, oks, at) == if |iov| == 2 && !Takes(oks, 0) && Takes(oks, 1) then Some(Hole(at, iov[0].len)) else None
    {
    }

    /** The regions of the unread bytes go to lwIP, and then out. */
    method Offer(iov: seq<Region>, writeOk: seq<bool>, outputOk: bool) returns (err: bool)
      requires Valid() && pcb && Trouble(peer) == (false, false) && peer.finished == 0 && peer.hole == None
      requires 1 <= |iov| <= 2 && Inside(iov, buffer.data.Length) && 0 < buffer.ring.rda <= |buffer.ring.written|
      requires Gather(buffer.data[..], iov) == Unread(buffer.ring)
      modifies this`peer, buffer
      ensures Valid() && peer.refused == AnyRefused(writeOk, |iov|) && peer.unsent == !outputOk && err == (peer.refused || peer.unsent)
      ensures peer.hole == HoleOf(iov, writeOk, |old(peer.accepted)|)
      ensures peer == old(peer).(accepted := peer.accepted, refused := peer.refused, unsent := peer.unsent, hole := peer.hole)
      ensures old(buffer.ring).rda <= |old(buffer.ring).written| && old(buffer.ring).size > 0
      ensures buffer.ring == ReadOf(old(buffer.ring), old(buffer.ring).rda)
      ensures var u := Unread(old(buffer.ring));
        && iov[0].len <= |u| == old(buffer.ring).rda && (|iov| == 1 ==> iov[0].len == |u|)
        && peer.accepted == old(peer).accepted + TakenFrom(u, iov[0].len, writeOk)
      ensures peer.refused == !(Takes(writeOk, 0) && (|iov| == 2 ==> Takes(writeOk, 1)))
    {
      hide Forward, Backward, Gather, Inside, Unread, Taken, Stored, Kept, AnyRefused, HoleOf, TakenFrom;
      AsFields();
      ReadIsWritten(buffer.ring, fd.read, peer.accepted, peer.acked, peer.refused, peer.hole);
      var s, before := 0, |peer.accepted|;
      s, err := Give(iov, writeOk);
      HoleWhen(iov, writeOk, before);
      KeptIs(buffer.data[..], iov, writeOk);
      Handing(buffer.ring, fd.read, old(peer), buffer.data[..], iov, writeOk);
      hide Buffer.Valid;
      buffer.ReadFinish(s);
      peer := peer.(refused := err, hole := HoleOf(iov, writeOk, before));
      if !outputOk { Unsent(); }
      err := err || !outputOk;
    }

    /** tcp_write, once for each region: the rest is handed over even after a refusal. */
    method Give(iov: seq<Region>, writeOk: seq<bool>) returns (s: nat, err: bool)
      requires Inside(iov, buffer.data.Length)
      modifies this`peer
      ensures s == |Gather(buffer.data[..], iov)| && err == AnyRefused(writeOk, |iov|)
      ensures peer == old(peer).(accepted := old(peer).accepted + Kept(buffer.data[..], iov, writeOk, 0))
    {
      hide Gather, Inside;
      ghost var d: Bytes := buffer.data[..];
      ghost var handed: Bytes, kept: Bytes := [], [];
      s, err := 0, false;
      GatherEnds(d, iov);
      for i := 0 to |iov|
        invariant |handed| == s && Gather(d, iov) == handed + Gather(d, iov[i..])
        invariant peer == old(peer).(accepted := old(peer).accepted + kept) && err == AnyRefused(writeOk, i)
        invariant Kept(d, iov, writeOk, 0) == kept + Kept(d, iov, writeOk, i)
      {
        GatherNext(d, iov, handed, i);
        var r := iov[i];
        var bytes: Bytes := buffer.data[r.base..r.base + r.len];
        var ok := i < |writeOk| && writeOk[i];
        if ok {
          Regroup(old(peer).accepted, kept, bytes);
          Regroup(kept, bytes, Kept(d, iov, writeOk, i + 1));
          peer := peer.(accepted := peer.accepted + bytes);
          kept := kept + bytes;
        }
        err := err || !ok;
        s := s + |bytes|;
        handed := handed + bytes;
      }
      assert handed + [] == handed && kept + [] == kept;
    }

    method Unsent()
      requires Valid()
      modifies this`peer
      ensures Valid() && peer == old(peer).(unsent := true)
    {
      hide Buffer.Valid, Stored;
      peer := peer.(unsent := true);
    }

    method ShutdownSend()
      requires Valid() && pcb && fd.ended && buffer.ring.rda == 0 && peer.finished == 0 && !peer.refused
      modifies this`peer
      ensures Valid() && peer == old(peer).(finished := 1)
    {
      hide Buffer.Valid, Stored;
      peer := peer.(finished := peer.finished + 1);
    }

    // ----- the splice -----

    /** Before the splice: nothing passed yet, but lwIP may have queued bytes. */
    ghost predicate Starting()
      reads this, buffer
    {
      owed == 0 && fd == Socket([], false, [], false, 0) && peer.finished == 0 && Trouble(peer) == (false, false) && buffer.ring.rda == 0
    }

    /** A direction that ended: shut down, or broken. */
    ghost predicate ForwardOver()
      reads this
    {
      fd.finished == 1 || fd.failed
    }

    ghost predicate BackwardOver()
      reads this
    {
      peer.finished == 1 || !pcb || peer.refused || peer.unsent
    }

    method Splice(turns: seq<Turn>, waits: seq<Turn>) returns (halt: Halt, drained: Halt)
      requires Valid() && Starting()
      modifies this, buffer, buffer.data
      ensures Valid() && owed == 0
      ensures halt.Done? && old(pcb) ==> ForwardOver() && BackwardOver()
      ensures drained.Done? ==> !pcb || buffer.useSize == 0
      ensures old(pcb) ==>
        var (v, h) := Looped(old(Now()), 1, 1, turns);
        h == halt && (Now(), drained) == Waited(v, waits)
    {
      if !pcb {
        return Done, Done;
      }
      hide Valid;
      halt := Mainly(turns);
      drained := Drain(waits);
    }

    method Mainly(turns: seq<Turn>) returns (halt: Halt)
      requires Valid() && Starting()
      modifies this, buffer, buffer.data
      ensures Valid() && owed == 0
      ensures halt.Done? ==> ForwardOver() && BackwardOver()
      ensures halt.Cut? ==> exists t :: t in turns && !t.goOn
      ensures (Now(), halt) == Looped(old(Now()), 1, 1, turns)
    {
      hide Valid, Forwarded, Backwarded, DeliveredTo;
      assert turns[0..] == turns && turns[|turns|..] == [];
      var resF, resB := 1, 1;
      for i := 0 to |turns|
        invariant Valid() && owed == 0
        invariant Looped(Now(), resF, resB, turns[i..]) == Looped(old(Now()), 1, 1, turns)
        invariant resF >= 0 ==> fd.finished == 0
        invariant resB >= 0 ==> Backing()
        invariant resF < 0 ==> ForwardOver()
        invariant resB < 0 ==> BackwardOver()
      {
        var turn := turns[i];
        assert turns[i..][0] == turn && turns[i..][1..] == turns[i + 1..];
        if resF >= 0 {
          resF := SpliceForward(turn.wrote, turn.before);
        }
        if resB >= 0 {
          resB := SpliceBackward(turn.read, turn.between, turn.writeOk, turn.outputOk);
        }
        // A bitwise and of -1 and 0 is 0 unless both are -1.
        if resF <= 0 && resB <= 0 && resF != 0 && resB != 0 {
          return Done;
        }
        Deliver(turn.after);
        if !turn.goOn {
          return Cut;
        }
      }
      halt := Running;
    }

    /** After the loop: until lwIP is gone or has acknowledged all that was read. */
    method Drain(waits: seq<Turn>) returns (halt: Halt)
      requires Valid() && owed == 0
      modifies this, buffer
      ensures Valid() && owed == 0 && fd == old(fd) && Trouble(peer) == Trouble(old(peer)) && peer.finished == old(peer).finished
      ensures pcb ==> old(pcb)
      ensures halt.Done? ==> !pcb || buffer.useSize == 0
      ensures (Now(), halt) == Waited(old(Now()), waits)
    {
      hide Valid, DeliveredTo;
      assert waits[0..] == waits && waits[|waits|..] == [];
      for i := 0 to |waits|
        invariant Valid() && Steady()
        invariant Waited(Now(), waits[i..]) == Waited(old(Now()), waits)
      {
        assert waits[i..][0] == waits[i] && waits[i..][1..] == waits[i + 1..];
        Sizes();
        if !pcb || buffer.useSize == 0 {
          return Done;
        }
        Deliver(waits[i].after);
        if !waits[i].goOn {
          return Cut;
        }
      }
      halt := Running;
    }

    /** What holds at any time: bytes arrive in order, and a direction is shut down at most
        once, when all its bytes have passed and no more can come. */
    lemma InOrder()
      requires Valid()
      ensures fd.wrote <= peer.received
      ensures buffer.ring.rda <= |buffer.ring.written| && Taken(buffer.ring) <= fd.read
      ensures peer.accepted <= fd.read <==> peer.hole.None? || SameAcross(fd.read, peer.hole.value, |peer.accepted|)
      ensures peer.hole.Some? ==> peer.refused
      ensures pcb && owed == 0 ==> peer.window + (|peer.received| - |fd.wrote|) == TCP_WND
      ensures fd.finished <= 1 && (fd.finished == 1 ==> peer.eof && fd.wrote == peer.received)
      ensures peer.finished <= 1 && (peer.finished == 1 ==> fd.ended && peer.accepted == fd.read)
    {
      hide Buffer.Valid, Stored;
      TakenSoFar(buffer.ring, fd.read, peer.accepted, peer.acked, peer.refused, peer.hole);
      HoleExactly(peer.accepted, fd.read, peer.hole);
      if fd.finished == 1 {
        Drained(peer.received, peer.window, fd.wrote, pcb);
      }
    }
  }

  /** A session with a ring of three bytes: two bytes pass, the first is acknowledged, and of
      the next two, which wrap around, lwIP refuses the first and takes the second. It then
      has a later byte without the earlier one. */
  method SecondRegionAlone() returns (s: Session, last: int)
    ensures s.Valid() && s.fd.read == [1, 2, 10, 20] && s.peer.accepted == [1, 2, 20] && last == -1
    ensures !(s.peer.accepted <= s.fd.read) && s.peer.hole.Some?
  {
    hide Session.Valid, WrittenOf, ReadOf, ReleasedOf, Through, TakenFrom, ReadInto;
    FirstTwo();
    LastTwo();
    s := new Session(3);
    s.AsFields();
    var first := s.SpliceBackward(Read.Read([1, 2]), [], [true], true);
    s.SentHandler(1);
    s.AsFields();
    last := s.SpliceBackward(Read.Read([10, 20]), [], [false, true], true);
    s.InOrder();
  }

  lemma FirstTwo()
    ensures ReadInto(Read.Read([1, 2]), 3) == [1, 2] && [] + [1, 2] == [1, 2]
    ensures UpToWrap(Ring(3, 0, 0, 0, 0, 0, []), 2) == 2 && TakenFrom([1, 2], 2, [true]) == [1, 2]
    ensures Through(Ring(3, 0, 0, 0, 0, 0, []), [1, 2]) == Ring(3, 2, 2, 0, 2, 0, [1, 2])
    ensures ReleasedOf(Ring(3, 2, 2, 0, 2, 0, [1, 2]), 1) == Ring(3, 2, 2, 0, 1, 1, [1, 2])
  {
    var r := Ring(3, 0, 0, 0, 0, 0, []);
    var w := Ring(3, 0, 2, 2, 2, 0, [1, 2]);
    assert [] + [1, 2] == [1, 2];
    assert WrittenOf(r, [1, 2]) == w;
  }

  lemma LastTwo()
    ensures ReadInto(Read.Read([10, 20]), 2) == [10, 20] && [1, 2] + [10, 20] == [1, 2, 10, 20]
    ensures UpToWrap(Ring(3, 2, 2, 0, 1, 1, [1, 2]), 2) == 1 && TakenFrom([10, 20], 1, [false, true]) == [20]
    ensures [1, 2] + [20] == [1, 2, 20] && !([1, 2, 20] <= [1, 2, 10, 20])
  {
    assert [1, 2, 20][2] == 20 && [1, 2, 10, 20][2] == 10;
  }
}
