/** Starting and stopping the tunnel: one flag word, one lifecycle thread, any number of
    stoppers, all interleaved step by atomic step. */
module TunnelSync {
  import opened Options

  /** Where the lifecycle thread is. */
  datatype Life =
    | Down       // nothing open
    | Opened     // init has the event sockets, SEND is not set yet
    | Primed     // init is done
    | Waiting    // run has tested STOP, the event task waits for a byte
    | Woken      // the event task has read
    | Ending     // the event task has cleared SENT
    | Finishing  // in the retry loop of fini
    | Closing    // fini has passed its loop

  /** Where a stopper is. `born` is the number of finis completed when it began. */
  datatype At =
    | Calling(born: nat)             // before or in its own retry loop
    | Holding(born: nat, saw: bool)  // it set WAIT, and saw SEND or not
    | Marked(born: nat)              // it set SENT, and is about to write the byte
    | Done(born: nat, saw: bool)     // about to clear WAIT

  /** The four flags, the event sockets and the unread bytes in them, and the threads.
      `holder` is the stopper that set WAIT last and has not cleared it. `owed` is set
      when a stop that began after the last fini completes before run has tested STOP. */
  datatype Sync = Sync(
    send: bool, sent: bool, wait: bool, stop: bool,
    life: Life, open: bool, bytes: nat,
    stoppers: map<nat, At>, holder: Option<nat>, finis: nat, owed: bool)

  datatype Move =
    | Open | InitFails | SetSend | TestStop | ReadByte | ClearSent | RunReturns | TryFini | Close
    | Call(i: nat) | Grab(i: nat) | Act(i: nat) | Write(i: nat) | Release(i: nat)

  const INITIAL: Sync := Sync(false, false, false, false, Down, false, 0, map[], None, 0, false)

  predicate BeforeTest(life: Life) {
    life in {Down, Opened, Primed}
  }

  predicate Enabled(s: Sync, m: Move) {
    match m
    case Open => s.life == Down
    case InitFails => s.life in {Down, Opened}
    case SetSend => s.life == Opened
    case TestStop => s.life == Primed
    case ReadByte => s.life == Waiting && s.bytes > 0
    case ClearSent => s.life == Woken
    case RunReturns => s.life == Ending
    case TryFini => s.life == Finishing
    case Close => s.life == Closing
    case Call(i) => i !in s.stoppers
    case Grab(i) => i in s.stoppers && s.stoppers[i].Calling?
    case Act(i) => i in s.stoppers && s.stoppers[i].Holding?
    case Write(i) => i in s.stoppers && s.stoppers[i].Marked?
    case Release(i) => i in s.stoppers && s.stoppers[i].Done?
  }

  function Step(s: Sync, m: Move): Sync
    requires Enabled(s, m)
  {
    match m
    case Open => s.(life := Opened, open := true, bytes := 0)
    case InitFails => s.(life := Finishing)
    case SetSend => s.(life := Primed, send := true)
    case TestStop => s.(life := if s.stop then Finishing else Waiting, stop := false, owed := false)
    case ReadByte => s.(life := Woken, bytes := 0)
    case ClearSent => s.(life := Ending, sent := false)
    case RunReturns => s.(life := Finishing)
    case TryFini => s.(life := if s.wait then Finishing else Closing, send := false, sent := false)
    case Close => s.(life := Down, open := false, bytes := 0, finis := s.finis + 1, owed := false)
    case Call(i) => s.(stoppers := s.stoppers[i := Calling(s.finis)])
    case Grab(i) =>
      if s.wait then s
      else s.(wait := true, holder := Some(i), stoppers := s.stoppers[i := Holding(s.stoppers[i].born, s.send)])
    case Act(i) =>
      var at := s.stoppers[i];
      if !at.saw then s.(stop := true, stoppers := s.stoppers[i := Done(at.born, false)])
      else if s.sent then s.(stoppers := s.stoppers[i := Done(at.born, true)])
      else s.(sent := true, stoppers := s.stoppers[i := Marked(at.born)])
    case Write(i) => s.(bytes := s.bytes + 1, stoppers := s.stoppers[i := Done(s.stoppers[i].born, true)])
    case Release(i) =>
      var timely := s.stoppers[i].born == s.finis && BeforeTest(s.life);
      s.(wait := false, holder := None, stoppers := s.stoppers - {i}, owed := s.owed || timely)
  }

  function Run(s: Sync, moves: seq<Move>): Option<Sync>
    decreases |moves|
  {
    if moves == [] then Some(s)
    else if !Enabled(s, moves[0]) then None
    else Run(Step(s, moves[0]), moves[1..])
  }

  // ----- the invariant -----

  /** WAIT says whether a stopper is inside, and just the holder is. */
  ghost predicate Exclusive(s: Sync) {
    && (s.wait <==> s.holder.Some?)
    && (s.holder.Some? ==> s.holder.value in s.stoppers)
    && (forall i | i in s.stoppers :: !s.stoppers[i].Calling? <==> s.holder == Some(i))
    && (forall i | i in s.stoppers :: s.stoppers[i].born <= s.finis)
  }

  function HolderAt(s: Sync): At {
    if s.holder.Some? && s.holder.value in s.stoppers then s.stoppers[s.holder.value] else Calling(0)
  }

  predicate Working(life: Life) {
    life in {Primed, Waiting, Woken, Ending}
  }

  /** The event sockets are there as long as anybody may still write. */
  ghost predicate Sockets(s: Sync) {
    var h := HolderAt(s);
    var may := s.send || s.sent || h.Marked? || ((h.Holding? || h.Done?) && h.saw);
    && (may ==> s.open && (Working(s.life) || s.life == Finishing))
    && (Working(s.life) ==> s.send)
    && (s.life == Opened ==> s.open)
    && (s.life == Down ==> !s.open)
  }

  function Count(b: bool): nat {
    if b then 1 else 0
  }

  /** SENT accounts for the byte written or about to be written, until fini clears it. */
  ghost predicate Signal(s: Sync) {
    var h := HolderAt(s);
    && (s.life in {Primed, Waiting, Ending} || (s.life == Finishing && s.send) ==> s.bytes + Count(h.Marked?) == Count(s.sent))
    && (s.life == Woken ==> s.sent && s.bytes == 0 && !h.Marked?)
    && (s.life in {Down, Opened} ==> s.bytes == 0)
    && (s.life == Finishing && !s.send ==> s.bytes + Count(h.Marked?) + Count(h.Holding? && h.saw) <= 2)
    && s.bytes <= 2
  }

  /** A stop that is through has left its mark, and one that is owed still has it. */
  ghost predicate Honoured(s: Sync) {
    var h := HolderAt(s);
    && (h.Done? && h.saw && s.life in {Primed, Waiting} ==> s.sent)
    && (h.Done? && BeforeTest(s.life) && h.born == s.finis ==> if h.saw then s.life == Primed else s.stop)
    && (s.owed && BeforeTest(s.life) ==> s.stop || (s.life == Primed && s.bytes >= 1))
  }

  ghost predicate Inv(s: Sync) {
    Exclusive(s) && Sockets(s) && Signal(s) && Honoured(s)
  }

  lemma HolderIs(s: Sync, m: Move)
    requires Exclusive(s) && Enabled(s, m)
    ensures m.Act? || m.Write? || m.Release? ==> s.holder == Some(m.i) && HolderAt(s) == s.stoppers[m.i]
    ensures Exclusive(Step(s, m))
    ensures !(m.Grab? || m.Act? || m.Write? || m.Release?) ==> HolderAt(Step(s, m)) == HolderAt(s)
    ensures m.Grab? ==> HolderAt(Step(s, m)) == if s.wait then HolderAt(s) else Holding(s.stoppers[m.i].born, s.send)
    ensures m.Act? ==> HolderAt(Step(s, m)) == Step(s, m).stoppers[m.i]
    ensures m.Write? ==> HolderAt(Step(s, m)) == Done(HolderAt(s).born, true)
    ensures m.Release? ==> HolderAt(Step(s, m)) == Calling(0)
    ensures !s.wait ==> HolderAt(s).Calling?
    ensures HolderAt(s).born <= s.finis && (m.Grab? ==> s.stoppers[m.i].born <= s.finis)
  {
  }

  lemma InvStep(s: Sync, m: Move)
    requires Inv(s) && Enabled(s, m)
    ensures Inv(Step(s, m))
  {
    hide Exclusive, HolderAt, Sockets, Signal, Honoured;
    HolderIs(s, m);
    SocketsStep(s, m);
    SignalStep(s, m);
    HonouredStep(s, m);
  }

  lemma SocketsStep(s: Sync, m: Move)
    requires Inv(s) && Enabled(s, m)
    ensures Sockets(Step(s, m))
  {
    hide Exclusive, HolderAt, Signal, Honoured;
    HolderIs(s, m);
  }

  lemma SignalStep(s: Sync, m: Move)
    requires Inv(s) && Enabled(s, m)
    ensures Signal(Step(s, m))
  {
    hide Exclusive, HolderAt, Honoured;
    HolderIs(s, m);
  }

  lemma HonouredStep(s: Sync, m: Move)
    requires Inv(s) && Enabled(s, m)
    ensures Honoured(Step(s, m))
  {
    hide Exclusive, HolderAt;
    HolderIs(s, m);
  }

  lemma {:induction false} InvRun(s: Sync, moves: seq<Move>)
    requires Inv(s) && Run(s, moves).Some?
    ensures Inv(Run(s, moves).value)
    decreases |moves|
  {
    if moves != [] {
      InvStep(s, moves[0]);
      InvRun(Step(s, moves[0]), moves[1..]);
    }
  }

  // ----- what it means -----

  /** A state some run from the start comes to. */
  ghost predicate Reachable(s: Sync) {
    exists moves :: Run(INITIAL, moves) == Some(s)
  }

  lemma ReachableInv(s: Sync)
    requires Reachable(s)
    ensures Inv(s)
  {
    var moves :| Run(INITIAL, moves) == Some(s);
    InvRun(INITIAL, moves);
  }

  /** At most one stopper is ever between setting and clearing WAIT. */
  lemma OneInside(s: Sync, i: nat, j: nat)
    requires Reachable(s) && i in s.stoppers && j in s.stoppers
    requires !s.stoppers[i].Calling? && !s.stoppers[j].Calling?
    ensures i == j && s.wait
  {
    ReachableInv(s);
  }

  /** The event byte is only written while the sockets are open, and there is room for it:
      no more than two bytes are ever unread. */
  lemma WritesToOpenSockets(s: Sync, i: nat)
    requires Reachable(s) && Enabled(s, Write(i))
    ensures s.open && Step(s, Write(i)).bytes <= 2
  {
    ReachableInv(s);
    InvStep(s, Write(i));
    HolderIs(s, Write(i));
  }

  /** Once fini has passed its retry loop, SEND and SENT are clear, and stay so until the
      next init is done. */
  lemma ClearAfterFini(s: Sync)
    requires Reachable(s) && s.life in {Closing, Down, Opened}
    ensures !s.send && !s.sent
  {
    ReachableInv(s);
  }

  /** A stop that began after the last fini, and was through before run tested STOP, makes
      run return at once or leaves a byte for the event task. */
  lemma StopNotLost(s: Sync)
    requires Reachable(s) && s.life == Primed && s.owed
    ensures var t := Step(s, TestStop);
      t.life == Finishing || (t.life == Waiting && t.bytes > 0 && Enabled(t, ReadByte))
  {
    ReachableInv(s);
  }

  lemma {:induction false} OwedStays(s: Sync, moves: seq<Move>)
    requires s.owed && TestStop !in moves && Close !in moves && Run(s, moves).Some?
    ensures Run(s, moves).value.owed
    decreases |moves|
  {
    if moves != [] {
      assert moves[0] in moves;
      OwedStays(Step(s, moves[0]), moves[1..]);
    }
  }

  /** The same of a run: whatever comes between such a stop and the test. */
  lemma TimelyStopNotLost(s: Sync, i: nat, moves: seq<Move>)
    requires Reachable(s) && Enabled(s, Release(i)) && s.stoppers[i].born == s.finis && BeforeTest(s.life)
    requires TestStop !in moves && Close !in moves
    requires var t := Run(Step(s, Release(i)), moves); t.Some? && t.value.life == Primed
    ensures var t := Step(Run(Step(s, Release(i)), moves).value, TestStop);
      t.life == Finishing || (t.life == Waiting && t.bytes > 0 && Enabled(t, ReadByte))
  {
    var before :| Run(INITIAL, before) == Some(s);
    ReachableOn(INITIAL, before, [Release(i)] + moves);
    assert ([Release(i)] + moves)[1..] == moves;
    OwedStays(Step(s, Release(i)), moves);
    StopNotLost(Run(Step(s, Release(i)), moves).value);
  }

  /** A stop that saw SEND set is through only once a byte waits for the event task, or
      the run is already ending. */
  lemma SeenStopEndsRun(s: Sync, i: nat)
    requires Reachable(s) && Enabled(s, Release(i)) && s.stoppers[i].saw
    ensures s.life in {Primed, Waiting} ==> s.bytes > 0
    ensures s.life in {Primed, Waiting, Woken, Ending, Finishing}
  {
    ReachableInv(s);
    HolderIs(s, Release(i));
  }

  /** Stops that overlap init and run can be lost: this one began before init was done,
      and set STOP only after run had tested it. The run goes on, nothing waits for the
      event task, and STOP is left for the next run. */
  lemma OverlappingStopLost()
    ensures exists s :: Reachable(s) && s.life == Waiting && s.bytes == 0 && s.stop && s.stoppers == map[]
  {
    var s1 := Step(INITIAL, Open);
    var s2 := Step(s1, Call(0));
    var s3 := Step(s2, Grab(0));
    var s4 := Step(s3, SetSend);
    var s5 := Step(s4, TestStop);
    var s6 := Step(s5, Act(0));
    var s7 := Step(s6, Release(0));
    var moves := [Open, Call(0), Grab(0), SetSend, TestStop, Act(0), Release(0)];
    assert Run(s6, moves[6..]) == Some(s7);
    assert Run(s5, moves[5..]) == Run(s6, moves[6..]);
    assert Run(s4, moves[4..]) == Run(s5, moves[5..]);
    assert Run(s3, moves[3..]) == Run(s4, moves[4..]);
    assert Run(s2, moves[2..]) == Run(s3, moves[3..]);
    assert Run(s1, moves[1..]) == Run(s2, moves[2..]);
    assert Run(INITIAL, moves) == Run(s1, moves[1..]);
    assert s7.stoppers == map[];
  }

  /** Whatever comes next, the first test of STOP ends that run at once. */
  ghost predicate EndsAtTest(s: Sync) {
    forall moves :: Run(s, moves).Some? && TestStop !in moves && Run(s, moves).value.life == Primed
      ==> Step(Run(s, moves).value, TestStop).life == Finishing
  }

  /** Whatever comes next, the run waits until some stopper writes. */
  ghost predicate WaitsOn(s: Sync) {
    forall moves :: Run(s, moves).Some? && Writeless(moves) ==> Run(s, moves).value.life == Waiting
  }

  predicate Writeless(moves: seq<Move>) {
    forall k | 0 <= k < |moves| :: !moves[k].Write?
  }

  lemma {:induction false} StopStays(s: Sync, moves: seq<Move>)
    requires s.stop && Run(s, moves).Some? && TestStop !in moves
    ensures Run(s, moves).value.stop
    decreases |moves|
  {
    if moves != [] {
      assert moves[0] in moves;
      StopStays(Step(s, moves[0]), moves[1..]);
    }
  }

  lemma {:induction false} WaitStays(s: Sync, moves: seq<Move>)
    requires s.life == Waiting && s.bytes == 0 && Run(s, moves).Some? && Writeless(moves)
    ensures Run(s, moves).value.life == Waiting
    decreases |moves|
  {
    if moves != [] {
      assert !moves[0].Write?;
      assert forall k | 0 <= k < |moves[1..]| :: !moves[1..][k].Write? by { assert forall k | 0 <= k < |moves| - 1 :: moves[1..][k] == moves[k + 1]; }
      WaitStays(Step(s, moves[0]), moves[1..]);
    }
  }

  /** A stop that did not see SEND leaves STOP set until it is tested: it ends the run at
      hand if the test is still to come, in whatever state before it, and is missed by that
      run if and only if that has been tested and waits. */
  lemma UnseenStopExactly(s: Sync, i: nat)
    requires Enabled(s, Act(i)) && !s.stoppers[i].saw && s.bytes == 0 && (BeforeTest(s.life) || s.life == Waiting)
    ensures var t := Step(s, Act(i));
      EndsAtTest(t) && (WaitsOn(t) <==> !BeforeTest(s.life))
  {
    var t := Step(s, Act(i));
    forall moves | Run(t, moves).Some? && TestStop !in moves && Run(t, moves).value.life == Primed
      ensures Step(Run(t, moves).value, TestStop).life == Finishing
    {
      StopStays(t, moves);
    }
    if s.life == Waiting {
      forall moves | Run(t, moves).Some? && Writeless(moves) ensures Run(t, moves).value.life == Waiting {
        WaitStays(t, moves);
      }
    } else {
      assert Run(t, []) == Some(t) && Writeless([]);
    }
  }


  // ----- what a test takes away -----

  /** How many stops that did not see SEND left their mark in a run. */
  function Marks(s: Sync, moves: seq<Move>): nat
    decreases |moves|
  {
    if moves == [] || !Enabled(s, moves[0]) then 0
    else Count(moves[0].Act? && !s.stoppers[moves[0].i].saw) + Marks(Step(s, moves[0]), moves[1..])
  }

  /** How many runs of the tunnel ended at their test of STOP. */
  function EndedAtTest(s: Sync, moves: seq<Move>): nat
    decreases |moves|
  {
    if moves == [] || !Enabled(s, moves[0]) then 0
    else
      var t := Step(s, moves[0]);
      Count(moves[0].TestStop? && t.life == Finishing) + EndedAtTest(t, moves[1..])
  }

  lemma {:induction false} MarkedExactly(s: Sync, moves: seq<Move>)
    requires Run(s, moves).Some? && TestStop !in moves
    ensures Run(s, moves).value.stop <==> s.stop || Marks(s, moves) > 0
    decreases |moves|
  {
    if moves != [] {
      assert moves[0] in moves;
      MarkedExactly(Step(s, moves[0]), moves[1..]);
    }
  }

  /** From one test of STOP to the next: the flag is set if and only if a stop that did not
      see SEND acted in between, the next run ends at its test in just that case, and waits
      for a byte otherwise. */
  lemma TestedExactly(s: Sync, moves: seq<Move>)
    requires Enabled(s, TestStop) && TestStop !in moves && Run(Step(s, TestStop), moves).Some?
    ensures var t := Run(Step(s, TestStop), moves).value;
      && (t.stop <==> Marks(Step(s, TestStop), moves) > 0)
      && (t.life == Primed ==>
          Step(t, TestStop).life == if Marks(Step(s, TestStop), moves) > 0 then Finishing else Waiting)
  {
    MarkedExactly(Step(s, TestStop), moves);
  }

  lemma {:induction false} MarksPay(s: Sync, moves: seq<Move>)
    requires Run(s, moves).Some?
    ensures EndedAtTest(s, moves) + Count(Run(s, moves).value.stop) <= Marks(s, moves) + Count(s.stop)
    decreases |moves|
  {
    if moves != [] {
      MarksPay(Step(s, moves[0]), moves[1..]);
    }
  }

  /** One stop ends at most one run at its test. */
  lemma OneStopEndsOneRun(moves: seq<Move>)
    requires Run(INITIAL, moves).Some?
    ensures EndedAtTest(INITIAL, moves) <= Marks(INITIAL, moves)
  {
    MarksPay(INITIAL, moves);
  }

  // ----- what a stopper sees -----

  /** From the first try of fini on, no stopper sees SEND before the next init is done. */
  lemma UnseenFromFini(s: Sync, moves: seq<Move>)
    requires Enabled(s, TryFini) && SetSend !in moves && Run(Step(s, TryFini), moves).Some?
    ensures !Run(Step(s, TryFini), moves).value.send
  {
    SendStaysClear(Step(s, TryFini), moves);
  }

  lemma {:induction false} SendStaysClear(s: Sync, moves: seq<Move>)
    requires !s.send && SetSend !in moves && Run(s, moves).Some?
    ensures !Run(s, moves).value.send
    decreases |moves|
  {
    if moves != [] {
      assert moves[0] in moves;
      SendStaysClear(Step(s, moves[0]), moves[1..]);
    }
  }

  /** The stopper is inside, and saw SEND. */
  ghost predicate Seeing(s: Sync, i: nat) {
    i in s.stoppers && !s.stoppers[i].Calling? && (s.stoppers[i].Marked? || s.stoppers[i].saw)
  }

  lemma SeeingStep(s: Sync, i: nat, m: Move)
    requires Seeing(s, i) && m != Release(i) && Enabled(s, m)
    ensures Seeing(Step(s, m), i)
  {
  }

  lemma {:induction false} SeeingStays(s: Sync, i: nat, moves: seq<Move>)
    requires Seeing(s, i) && Release(i) !in moves && Run(s, moves).Some?
    ensures Seeing(Run(s, moves).value, i)
    decreases |moves|
  {
    hide Seeing, Step, Enabled;
    if moves != [] {
      assert moves[0] in moves;
      SeeingStep(s, i, moves[0]);
      SeeingStays(Step(s, moves[0]), i, moves[1..]);
    }
  }

  lemma {:induction false} ReachableOn(s: Sync, moves: seq<Move>, more: seq<Move>)
    requires Run(s, moves).Some?
    ensures Run(s, moves + more) == Run(Run(s, moves).value, more)
    decreases |moves|
  {
    if moves == [] {
      assert moves + more == more;
    } else {
      assert (moves + more)[0] == moves[0] && (moves + more)[1..] == moves[1..] + more;
      ReachableOn(Step(s, moves[0]), moves[1..], more);
    }
  }

  /** A stop that sets WAIT while the tunnel is up is never lost, whatever comes between:
      once it is through, a byte waits or the run is over or ending. */
  lemma StopOfRunningTunnel(s: Sync, i: nat, moves: seq<Move>)
    requires Reachable(s) && Working(s.life) && Enabled(s, Grab(i)) && !s.wait
    requires Release(i) !in moves && Run(Step(s, Grab(i)), moves).Some? && Enabled(Run(Step(s, Grab(i)), moves).value, Release(i))
    ensures var t := Run(Step(s, Grab(i)), moves).value;
      && (t.life in {Primed, Waiting} ==> t.bytes > 0)
      && t.life in {Primed, Waiting, Woken, Ending, Finishing}
  {
    ReachableInv(s);
    var g := Step(s, Grab(i));
    SeeingStays(g, i, moves);
    var before :| Run(INITIAL, before) == Some(s);
    ReachableOn(INITIAL, before, [Grab(i)] + moves);
    assert ([Grab(i)] + moves)[1..] == moves;
    SeenStopEndsRun(Run(g, moves).value, i);
  }

  // ----- nothing is ever stuck -----

  ghost predicate Leads(s: Sync, t: Sync) {
    Inv(t) && exists moves :: Run(s, moves) == Some(t)
  }

  lemma LeadsStep(s: Sync, t: Sync, m: Move)
    requires Inv(s) && Leads(s, t) && Enabled(t, m)
    ensures Leads(s, Step(t, m))
  {
    hide Inv, Enabled, Step;
    var moves :| Run(s, moves) == Some(t);
    ReachableOn(s, moves, [m]);
    assert [m][1..] == [] && Run(Step(t, m), []) == Some(Step(t, m));
    InvStep(t, m);
  }

  /** How many moves the stopper inside still has. */
  function Inside(s: Sync): nat {
    match HolderAt(s)
    case Holding(_, _) => 3
    case Marked(_) => 2
    case Done(_, _) => 1
    case Calling(_) => 0
  }

  lemma HolderMoves(t: Sync) returns (m: Move)
    requires Inv(t) && t.wait
    ensures Enabled(t, m) && Inside(Step(t, m)) < Inside(t) && Step(t, m).life == t.life && Step(t, m).bytes >= t.bytes
  {
    hide Sockets, Signal, Honoured;
    var i := t.holder.value;
    assert t.stoppers[i] == HolderAt(t);
    match t.stoppers[i]
    case Holding(_, _) => m := Act(i);
    case Marked(_) => m := Write(i);
    case Done(_, _) => m := Release(i);
    case Calling(_) => assert false;
  }

  /** The stopper inside, if there is one, gets out, whatever else stands still. */
  lemma {:induction false} HolderLeaves(s: Sync, t: Sync) returns (u: Sync)
    requires Inv(s) && Leads(s, t)
    ensures Leads(s, u) && !u.wait && u.life == t.life && u.bytes >= t.bytes
    decreases Inside(t)
  {
    hide Inv, Inside, Step, Enabled;
    LeadsInv(s, t);
    u := t;
    if t.wait {
      var m := HolderMoves(t);
      LeadsStep(s, t, m);
      u := HolderLeaves(s, Step(t, m));
    }
  }

  lemma LeadsInv(s: Sync, t: Sync)
    requires Leads(s, t)
    ensures Inv(t)
  {
  }

  lemma NewStopper(s: Sync) returns (i: nat)
    ensures i !in s.stoppers
  {
    i := Above(s.stoppers.Keys);
  }

  lemma {:induction false} Above(keys: set<nat>) returns (n: nat)
    ensures forall k | k in keys :: k < n
  {
    if keys == {} {
      n := 0;
    } else {
      var k :| k in keys;
      var m := Above(keys - {k});
      n := if k < m then m else k + 1;
      assert forall j | j in keys :: j == k || j in keys - {k};
    }
  }

  /** A byte comes to a run that waits: a stop writes it. */
  lemma ByteComes(s: Sync, t: Sync) returns (u: Sync)
    requires Inv(s) && Leads(s, t) && t.life == Waiting && !t.wait
    ensures Leads(s, u) && u.life == Waiting && u.bytes > 0
  {
    hide Leads, Honoured;
    LeadsInv(s, t);
    u := t;
    if u.bytes == 0 {
      var i := NewStopper(u);
      LeadsStep(s, u, Call(i));
      u := Step(u, Call(i));
      LeadsStep(s, u, Grab(i));
      u := Step(u, Grab(i));
      HolderSees(t, i);
      LeadsStep(s, u, Act(i));
      u := Step(u, Act(i));
      LeadsStep(s, u, Write(i));
      u := Step(u, Write(i));
    }
  }

  lemma HolderSees(t: Sync, i: nat)
    requires Inv(t) && t.life == Waiting && !t.wait && t.bytes == 0 && i !in t.stoppers
    ensures t.send && !t.sent
  {
    hide Honoured;
  }

  /** How many moves the lifecycle thread still has, once there is a byte to read. */
  function Ahead(life: Life): nat {
    match life
    case Down => 0
    case Closing => 1
    case Finishing => 2
    case Ending => 3
    case Woken => 4
    case Waiting => 5
    case Primed => 6
    case Opened => 3
  }

  lemma LifeMoves(t: Sync) returns (m: Move)
    requires !t.wait && t.life != Down && (t.life == Waiting ==> t.bytes > 0)
    ensures Enabled(t, m) && Ahead(Step(t, m).life) < Ahead(t.life) && !Step(t, m).wait
  {
    match t.life
    case Opened => m := InitFails;
    case Primed => m := TestStop;
    case Waiting => m := ReadByte;
    case Woken => m := ClearSent;
    case Ending => m := RunReturns;
    case Finishing => m := TryFini;
    case Closing => m := Close;
    case Down => assert false;
  }

  lemma {:induction false} LifeEnds(s: Sync, t: Sync) returns (u: Sync)
    requires Inv(s) && Leads(s, t) && !t.wait
    ensures Leads(s, u) && u.life == Down && !u.wait
    decreases Ahead(t.life)
  {
    hide Inv, Step, Enabled, Leads;
    u := t;
    if t.life != Down {
      if t.life == Waiting {
        u := ByteComes(s, t);
        u := HolderLeaves(s, u);
      }
      var m := LifeMoves(u);
      LeadsStep(s, u, m);
      u := LifeEnds(s, Step(u, m));
    }
  }

  /** From any state that can be reached, the tunnel can be brought down, with no stopper
      inside: nothing is ever stuck. */
  lemma CanAlwaysStop(s: Sync) returns (t: Sync)
    requires Reachable(s)
    ensures t.life == Down && !t.wait && exists moves :: Run(s, moves) == Some(t)
  {
    ReachableInv(s);
    assert Run(s, []) == Some(s);
    hide Inv, Run;
    t := HolderLeaves(s, s);
    t := LifeEnds(s, t);
  }
}
