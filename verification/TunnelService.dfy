/** The service calls: start and stop under one mutex, and the worker threads they
    create and join, interleaved step by step. */
module TunnelService {
  import opened Options

  /** Where a worker thread is. */
  datatype Worker =
    | InMain     // in the tunnel main, or about to enter it
    | OutOfMain  // is_running cleared, its data not freed yet
    | Exited     // data freed, thread returned

  /** Where the call that holds the mutex is; a stop that joins knows whether it has asked the
      tunnel to quit. */
  datatype Op =
    | StartTests | StartJoins | StartAllocates
    | StartAnnounces(data: nat) | StartCreates(data: nat) | StartFails(data: nat) | StartSucceeds
    | StopTests | StopQuits | StopJoins(asked: bool) | StopClears
    | Leaves

  /** The flags, the call that holds the mutex, the thread in work_thread, every thread
      ever created with the number of its joins, and every block of thread data ever made
      with the number of its frees. Threads and blocks are numbered alike. */
  datatype Service = Service(
    running: bool, joinable: bool, op: Option<Op>, handle: nat,
    workers: map<nat, Worker>, joins: map<nat, nat>, made: nat, frees: map<nat, nat>)

  datatype Move =
    | Start | Stop              // a call gets the mutex
    | Proceed(granted: bool)    // its next step; `granted` is what the system answers
    | MainReturns(w: nat) | WorkerFrees(w: nat)

  const INITIAL: Service := Service(false, false, None, 0, map[], map[], 0, map[])

  function Times(m: map<nat, nat>, k: nat): nat {
    if k in m then m[k] else 0
  }

  /** There is a thread that was created and not joined. */
  predicate Unjoined(s: Service) {
    s.handle in s.workers && Times(s.joins, s.handle) == 0
  }

  predicate Enabled(s: Service, m: Move) {
    match m
    case Start => s.op == None
    case Stop => s.op == None
    case Proceed(_) =>
      s.op.Some? && ((s.op.value.StartJoins? || s.op.value.StopJoins?) ==> s.handle in s.workers && s.workers[s.handle] == Exited)
    case MainReturns(w) => w in s.workers && s.workers[w] == InMain
    case WorkerFrees(w) => w in s.workers && s.workers[w] == OutOfMain
  }

  function Joined(s: Service): Service {
    s.(joins := s.joins[s.handle := Times(s.joins, s.handle) + 1])
  }

  function Freed(s: Service, k: nat): Service {
    s.(frees := s.frees[k := Times(s.frees, k) + 1])
  }

  function Proceeding(s: Service, granted: bool): Service
    requires s.op.Some?
  {
    match s.op.value
    case StartTests =>
      s.(op := Some(if s.running then Leaves else if s.joinable then StartJoins else StartAllocates))
    case StartJoins => Joined(s).(joinable := false, op := Some(StartAllocates))
    case StartAllocates =>
      if granted then s.(made := s.made + 1, op := Some(StartAnnounces(s.made))) else s.(op := Some(Leaves))
    case StartAnnounces(data) => s.(running := true, op := Some(StartCreates(data)))
    case StartCreates(data) =>
      if granted then s.(workers := s.workers[data := InMain], handle := data, op := Some(StartSucceeds))
      else s.(op := Some(StartFails(data)))
    case StartFails(data) => Freed(s, data).(running := false, op := Some(Leaves))
    case StartSucceeds => s.(joinable := true, op := Some(Leaves))
    case StopTests => s.(op := Some(if !s.joinable then Leaves else if s.running then StopQuits else StopJoins(false)))
    case StopQuits => s.(op := Some(StopJoins(true)))
    case StopJoins(_) => Joined(s).(op := Some(StopClears))
    case StopClears => s.(joinable := false, running := false, op := Some(Leaves))
    case Leaves => s.(op := None)
  }

  function Step(s: Service, m: Move): Service
    requires Enabled(s, m)
  {
    match m
    case Start => s.(op := Some(StartTests))
    case Stop => s.(op := Some(StopTests))
    case Proceed(granted) => Proceeding(s, granted)
    case MainReturns(w) => s.(running := false, workers := s.workers[w := OutOfMain])
    case WorkerFrees(w) => Freed(s, w).(workers := s.workers[w := Exited])
  }

  function Run(s: Service, moves: seq<Move>): Option<Service>
    decreases |moves|
  {
    if moves == [] then Some(s)
    else if !Enabled(s, moves[0]) then None
    else Run(Step(s, moves[0]), moves[1..])
  }

  // ----- the invariant -----

  /** Every thread but the unjoined one has exited and was joined once. */
  ghost predicate Threads(s: Service) {
    forall w | w in s.workers :: ThreadOk(s, w)
  }

  ghost predicate ThreadOk(s: Service, w: nat)
    requires w in s.workers
  {
    && w < s.made
    && if Unjoined(s) && w == s.handle then Times(s.joins, w) == 0 else s.workers[w] == Exited && Times(s.joins, w) == 1
  }

  /** The block a start call has made and not handed over yet. */
  function Pending(s: Service): Option<nat> {
    match s.op
    case Some(StartAnnounces(data)) => Some(data)
    case Some(StartCreates(data)) => Some(data)
    case Some(StartFails(data)) => Some(data)
    case _ => None
  }

  /** Every block is freed once its thread is through, or was not created. */
  ghost predicate Blocks(s: Service) {
    && (Pending(s).Some? ==> Pending(s).value < s.made && Pending(s).value !in s.workers)
    && forall k | 0 <= k < s.made :: BlockOk(s, k)
  }

  ghost predicate BlockOk(s: Service, k: nat) {
    Times(s.frees, k) ==
      if k in s.workers then (if s.workers[k] == Exited then 1 else 0) else if Pending(s) == Some(k) then 0 else 1
  }

  /** The flags tell whether there is a thread to join, and whether it is in main. */
  ghost predicate Flags(s: Service) {
    var op := if s.op.Some? then s.op.value else Leaves;
    && (Unjoined(s) && s.workers[s.handle] == InMain ==> s.running)
    && (match op
        case StartJoins => s.joinable && Unjoined(s) && s.workers[s.handle] != InMain
        case StartAllocates => !s.joinable && !Unjoined(s)
        case StartAnnounces(_) => !s.joinable && !Unjoined(s)
        case StartCreates(_) => !s.joinable && !Unjoined(s) && s.running
        case StartFails(_) => !s.joinable && !Unjoined(s)
        case StartSucceeds => !s.joinable && Unjoined(s)
        case StopQuits => s.joinable && Unjoined(s)
        case StopJoins(asked) => s.joinable && Unjoined(s) && (s.workers[s.handle] == InMain ==> asked)
        case StopClears => s.joinable && !Unjoined(s)
        case _ => s.joinable <==> Unjoined(s))
  }

  ghost predicate Numbered(s: Service) {
    (forall k | k in s.joins :: k in s.workers) && (forall k | k in s.frees :: k < s.made)
  }

  ghost predicate Inv(s: Service) {
    Threads(s) && Blocks(s) && Flags(s) && Numbered(s)
  }

  lemma ThreadsStep(s: Service, m: Move)
    requires Threads(s) && Flags(s) && Blocks(s) && Numbered(s) && Enabled(s, m)
    ensures Threads(Step(s, m))
  {
    var t := Step(s, m);
    assert s.handle in s.workers ==> ThreadOk(s, s.handle);
    forall w | w in t.workers ensures ThreadOk(t, w) {
      assert w in s.workers ==> ThreadOk(s, w);
    }
  }

  lemma BlocksStep(s: Service, m: Move)
    requires Threads(s) && Blocks(s) && Numbered(s) && Enabled(s, m)
    ensures Blocks(Step(s, m))
  {
    var t := Step(s, m);
    assert m.MainReturns? || m.WorkerFrees? ==> ThreadOk(s, m.w);
    forall k | 0 <= k < t.made ensures BlockOk(t, k) {
      if k < s.made {
        assert BlockOk(s, k);
        hide Threads, Blocks, ThreadOk;
        BlockStep(s, m, k);
      } else {
        hide Threads, Blocks, ThreadOk;
        assert k !in s.frees && k == s.made;
      }
    }
    PendingStep(s, m);
  }

  lemma BlockStep(s: Service, m: Move, k: nat)
    requires Enabled(s, m) && BlockOk(s, k) && k < s.made
    requires Pending(s).Some? ==> Pending(s).value !in s.workers
    ensures BlockOk(Step(s, m), k)
  {
    if m.Proceed? {
      hide BlockOk;
      BlockProceeds(s, m.granted, k);
    }
  }

  lemma BlockProceeds(s: Service, granted: bool, k: nat)
    requires s.op.Some? && BlockOk(s, k) && k < s.made
    requires Pending(s).Some? ==> Pending(s).value !in s.workers
    ensures BlockOk(Proceeding(s, granted), k)
  {
    if s.op.value.StartCreates? {
      CreateKeeps(s, granted, k);
    } else if s.op.value.StartFails? {
      FailFrees(s, granted, k);
    } else {
      var t := Proceeding(s, granted);
      Untouched(s, granted);
      PendingMoves(s, granted);
      hide Proceeding, Pending;
      assert s.op.value.StartAllocates? || Pending(t) == Pending(s);
    }
  }

  /** Only creating a thread and failing to do so touch blocks and threads. */
  lemma Untouched(s: Service, granted: bool)
    requires s.op.Some? && !s.op.value.StartCreates? && !s.op.value.StartFails?
    ensures Proceeding(s, granted).workers == s.workers && Proceeding(s, granted).frees == s.frees
  {
    JoinedKeeps(s);
    hide Joined;
  }

  lemma PendingMoves(s: Service, granted: bool)
    requires s.op.Some? && !s.op.value.StartCreates? && !s.op.value.StartFails?
    ensures var t := Proceeding(s, granted);
      Pending(t) == Pending(s) || (s.op.value.StartAllocates? && Pending(s).None? && Pending(t) == Some(s.made))
  {
    JoinedKeeps(s);
    hide Joined;
    PendingIs(s);
    PendingIs(Proceeding(s, granted));
    hide Pending;
  }

  lemma PendingIs(s: Service)
    ensures Pending(s) ==
      if s.op.Some? && (s.op.value.StartAnnounces? || s.op.value.StartCreates? || s.op.value.StartFails?) then Some(s.op.value.data) else None
  {
  }

  lemma JoinedKeeps(s: Service)
    ensures Joined(s).workers == s.workers && Joined(s).frees == s.frees && Joined(s).made == s.made && Joined(s).op == s.op
  {
  }

  lemma CreateKeeps(s: Service, granted: bool, k: nat)
    requires s.op.Some? && s.op.value.StartCreates? && BlockOk(s, k) && s.op.value.data !in s.workers
    ensures BlockOk(Proceeding(s, granted), k)
  {
  }

  lemma FailFrees(s: Service, granted: bool, k: nat)
    requires s.op.Some? && s.op.value.StartFails? && BlockOk(s, k) && s.op.value.data !in s.workers
    ensures BlockOk(Proceeding(s, granted), k)
  {
  }

  lemma PendingStep(s: Service, m: Move)
    requires Threads(s) && Blocks(s) && Enabled(s, m)
    ensures var t := Step(s, m); Pending(t).Some? ==> Pending(t).value < t.made && Pending(t).value !in t.workers
  {
    assert s.made in s.workers ==> ThreadOk(s, s.made);
    assert m.MainReturns? || m.WorkerFrees? ==> ThreadOk(s, m.w);
  }

  lemma FlagsStep(s: Service, m: Move)
    requires Threads(s) && Flags(s) && Blocks(s) && Numbered(s) && Enabled(s, m)
    ensures Flags(Step(s, m))
  {
    assert s.handle in s.workers ==> ThreadOk(s, s.handle);
    assert m.MainReturns? || m.WorkerFrees? ==> ThreadOk(s, m.w);
  }

  lemma NumberedStep(s: Service, m: Move)
    requires Threads(s) && Blocks(s) && Numbered(s) && Enabled(s, m) && Flags(s)
    ensures Numbered(Step(s, m))
  {
    assert s.handle in s.workers ==> ThreadOk(s, s.handle);
    assert m.MainReturns? || m.WorkerFrees? ==> ThreadOk(s, m.w);
  }

  lemma InvStep(s: Service, m: Move)
    requires Inv(s) && Enabled(s, m)
    ensures Inv(Step(s, m))
  {
    hide Threads, Blocks, Flags, Numbered;
    ThreadsStep(s, m);
    BlocksStep(s, m);
    FlagsStep(s, m);
    NumberedStep(s, m);
  }

  lemma {:induction false} InvRun(s: Service, moves: seq<Move>)
    requires Inv(s) && Run(s, moves).Some?
    ensures Inv(Run(s, moves).value)
    decreases |moves|
  {
    if moves != [] {
      InvStep(s, moves[0]);
      InvRun(Step(s, moves[0]), moves[1..]);
    }
  }

  ghost predicate Reachable(s: Service) {
    exists moves :: Run(INITIAL, moves) == Some(s)
  }

  lemma ReachableInv(s: Service)
    requires Reachable(s)
    ensures Inv(s)
  {
    var moves :| Run(INITIAL, moves) == Some(s);
    InvRun(INITIAL, moves);
  }

  // ----- what it means -----

  /** At most one worker is ever inside the tunnel main, and is_running is set while it is. */
  lemma OneInMain(s: Service, v: nat, w: nat)
    requires Reachable(s) && v in s.workers && w in s.workers && s.workers[v] == InMain && s.workers[w] == InMain
    ensures v == w && s.running
  {
    ReachableInv(s);
    assert ThreadOk(s, v) && ThreadOk(s, w);
  }

  /** Every thread is joined at most once, and only after it has exited. */
  lemma JoinedOnce(s: Service, w: nat)
    requires Reachable(s) && w in s.workers
    ensures Times(s.joins, w) <= 1 && (Times(s.joins, w) == 1 ==> s.workers[w] == Exited)
  {
    ReachableInv(s);
    assert ThreadOk(s, w);
  }

  /** No block of thread data is freed twice, none while its thread is in main, and when
      no call and no thread is under way every block is freed. */
  lemma FreedOnce(s: Service, k: nat)
    requires Reachable(s) && k < s.made
    ensures Times(s.frees, k) <= 1
    ensures k in s.workers && s.workers[k] != Exited ==> Times(s.frees, k) == 0
    ensures s.op.None? && (forall w | w in s.workers :: s.workers[w] == Exited) ==> Times(s.frees, k) == 1
  {
    ReachableInv(s);
    assert BlockOk(s, k);
  }

  /** A thread is only created when the one before it has been joined. */
  lemma CreatedAfterJoin(s: Service, w: nat)
    requires Reachable(s) && s.op.Some? && s.op.value.StartCreates? && w in s.workers
    ensures Times(s.joins, w) == 1 && s.workers[w] == Exited
  {
    ReachableInv(s);
    assert ThreadOk(s, w);
  }

  /** A stop waits for a worker that is in the tunnel main only after it has asked the
      tunnel to quit. */
  lemma QuitBeforeJoin(s: Service)
    requires Reachable(s) && s.op.Some? && s.op.value.StopJoins?
    ensures s.handle in s.workers && (s.workers[s.handle] == InMain ==> s.op.value.asked)
  {
    ReachableInv(s);
  }

  /** No call is ever stuck: it can proceed, or it waits for a worker that can. */
  lemma NoCallIsStuck(s: Service)
    requires Reachable(s) && s.op.Some?
    ensures Enabled(s, Proceed(true)) || Enabled(s, MainReturns(s.handle)) || Enabled(s, WorkerFrees(s.handle))
  {
    ReachableInv(s);
  }

  /** How many steps a call still has before it. */
  function Rest(op: Option<Op>): nat {
    match op
    case None => 0
    case Some(Leaves) => 1
    case Some(StartSucceeds) => 2
    case Some(StartFails(_)) => 2
    case Some(StopClears) => 2
    case Some(StartCreates(_)) => 3
    case Some(StopJoins(_)) => 3
    case Some(StartAnnounces(_)) => 4
    case Some(StopQuits) => 4
    case Some(StartAllocates) => 5
    case Some(StopTests) => 5
    case Some(StartJoins) => 6
    case Some(StartTests) => 7
  }

  /** A whole call, with no worker moving: whether it comes through, and where it leaves the
      service. The system grants memory and a thread as told. */
  function Finish(s: Service, memory: bool, thread: bool): Option<Service>
    decreases Rest(s.op)
  {
    if s.op == None then Some(s)
    else if !Enabled(s, Proceed(true)) then None
    else
      var t := Proceeding(s, if s.op.value.StartAllocates? then memory else thread);
      ProceedsOn(s, if s.op.value.StartAllocates? then memory else thread);
      Finish(t, memory, thread)
  }

  lemma ProceedsOn(s: Service, granted: bool)
    requires s.op.Some?
    ensures Rest(Proceeding(s, granted).op) < Rest(s.op)
  {
    hide Joined, Freed;
    match s.op.value
    case StartTests =>
    case StartJoins =>
    case StartAllocates =>
    case StartCreates(_) =>
    case StopTests =>
    case _ =>
  }

  /** What a start comes to when no worker is about to move: nothing while the tunnel runs; a
      thread in the tunnel main, with both flags set, if there is memory and a thread to be
      had; and a service at rest if not. A thread that exited by itself is joined first. */
  lemma StartExactly(s: Service, memory: bool, thread: bool)
    requires Reachable(s) && s.op == None && (Unjoined(s) ==> s.workers[s.handle] != OutOfMain)
    ensures var r := Finish(Step(s, Start), memory, thread);
      && r.Some?
      && var t := r.value;
      && t.op == None
      && (s.running ==> t == s)
      && (!s.running && memory && thread ==>
          && t.running && t.joinable && t.handle == s.made && t.workers == s.workers[s.made := InMain])
      && (!s.running && !(memory && thread) ==> !t.running && !t.joinable && t.workers == s.workers)
      && (!s.running && Unjoined(s) ==> Times(t.joins, s.handle) == 1)
  {
    ReachableInv(s);
    StartTested(s, memory, thread);
    if !s.running {
      var j := if s.joinable then Joined(s).(joinable := false, op := Some(StartAllocates)) else s.(op := Some(StartAllocates));
      if s.joinable { JoinedFirst(s, memory, thread); }
      Allocated(j, memory, thread);
    }
  }

  lemma StartTested(s: Service, memory: bool, thread: bool)
    requires s.op == None
    ensures Finish(Step(s, Start), memory, thread) ==
      if s.running then Some(s) else Finish(s.(op := Some(if s.joinable then StartJoins else StartAllocates)), memory, thread)
  {
    var t := s.(op := Some(Leaves));
    if s.running {
      assert Proceeding(Step(s, Start), thread) == t && Proceeding(t, thread) == s;
      assert Finish(t, memory, thread) == Finish(s, memory, thread);
    } else {
      var u := s.(op := Some(if s.joinable then StartJoins else StartAllocates));
      assert Proceeding(Step(s, Start), thread) == u;
    }
  }

  lemma JoinedFirst(s: Service, memory: bool, thread: bool)
    requires s.handle in s.workers && s.workers[s.handle] == Exited
    ensures Finish(s.(op := Some(StartJoins)), memory, thread)
         == Finish(Joined(s).(joinable := false, op := Some(StartAllocates)), memory, thread)
  {
    var t := s.(op := Some(StartJoins));
    assert Proceeding(t, thread) == Joined(s).(joinable := false, op := Some(StartAllocates));
  }

  lemma Allocated(s: Service, memory: bool, thread: bool)
    requires s.op == Some(StartAllocates) && !s.joinable && !s.running
    ensures var r := Finish(s, memory, thread);
      && r.Some? && r.value.op == None && r.value.joins == s.joins
      && if memory && thread then
           r.value.running && r.value.joinable && r.value.handle == s.made && r.value.workers == s.workers[s.made := InMain]
         else !r.value.running && !r.value.joinable && r.value.workers == s.workers
  {
    if memory {
      var a := Proceeding(s, true);
      assert a == s.(made := s.made + 1, op := Some(StartAnnounces(s.made)));
      var b := Proceeding(a, thread);
      assert b == a.(running := true, op := Some(StartCreates(s.made)));
      Created(b, memory, thread);
      assert Finish(a, memory, thread) == Finish(b, memory, thread);
      assert Finish(s, memory, thread) == Finish(a, memory, thread);
    } else {
      assert Finish(s.(op := Some(Leaves)), memory, thread) == Finish(s.(op := None), memory, thread) == Some(s.(op := None));
    }
  }

  lemma Created(s: Service, memory: bool, thread: bool)
    requires s.op.Some? && s.op.value.StartCreates? && !s.joinable && s.running
    ensures var r := Finish(s, memory, thread);
      && r.Some? && r.value.op == None && r.value.joins == s.joins
      && if thread then
           r.value.running && r.value.joinable && r.value.handle == s.op.value.data && r.value.workers == s.workers[s.op.value.data := InMain]
         else !r.value.running && !r.value.joinable && r.value.workers == s.workers
  {
    var b := Proceeding(s, thread);
    var c := Proceeding(b, thread);
    assert Finish(s, memory, thread) == Finish(b, memory, thread) == Finish(c, memory, thread);
    assert c.op == Some(Leaves);
    assert Finish(c, memory, thread) == Finish(c.(op := None), memory, thread) == Some(c.(op := None));
  }

  /** What a stop comes to: after it no thread is left unjoined, every worker has exited, and
      both flags are clear, whatever moves came in between. */
  lemma StopStops(s: Service, granted: bool)
    requires Reachable(s) && s.op == Some(StopClears)
    ensures var t := Step(s, Proceed(granted));
      !t.running && !t.joinable && forall w | w in t.workers :: t.workers[w] == Exited && Times(t.joins, w) == 1
  {
    ReachableInv(s);
    forall w | w in s.workers ensures s.workers[w] == Exited && Times(s.joins, w) == 1 { assert ThreadOk(s, w); }
  }

  /** A stop gets there unless there was nothing to stop. */
  lemma StopsUnlessNone(s: Service)
    requires Reachable(s) && s.op == Some(StopTests)
    ensures Proceeding(s, true).op == Some(Leaves) <==> forall w | w in s.workers :: s.workers[w] == Exited && Times(s.joins, w) == 1
    ensures var op := Proceeding(s, true).op.value; op.Leaves? || op.StopQuits? || op.StopJoins?
  {
    ReachableInv(s);
    forall w | w in s.workers ensures ThreadOk(s, w) { }
  }
}
