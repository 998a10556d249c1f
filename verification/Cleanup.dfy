/** The background cleanup ticker next to the request traffic: one Start loop, any
    number of Stop callers, and saves that land between and during sweeps. */
module Cleanup {
  import opened Domain
  import opened QuoteTable

  /** The goroutine running Start. */
  datatype LoopPc =
    | Selecting
    | Sweeping        // inside DeleteExpired; partitions are deleted one by one
    | Leaving         // deferred close(done)
    | Ended

  /** A goroutine calling Stop. */
  datatype StopPc = AtOnce | InsideOnce | AwaitDone | StopReturned

  datatype State = State(
    table: Table,
    clock: int,
    loop: LoopPc,
    stoppers: seq<StopPc>,
    tick: bool,
    ctxDone: bool,
    onceTaken: bool,       // some Stop has entered the once
    stopClosed: bool,
    stopCloses: nat,       // history: close(stop) calls
    doneClosed: bool,
    ops: seq<Op>)          // history: what reached the table, in order

  datatype Step =
    | Advance(tick: bool)
    | CancelContext
    | Save(requestID: string, quotes: seq<Quote>)
    | BeginSweep
    | PurgePartition(reach: set<Key>)
    | EndSweep             // finished, or failed part way: only the log differs
    | LeaveLoop
    | CloseDone
    | EnterOnce(g: nat)
    | CloseStop(g: nat)
    | PassOnce(g: nat)
    | SeeDone(g: nat)

  function Init(table: Table, clock: int, stoppers: nat): State {
    State(table, clock, Selecting, seq(stoppers, i => AtOnce), false, false, false, false, 0, false, [])
  }

  predicate StopAt(s: State, g: nat, pc: StopPc) {
    g < |s.stoppers| && s.stoppers[g] == pc
  }

  predicate Enabled(s: State, step: Step) {
    match step
    case Advance(_) => true
    case CancelContext => !s.ctxDone
    case Save(_, _) => true
    case BeginSweep => s.loop.Selecting? && s.tick
    case PurgePartition(_) => s.loop.Sweeping?
    case EndSweep => s.loop.Sweeping?
    case LeaveLoop => s.loop.Selecting? && (s.stopClosed || s.ctxDone)
    case CloseDone => s.loop.Leaving?
    case EnterOnce(g) => StopAt(s, g, AtOnce) && !s.onceTaken
    case CloseStop(g) => StopAt(s, g, InsideOnce)
    case PassOnce(g) => StopAt(s, g, AtOnce) && s.stopClosed
    case SeeDone(g) => StopAt(s, g, AwaitDone) && s.doneClosed
  }

  /** An operation reaches the table at the present clock reading. */
  function Commit(s: State, op: Op): State {
    s.(table := After(s.table, op), ops := s.ops + [op])
  }

  function Apply(s: State, step: Step): State
    requires Enabled(s, step)
  {
    match step
    case Advance(tick) => s.(clock := s.clock + 1, tick := s.tick || tick)
    case CancelContext => s.(ctxDone := true)
    case Save(requestID, quotes) => Commit(s, SaveOp(s.clock, requestID, quotes))
    case BeginSweep => s.(tick := false, loop := Sweeping)
    case PurgePartition(reach) => Commit(s, PurgeOp(s.clock, reach))
    case EndSweep => s.(loop := Selecting)
    case LeaveLoop => s.(loop := Leaving)
    case CloseDone => s.(loop := Ended, doneClosed := true)
    case EnterOnce(g) => s.(onceTaken := true, stoppers := s.stoppers[g := InsideOnce])
    case CloseStop(g) => s.(stopClosed := true, stopCloses := s.stopCloses + 1, stoppers := s.stoppers[g := AwaitDone])
    case PassOnce(g) => s.(stoppers := s.stoppers[g := AwaitDone])
    case SeeDone(g) => s.(stoppers := s.stoppers[g := StopReturned])
  }

  ghost predicate ValidRun(s: State, run: seq<Step>)
    decreases |run|
  {
    run == [] || (Enabled(s, run[0]) && ValidRun(Apply(s, run[0]), run[1..]))
  }

  ghost function Exec(s: State, run: seq<Step>): State
    requires ValidRun(s, run)
    decreases |run|
  {
    if run == [] then s else Exec(Apply(s, run[0]), run[1..])
  }

  // ---- the stop protocol ----

  ghost predicate StopInv(s: State) {
    && (forall g :: 0 <= g < |s.stoppers| && s.stoppers[g].InsideOnce? ==> s.onceTaken && !s.stopClosed)
    && (forall g, h :: 0 <= g < h < |s.stoppers| ==> !(s.stoppers[g].InsideOnce? && s.stoppers[h].InsideOnce?))
    && (s.stopClosed ==> s.onceTaken)
    && s.stopCloses == (if s.stopClosed then 1 else 0)
    && (s.doneClosed <==> s.loop.Ended?)
    && (forall g :: 0 <= g < |s.stoppers| && s.stoppers[g].StopReturned? ==> s.doneClosed)
  }

  /** Whoever entered the once is still inside until the stop channel is closed, and a
      Stop waits for the loop only after that. */
  ghost predicate OnceInv(s: State) {
    && (s.onceTaken && !s.stopClosed ==> exists g :: 0 <= g < |s.stoppers| && s.stoppers[g].InsideOnce?)
    && (forall g :: 0 <= g < |s.stoppers| && s.stoppers[g].AwaitDone? ==> s.stopClosed)
  }

  lemma {:induction false} StepKeepsOnce(s: State, step: Step)
    requires Enabled(s, step) && OnceInv(s)
    ensures OnceInv(Apply(s, step))
  {
    var t := Apply(s, step);
    if step.EnterOnce? {
      assert t.stoppers[step.g].InsideOnce?;
    } else if h :| 0 <= h < |s.stoppers| && s.stoppers[h].InsideOnce? {
      assert t.stopClosed || t.stoppers[h].InsideOnce?;
    }
  }

  // ---- the table ----

  ghost predicate TableInv(t0: Table, s: State) {
    && s.table == AfterAll(t0, s.ops)
    && ClockNeverGoesBack(s.ops)
    && (forall i :: 0 <= i < |s.ops| ==> s.ops[i].now <= s.clock)
  }

  lemma {:induction false} CommitKeepsTable(t0: Table, s: State, op: Op)
    requires TableInv(t0, s) && op.now == s.clock
    ensures TableInv(t0, Commit(s, op))
  {
    assert (s.ops + [op])[..|s.ops|] == s.ops;
  }

  lemma {:induction false} StepKeepsStop(s: State, step: Step)
    requires Enabled(s, step) && StopInv(s)
    ensures StopInv(Apply(s, step))
  {
  }

  lemma {:induction false} StepKeepsTable(t0: Table, s: State, step: Step)
    requires Enabled(s, step) && TableInv(t0, s)
    ensures TableInv(t0, Apply(s, step))
  {
    match step
    case Save(requestID, quotes) => CommitKeepsTable(t0, s, SaveOp(s.clock, requestID, quotes));
    case PurgePartition(reach) => CommitKeepsTable(t0, s, PurgeOp(s.clock, reach));
    case _ =>
  }

  lemma {:induction false} StepKeepsInv(t0: Table, s: State, step: Step)
    requires Enabled(s, step) && StopInv(s) && TableInv(t0, s)
    ensures StopInv(Apply(s, step)) && TableInv(t0, Apply(s, step))
  {
    StepKeepsStop(s, step);
    StepKeepsTable(t0, s, step);
  }

  lemma {:induction false} RunKeepsInv(t0: Table, s: State, run: seq<Step>)
    requires ValidRun(s, run) && StopInv(s) && OnceInv(s) && TableInv(t0, s)
    ensures StopInv(Exec(s, run)) && OnceInv(Exec(s, run)) && TableInv(t0, Exec(s, run))
    decreases |run|
  {
    if run != [] {
      StepKeepsInv(t0, s, run[0]);
      StepKeepsOnce(s, run[0]);
      RunKeepsInv(t0, Apply(s, run[0]), run[1..]);
    }
  }

  /** The saves and partial deletions of a run that starts at a clock reading, each at the
      reading it happened at. */
  function Traffic(clock: int, run: seq<Step>): seq<Op>
    decreases |run|
  {
    if run == [] then []
    else
      match run[0]
      case Advance(_) => Traffic(clock + 1, run[1..])
      case Save(requestID, quotes) => [SaveOp(clock, requestID, quotes)] + Traffic(clock, run[1..])
      case PurgePartition(reach) => [PurgeOp(clock, reach)] + Traffic(clock, run[1..])
      case _ => Traffic(clock, run[1..])
  }

  lemma {:induction false} RunLogsTraffic(s: State, run: seq<Step>)
    requires ValidRun(s, run)
    ensures Exec(s, run).ops == s.ops + Traffic(s.clock, run)
    decreases |run|
  {
    if run != [] {
      var t := Apply(s, run[0]);
      RunLogsTraffic(t, run[1..]);
      if run[0].Save? || run[0].PurgePartition? {
        assert t.ops == s.ops + [t.ops[|s.ops|]];
        ConcatAssociates(s.ops, [t.ops[|s.ops|]], Traffic(t.clock, run[1..]));
      }
    }
  }

  /** Whenever a lookup happens, in whatever interleaving of saves, sweeps and parts of
      sweeps: the table is what the traffic of the run made of it, and the database may
      answer exactly what it could if nothing were deleted. */
  lemma {:induction false} SweepsAreInvisible(
    t0: Table, clock: int, stoppers: nat, run: seq<Step>, requestID: string, answer: seq<Found>)
    requires ValidRun(Init(t0, clock, stoppers), run)
    ensures Exec(Init(t0, clock, stoppers), run).table == AfterAll(t0, Traffic(clock, run))
    ensures var s := Exec(Init(t0, clock, stoppers), run);
            IsQueryAnswer(s.table, requestID, s.clock, answer)
            <==> IsQueryAnswer(AfterSavesOnly(t0, Traffic(clock, run)), requestID, s.clock, answer)
  {
    RunKeepsInv(t0, Init(t0, clock, stoppers), run);
    RunLogsTraffic(Init(t0, clock, stoppers), run);
    var s := Exec(Init(t0, clock, stoppers), run);
    assert s.ops == Traffic(clock, run);
    forall op | op in s.ops ensures op.now <= s.clock {
      var i :| 0 <= i < |s.ops| && s.ops[i] == op;
    }
    CleanupIsInvisible(t0, s.ops, s.clock, requestID, answer);
  }

  /** However many goroutines call Stop, the stop channel is closed at most once; and
      when any of them has returned, the loop has ended and no sweep runs again. */
  lemma {:induction false} StopIsSafeAndFinal(t0: Table, clock: int, stoppers: nat, run: seq<Step>, more: seq<Step>)
    requires ValidRun(Init(t0, clock, stoppers), run)
    requires ValidRun(Exec(Init(t0, clock, stoppers), run), more)
    ensures Exec(Init(t0, clock, stoppers), run).stopCloses <= 1
    ensures StopReturned in Exec(Init(t0, clock, stoppers), run).stoppers ==>
              forall step :: step in more ==> !step.BeginSweep? && !step.PurgePartition?
  {
    RunKeepsInv(t0, Init(t0, clock, stoppers), run);
    var s := Exec(Init(t0, clock, stoppers), run);
    if StopReturned in s.stoppers {
      var g :| 0 <= g < |s.stoppers| && s.stoppers[g] == StopReturned;
      NoSweepAfterEnd(s, more);
    }
  }

  lemma {:induction false} NoSweepAfterEnd(s: State, run: seq<Step>)
    requires ValidRun(s, run) && s.loop.Ended?
    ensures forall step :: step in run ==> !step.BeginSweep? && !step.PurgePartition?
    decreases |run|
  {
    if run != [] {
      NoSweepAfterEnd(Apply(s, run[0]), run[1..]);
      assert run == [run[0]] + run[1..];
    }
  }

  // ---- Stop returns ----

  /** Steps of the two protocols that nobody outside can withhold: no tick, no clock, no
      save, no cancellation is needed, and a sweep under way ends. */
  predicate Guaranteed(step: Step) {
    step.EndSweep? || step.LeaveLoop? || step.CloseDone? || step.EnterOnce? || step.CloseStop? || step.PassOnce?
    || step.SeeDone?
  }

  function LoopRank(pc: LoopPc): nat {
    match pc
    case Sweeping => 3
    case Selecting => 2
    case Leaving => 1
    case Ended => 0
  }

  function StopRank(pc: StopPc): nat {
    match pc
    case AtOnce => 3
    case InsideOnce => 2
    case AwaitDone => 1
    case StopReturned => 0
  }

  function Distance(s: State, g: nat): nat
    requires g < |s.stoppers|
  {
    StopRank(s.stoppers[g]) + LoopRank(s.loop) + (if s.stopClosed then 0 else 1)
  }

  /** A step that brings Stop caller g closer to its return. */
  lemma {:induction false} Closer(s: State, g: nat) returns (step: Step)
    requires StopInv(s) && OnceInv(s) && g < |s.stoppers| && !s.stoppers[g].StopReturned?
    ensures Guaranteed(step) && Enabled(s, step)
    ensures g < |Apply(s, step).stoppers| && Distance(Apply(s, step), g) < Distance(s, g)
  {
    if s.stoppers[g].AtOnce? {
      if !s.onceTaken {
        step := EnterOnce(g);
      } else if s.stopClosed {
        step := PassOnce(g);
      } else {
        var h: nat :| h < |s.stoppers| && s.stoppers[h].InsideOnce?;
        step := CloseStop(h);
      }
    } else if s.stoppers[g].InsideOnce? {
      step := CloseStop(g);
    } else {
      step := match s.loop
        case Sweeping => EndSweep
        case Selecting => LeaveLoop
        case Leaving => CloseDone
        case Ended => SeeDone(g);
    }
  }

  /** At any point of any run, every Stop call can return on guaranteed steps alone. */
  lemma {:induction false} StopCanReturn(
    t0: Table, clock: int, stoppers: nat, run: seq<Step>, g: nat) returns (rest: seq<Step>)
    requires ValidRun(Init(t0, clock, stoppers), run)
    requires g < |Exec(Init(t0, clock, stoppers), run).stoppers|
    ensures ValidRun(Exec(Init(t0, clock, stoppers), run), rest)
    ensures forall step :: step in rest ==> Guaranteed(step)
    ensures var s := Exec(Exec(Init(t0, clock, stoppers), run), rest);
            g < |s.stoppers| && s.stoppers[g].StopReturned?
  {
    RunKeepsInv(t0, Init(t0, clock, stoppers), run);
    rest := RunToReturn(t0, Exec(Init(t0, clock, stoppers), run), g);
  }

  lemma {:induction false} RunToReturn(t0: Table, s: State, g: nat) returns (rest: seq<Step>)
    requires StopInv(s) && OnceInv(s) && TableInv(t0, s) && g < |s.stoppers|
    ensures ValidRun(s, rest) && forall step :: step in rest ==> Guaranteed(step)
    ensures g < |Exec(s, rest).stoppers| && Exec(s, rest).stoppers[g].StopReturned?
    decreases Distance(s, g)
  {
    if s.stoppers[g].StopReturned? {
      rest := [];
    } else {
      var step := Closer(s, g);
      StepKeepsInv(t0, s, step);
      StepKeepsOnce(s, step);
      var more := RunToReturn(t0, Apply(s, step), g);
      rest := [step] + more;
      assert rest[1..] == more;
    }
  }
}
