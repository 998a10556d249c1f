/** The pending table never shrinks: which slots the monitor hedges for that reason, the
    answered ones included, and when it stops by itself. */
module FanOutPending {
  import opened Domain
  import opened Eligibility
  import opened FanOut
  import opened FanOutResults
  import opened FanOutProgress
  import opened FanOutTheorems

  /** The slot holds what was read for the last eligible carrier with its ID. */
  ghost predicate IsLastWith(cfg: Config, slot: string, i: nat) {
    && i < |cfg.eligible| && cfg.eligible[i].id == slot
    && forall k :: i < k < |cfg.eligible| ==> cfg.eligible[k].id != slot
  }

  /** When the fan-out began carrier i was out of warm-up, and at this clock reading it has
      been waited for at least its average times its multiplier, in milliseconds. */
  ghost predicate WaitedLongEnough(cfg: Config, i: nat, now: int)
    requires cfg.Valid() && i < |cfg.eligible|
  {
    && cfg.trackers[i].state.observations >= cfg.trackers[i].warmup
    && (now - cfg.starts[i]) as real / 1_000_000.0 >= cfg.trackers[i].state.p95 * cfg.trackers[i].multiplier
  }

  lemma {:induction false} DueMeansWaited(cfg: Config, slot: string) returns (i: nat)
    requires cfg.Valid() && slot in cfg.Pending()
    ensures IsLastWith(cfg, slot, i)
    ensures forall now: int :: Due(cfg.Pending()[slot], now) <==> WaitedLongEnough(cfg, i, now)
  {
    i := PendingSlot(cfg.eligible, cfg.starts, cfg.Thresholds(), slot);
  }

  /** The monitor fires for a slot exactly if it has not yet fired for it, its carrier has
      been waited for long enough, another eligible carrier may take the hedge, and that
      carrier's limiter grants a token; and it fires at the best such carrier, on the
      readings of this scan. Whether the slot was answered plays no part. */
  lemma {:induction false} ScanFiresExactlyIf(
    cfg: Config, s: State, slot: string, openReads: seq<bool>, granted: bool) returns (i: nat, at: seq<nat>)
    requires cfg.Valid() && MonitorEnabled(cfg, s, Scan(slot, openReads, granted))
    ensures IsLastWith(cfg, slot, i)
    ensures ListsHedgeable(cfg.eligible, cfg.adapters, cfg.averages, cfg.Hedgeable(), at)
    ensures MonitorNext(cfg, s, Scan(slot, openReads, granted)).Firing? <==>
            && slot !in s.hedged && WaitedLongEnough(cfg, i, s.monitor.now) && granted
            && exists k: nat :: MayTakeHedge(slot, cfg.eligible, at, openReads, k)
    ensures var next := MonitorNext(cfg, s, Scan(slot, openReads, granted));
            next.Firing? ==>
              && next == Firing(TokenTaken, s.monitor.now, s.monitor.todo - {slot}, slot, next.target, openReads)
              && next.target < |at|
              && IsBestEligible(slot, cfg.eligible, cfg.averages, at, openReads, at[next.target])
  {
    i := DueMeansWaited(cfg, slot);
    at := SelectsTheBestEligible(slot, cfg.eligible, cfg.adapters, cfg.averages, openReads);
  }

  // ---- answered carriers are hedged too ----

  /** s comes from a fan-out whose monitor starts at a given clock reading. */
  ghost predicate ReachableFrom(cfg: Config, launch: int, s: State)
    requires cfg.Valid()
  {
    exists run :: ValidRun(cfg, Init(cfg, launch), run) && s == Exec(cfg, Init(cfg, launch), run)
  }

  lemma {:induction false} FromIsReachable(cfg: Config, launch: int, s: State)
    requires cfg.Valid() && ReachableFrom(cfg, launch, s)
    ensures Reachable(cfg, s)
  {
    var run :| ValidRun(cfg, Init(cfg, launch), run) && s == Exec(cfg, Init(cfg, launch), run);
  }

  ghost predicate IsAnswered(cfg: Config, s: State, slot: string) {
    exists i :: 0 <= i < |s.primaries| && i < |cfg.eligible| && cfg.eligible[i].id == slot
                && s.primaries[i].delivered.Some?
  }

  /** In s, with the request live, the monitor can fire a hedge for a slot whose primary
      has delivered, on a clock reading before the deadline. */
  ghost predicate HedgesAnAnswer(cfg: Config, launch: int, s: State, slot: string, openReads: seq<bool>)
    requires cfg.Valid()
  {
    && ReachableFrom(cfg, launch, s) && IsAnswered(cfg, s, slot)
    && !s.requestDone && s.monitor.Scanning? && s.monitor.now < cfg.deadline
    && Enabled(cfg, s, Monitor(Scan(slot, openReads, true)))
    && MonitorNext(cfg, s, Scan(slot, openReads, true)).Firing?
  }

  /** A tick can come before the deadline, the slot's carrier has an adapter and will have
      been waited for long enough before the deadline, and some other eligible carrier has
      an adapter. */
  ghost predicate CanBeHedged(cfg: Config, slot: string)
    requires cfg.Valid()
  {
    && cfg.firstTick < cfg.deadline
    && slot in cfg.adapters
    && (exists i :: 0 <= i < |cfg.eligible| && IsLastWith(cfg, slot, i) && WaitedLongEnough(cfg, i, cfg.deadline - 1))
    && exists k :: 0 <= k < |cfg.eligible| && cfg.eligible[k].id in cfg.adapters && cfg.eligible[k].id != slot
  }

  lemma {:induction false} ReachableStep(cfg: Config, launch: int, s: State, step: Step)
    requires cfg.Valid() && ReachableFrom(cfg, launch, s) && Enabled(cfg, s, step)
    ensures ReachableFrom(cfg, launch, Apply(cfg, s, step))
  {
    var run :| ValidRun(cfg, Init(cfg, launch), run) && s == Exec(cfg, Init(cfg, launch), run);
    RunAppend(cfg, Init(cfg, launch), run, step);
  }

  lemma {:induction false} RunAppend(cfg: Config, s: State, run: seq<Step>, step: Step)
    requires cfg.Valid() && ValidRun(cfg, s, run) && Enabled(cfg, Exec(cfg, s, run), step)
    ensures ValidRun(cfg, s, run + [step])
    ensures Exec(cfg, s, run + [step]) == Apply(cfg, Exec(cfg, s, run), step)
    decreases |run|
  {
    var all := run + [step];
    if run == [] {
      assert all[1..] == [];
    } else {
      assert all[0] == run[0] && all[1..] == run[1..] + [step];
      RunAppend(cfg, Apply(cfg, s, run[0]), run[1..], step);
    }
  }

  /** The request is live and the monitor, waiting for its ticks, has hedged nothing. */
  ghost predicate Poised(cfg: Config, launch: int, s: State)
    requires cfg.Valid()
  {
    ReachableFrom(cfg, launch, s) && s.monitor.Polling? && s.hedged == {} && !s.requestDone
  }

  /** What the monitor and the clock are about stays as it is. */
  ghost predicate SameWait(s: State, t: State) {
    t.monitor == s.monitor && t.hedged == s.hedged && t.requestDone == s.requestDone
    && t.clock == s.clock && t.tick == s.tick
  }

  lemma {:induction false} StartsPoised(cfg: Config, launch: int) returns (s: State)
    requires cfg.Valid() && launch < cfg.deadline
    ensures Poised(cfg, launch, s) && s.main == Launching(0) && s.clock == launch && !s.tick
  {
    s := Init(cfg, launch);
    assert Exec(cfg, s, []) == s && ValidRun(cfg, s, []);
  }

  lemma {:induction false} LaunchLocal(cfg: Config, s: State)
    requires cfg.Valid() && s.main.Launching? && s.main.next < |cfg.eligible| && Enabled(cfg, s, Main(Launch))
    ensures var t := Apply(cfg, s, Main(Launch));
            && t.main == Launching(s.main.next + 1) && s.main.next < |t.primaries|
            && t.primaries[s.main.next].pc.Looking?
            && SameWait(s, t)
  {
  }

  lemma {:induction false} LaunchesPrimaries(cfg: Config, launch: int, s: State, i: nat) returns (t: State)
    requires cfg.Valid() && Poised(cfg, launch, s) && i < |cfg.eligible|
    requires s.main.Launching? && s.main.next <= i
    ensures Poised(cfg, launch, t) && SameWait(s, t) && i < |t.primaries| && t.primaries[i].pc.Looking?
    decreases i - s.main.next
  {
    FromIsReachable(cfg, launch, s);
    ReachableInv(cfg, s);
    LaunchLocal(cfg, s);
    ReachableStep(cfg, launch, s, Main(Launch));
    t := Apply(cfg, s, Main(Launch));
    if s.main.next < i {
      t := LaunchesPrimaries(cfg, launch, t, i);
    }
  }

  /** On the way from the launch to a delivery. */
  predicate OnTheWay(pc: PrimaryPc) {
    pc.Looking? || pc.AwaitToken? || pc.AtBreaker? || pc.InAdapter? || pc.Observing? || pc.Reporting? || pc.Sending?
  }

  /** The next step of a primary that nothing goes wrong for. */
  function Onward(cfg: Config, i: nat, pc: PrimaryPc): PrimaryStep
    requires i < |cfg.eligible| && OnTheWay(pc)
  {
    match pc
    case Looking => LookUp
    case AwaitToken => GetToken
    case AtBreaker => Admit
    case InAdapter => AdapterReturns(Quote("", cfg.eligible[i].id, Money(0, ""), 0, "", 0, false), 0)
    case Observing(_) => Observe
    case Reporting(_) => Report
    case _ => Send
  }

  lemma {:induction false} OnwardLocal(cfg: Config, s: State, i: nat)
    requires i < |cfg.eligible| && i < |s.primaries| && OnTheWay(s.primaries[i].pc) && !s.closed
    requires cfg.eligible[i].id in cfg.adapters
    requires PrimaryEnabled(cfg, s, i, Onward(cfg, i, s.primaries[i].pc))
    ensures var t := ApplyPrimary(cfg, s, i, Onward(cfg, i, s.primaries[i].pc));
            && SameWait(s, t) && |t.primaries| == |s.primaries|
            && (if s.primaries[i].pc.Sending? then t.primaries[i].delivered.Some?
                else OnTheWay(t.primaries[i].pc)
                     && PrimaryRank(t.primaries[i].pc) < PrimaryRank(s.primaries[i].pc))
  {
  }

  lemma {:induction false} OnwardEnabled(cfg: Config, s: State, i: nat)
    requires cfg.Valid() && Reachable(cfg, s) && i < |s.primaries| && OnTheWay(s.primaries[i].pc)
    ensures i < |cfg.eligible| && !s.closed
    ensures Enabled(cfg, s, Primary(i, Onward(cfg, i, s.primaries[i].pc)))
  {
    ReachableInv(cfg, s);
    if s.primaries[i].pc.Sending? {
      SendsNeverBlock(cfg, s);
    }
  }

  lemma {:induction false} Delivers(cfg: Config, launch: int, s: State, i: nat) returns (t: State)
    requires cfg.Valid() && Poised(cfg, launch, s) && i < |s.primaries| && OnTheWay(s.primaries[i].pc)
    requires i < |cfg.eligible| && cfg.eligible[i].id in cfg.adapters
    ensures Poised(cfg, launch, t) && SameWait(s, t) && i < |t.primaries| && t.primaries[i].delivered.Some?
    decreases PrimaryRank(s.primaries[i].pc)
  {
    var step := Primary(i, Onward(cfg, i, s.primaries[i].pc));
    FromIsReachable(cfg, launch, s);
    OnwardEnabled(cfg, s, i);
    OnwardLocal(cfg, s, i);
    ReachableStep(cfg, launch, s, step);
    t := Apply(cfg, s, step);
    if !s.primaries[i].pc.Sending? {
      t := Delivers(cfg, launch, t, i);
    }
  }

  /** Time passes up to the last reading before the deadline; the first tick comes on
      time and stays in the ticker's channel. */
  lemma {:induction false} Waits(cfg: Config, launch: int, s: State) returns (t: State)
    requires cfg.Valid() && Poised(cfg, launch, s) && !s.main.Returned?
    requires s.clock < cfg.deadline && cfg.firstTick < cfg.deadline && (s.tick <==> s.clock >= cfg.firstTick)
    ensures Poised(cfg, launch, t) && t.primaries == s.primaries && t.tick && t.clock == cfg.deadline - 1
    decreases cfg.deadline - s.clock
  {
    t := s;
    if s.clock < cfg.deadline - 1 {
      var step := Clock(Advance(s.clock + 1 == cfg.firstTick));
      FromIsReachable(cfg, launch, s);
      ReachableInv(cfg, s);
      ReachableStep(cfg, launch, s, step);
      t := Waits(cfg, launch, Apply(cfg, s, step));
    }
  }

  /** Taken late enough, a tick lets an unhedged slot be fired for. */
  lemma {:induction false} FiresAfterTick(
    cfg: Config, s: State, slot: string, i: nat, now: int, openReads: seq<bool>)
    requires cfg.Valid() && Reachable(cfg, s) && s.monitor.Polling? && s.tick && s.hedged == {}
    requires slot in cfg.Pending() && now >= s.clock && IsLastWith(cfg, slot, i) && WaitedLongEnough(cfg, i, now)
    requires openReads == seq(|cfg.Hedgeable()|, i => false)
    requires exists k :: 0 <= k < |cfg.eligible| && cfg.eligible[k].id in cfg.adapters && cfg.eligible[k].id != slot
    ensures Enabled(cfg, s, Monitor(TakeTick(now)))
    ensures var t := Apply(cfg, s, Monitor(TakeTick(now)));
            && t.primaries == s.primaries && t.requestDone == s.requestDone
            && t.monitor.Scanning? && t.monitor.now == now
            && Enabled(cfg, t, Monitor(Scan(slot, openReads, true)))
            && MonitorNext(cfg, t, Scan(slot, openReads, true)).Firing?
  {
    ReachableInv(cfg, s);
    var t := Apply(cfg, s, Monitor(TakeTick(now)));
    var last, at := ScanFiresExactlyIf(cfg, t, slot, openReads, true);
    assert last == i;
    var k :| 0 <= k < |cfg.eligible| && cfg.eligible[k].id in cfg.adapters && cfg.eligible[k].id != slot;
    assert k in at;
    assert MayTakeHedge(slot, cfg.eligible, at, openReads, k);
  }

  /** Primary i delivers at once, and then time passes up to the deadline. */
  lemma {:induction false} AnswersAndWaits(cfg: Config, launch: int, i: nat) returns (s: State)
    requires cfg.Valid() && launch < cfg.firstTick < cfg.deadline
    requires i < |cfg.eligible| && cfg.eligible[i].id in cfg.adapters
    ensures Poised(cfg, launch, s) && s.tick && s.clock == cfg.deadline - 1
    ensures i < |s.primaries| && s.primaries[i].delivered.Some?
  {
    s := StartsPoised(cfg, launch);
    s := LaunchesPrimaries(cfg, launch, s, i);
    s := Delivers(cfg, launch, s, i);
    FromIsReachable(cfg, launch, s);
    ReachableInv(cfg, s);
    s := Waits(cfg, launch, s);
  }

  lemma {:induction false} AnswerIsHedged(cfg: Config, launch: int, slot: string, i: nat)
    returns (s: State, openReads: seq<bool>)
    requires cfg.Valid() && launch < cfg.firstTick && CanBeHedged(cfg, slot)
    requires IsLastWith(cfg, slot, i) && WaitedLongEnough(cfg, i, cfg.deadline - 1)
    ensures HedgesAnAnswer(cfg, launch, s, slot, openReads)
  {
    var now := cfg.deadline - 1;
    openReads := seq(|cfg.Hedgeable()|, i => false);
    s := AnswersAndWaits(cfg, launch, i);
    FromIsReachable(cfg, launch, s);
    PendingKeys(cfg.eligible, cfg.starts, cfg.Thresholds());
    assert slot in cfg.Pending().Keys;
    FiresAfterTick(cfg, s, slot, i, now, openReads);
    ReachableStep(cfg, launch, s, Monitor(TakeTick(now)));
    s := Apply(cfg, s, Monitor(TakeTick(now)));
  }

  /** The monitor scans only after a tick, and ticks do not come early. */
  ghost predicate TickInv(cfg: Config, s: State) {
    s.tick || s.monitor.Scanning? || s.monitor.Firing? ==> s.clock >= cfg.firstTick
  }

  lemma {:induction false} MonitorKeepsTick(cfg: Config, s: State, m: MonitorStep)
    requires cfg.Valid() && MonitorEnabled(cfg, s, m) && TickInv(cfg, s)
    ensures TickInv(cfg, ApplyMonitor(cfg, s, m))
  {
  }

  lemma {:induction false} StepKeepsTick(cfg: Config, s: State, step: Step)
    requires cfg.Valid() && Enabled(cfg, s, step) && TickInv(cfg, s)
    ensures TickInv(cfg, Apply(cfg, s, step))
  {
    match step
    case Monitor(m) => MonitorKeepsTick(cfg, s, m);
    case Clock(_) =>
    case _ => OthersLeaveTheScan(cfg, s, step);
  }

  lemma {:induction false} RunKeepsTick(cfg: Config, s: State, run: seq<Step>)
    requires cfg.Valid() && ValidRun(cfg, s, run) && TickInv(cfg, s)
    ensures TickInv(cfg, Exec(cfg, s, run))
    decreases |run|
  {
    if run != [] {
      StepKeepsTick(cfg, s, run[0]);
      RunKeepsTick(cfg, Apply(cfg, s, run[0]), run[1..]);
    }
  }

  lemma {:induction false} WaitedStaysWaited(cfg: Config, i: nat, now: int, later: int)
    requires cfg.Valid() && i < |cfg.eligible| && WaitedLongEnough(cfg, i, now) && now <= later
    ensures WaitedLongEnough(cfg, i, later)
  {
    assert (later - cfg.starts[i]) as real / 1_000_000.0 - (now - cfg.starts[i]) as real / 1_000_000.0
        == (later - now) as real / 1_000_000.0;
  }

  lemma {:induction false} OnlyHedgeableAreHedged(
    cfg: Config, launch: int, s: State, slot: string, openReads: seq<bool>)
    requires cfg.Valid() && HedgesAnAnswer(cfg, launch, s, slot, openReads)
    ensures CanBeHedged(cfg, slot)
  {
    var run :| ValidRun(cfg, Init(cfg, launch), run) && s == Exec(cfg, Init(cfg, launch), run);
    RunKeepsTick(cfg, Init(cfg, launch), run);
    FromIsReachable(cfg, launch, s);
    ReachableInv(cfg, s);
    AnsweredHasAdapter(cfg, s, slot);
    var i, at := ScanFiresExactlyIf(cfg, s, slot, openReads, true);
    var k: nat :| MayTakeHedge(slot, cfg.eligible, at, openReads, k);
    assert k in at;
    WaitedStaysWaited(cfg, i, s.monitor.now, cfg.deadline - 1);
  }

  lemma {:induction false} AnsweredHasAdapter(cfg: Config, s: State, slot: string)
    requires OutcomeInv(cfg, s) && IsAnswered(cfg, s, slot)
    ensures slot in cfg.adapters
  {
    var i :| 0 <= i < |s.primaries| && i < |cfg.eligible| && cfg.eligible[i].id == slot
             && s.primaries[i].delivered.Some?;
    assert PrimaryOk(cfg, i, s.primaries[i]);
  }

  /** While the request is live, a hedge can go out for a carrier that has already
      answered exactly if a tick can come before the deadline and some carrier with an
      adapter will have been waited for long enough before it, while another eligible
      carrier has an adapter. */
  lemma {:induction false} AnsweredCarriersAreHedgedExactlyIf(cfg: Config, launch: int)
    requires cfg.Valid() && launch < cfg.firstTick
    ensures (exists s, slot, openReads :: HedgesAnAnswer(cfg, launch, s, slot, openReads))
       <==> (exists slot :: CanBeHedged(cfg, slot))
  {
    if slot :| CanBeHedged(cfg, slot) {
      var i: nat :| i < |cfg.eligible| && IsLastWith(cfg, slot, i) && WaitedLongEnough(cfg, i, cfg.deadline - 1);
      var s, openReads := AnswerIsHedged(cfg, launch, slot, i);
    }
    if s, slot, openReads :| HedgesAnAnswer(cfg, launch, s, slot, openReads) {
      OnlyHedgeableAreHedged(cfg, launch, s, slot, openReads);
    }
  }

  // ---- when the monitor stops by itself ----

  /** The run stays within one scan of the pending table. */
  ghost predicate SameScan(run: seq<Step>) {
    forall step :: step in run ==> !(step.Monitor? && (step.m.TakeTick? || step.m.EndScan?))
  }

  /** first are the slots hedged before the scan began. */
  ghost predicate ScanInv(cfg: Config, s: State, first: set<string>)
    requires cfg.Valid()
  {
    && first <= s.hedged
    && match s.monitor
       case Scanning(_, todo, allResolved) =>
         if allResolved then cfg.Pending().Keys - todo <= first == s.hedged else !(cfg.Pending().Keys <= first)
       case Firing(_, _, _, _, _, _) => !(cfg.Pending().Keys <= first)
       case _ => false
  }

  /** Scanning an unhedged slot, and nothing else, shows that not all are resolved. */
  lemma {:induction false} ScanResolves(cfg: Config, s: State, slot: string, openReads: seq<bool>, granted: bool)
    requires cfg.Valid() && s.monitor.Scanning?
    requires slot in cfg.Pending() && |openReads| == |cfg.Hedgeable()|
    ensures match ScanSlot(cfg, s, slot, openReads, granted)
            case Scanning(_, todo, allResolved) =>
              todo == s.monitor.todo - {slot} && (allResolved <==> s.monitor.allResolved && slot in s.hedged)
            case Firing(_, _, _, _, _, _) => slot !in s.hedged
            case _ => false
  {
  }

  lemma {:induction false} ScanKeepsScanInv(cfg: Config, s: State, m: MonitorStep, first: set<string>)
    requires cfg.Valid() && MonitorEnabled(cfg, s, m) && ScanInv(cfg, s, first) && m.Scan?
    ensures ScanInv(cfg, ApplyMonitor(cfg, s, m), first)
  {
    ScanResolves(cfg, s, m.slot, m.openReads, m.granted);
    var t := ApplyMonitor(cfg, s, m);
    assert t.hedged == s.hedged;
    assert m.slot in cfg.Pending().Keys;
    assert m.slot !in s.hedged ==> m.slot !in first;
  }

  lemma {:induction false} MonitorKeepsScanInv(cfg: Config, s: State, m: MonitorStep, first: set<string>)
    requires cfg.Valid() && MonitorEnabled(cfg, s, m) && ScanInv(cfg, s, first)
    requires !m.Scan? && !m.TakeTick? && !m.EndScan?
    ensures ScanInv(cfg, ApplyMonitor(cfg, s, m), first)
  {
  }

  lemma {:induction false} HedgesLeaveTheScan(cfg: Config, s: State, j: nat, h: HedgeStep)
    requires cfg.Valid() && HedgeEnabled(cfg, s, j, h)
    ensures ApplyHedge(cfg, s, j, h).monitor == s.monitor && ApplyHedge(cfg, s, j, h).hedged == s.hedged
  {
  }

  lemma {:induction false} MainLeavesTheScan(cfg: Config, s: State, n: MainStep)
    requires MainEnabled(cfg, s, n)
    ensures ApplyMain(cfg, s, n).monitor == s.monitor && ApplyMain(cfg, s, n).hedged == s.hedged
  {
  }

  lemma {:induction false} OthersLeaveTheScan(cfg: Config, s: State, step: Step)
    requires cfg.Valid() && Enabled(cfg, s, step) && !step.Monitor?
    ensures Apply(cfg, s, step).monitor == s.monitor && Apply(cfg, s, step).hedged == s.hedged
  {
    match step
    case Hedger(j, h) => HedgesLeaveTheScan(cfg, s, j, h);
    case Main(n) => MainLeavesTheScan(cfg, s, n);
    case _ =>
  }

  lemma {:induction false} RunKeepsScanInv(cfg: Config, s: State, run: seq<Step>, first: set<string>)
    requires cfg.Valid() && ValidRun(cfg, s, run) && SameScan(run) && ScanInv(cfg, s, first)
    ensures ScanInv(cfg, Exec(cfg, s, run), first)
    decreases |run|
  {
    if run != [] {
      var step := run[0];
      assert step in run;
      if !step.Monitor? {
        OthersLeaveTheScan(cfg, s, step);
      } else if step.m.Scan? {
        ScanKeepsScanInv(cfg, s, step.m, first);
      } else {
        MonitorKeepsScanInv(cfg, s, step.m, first);
      }
      RunKeepsScanInv(cfg, Apply(cfg, s, step), run[1..], first);
    }
  }

  /** At the end of a scan, whatever ran in between, the monitor leaves its loop exactly
      if every slot had been hedged before the scan began. Answers play no part. */
  lemma {:induction false} MonitorStopsExactlyIf(cfg: Config, s: State, now: int, run: seq<Step>)
    requires cfg.Valid() && Reachable(cfg, s) && Enabled(cfg, s, Monitor(TakeTick(now)))
    requires ValidRun(cfg, Apply(cfg, s, Monitor(TakeTick(now))), run) && SameScan(run)
    requires Enabled(cfg, Exec(cfg, Apply(cfg, s, Monitor(TakeTick(now))), run), Monitor(EndScan))
    ensures MonitorNext(cfg, Exec(cfg, Apply(cfg, s, Monitor(TakeTick(now))), run), EndScan).Draining?
            <==> s.hedged == cfg.Pending().Keys
  {
    ReachableInv(cfg, s);
    var u := Apply(cfg, s, Monitor(TakeTick(now)));
    assert cfg.Pending().Keys - u.monitor.todo == {};
    RunKeepsScanInv(cfg, u, run, s.hedged);
  }

  // ---- a scan visits every slot ----

  /** The slots a run of the monitor looks at. */
  function Visited(run: seq<Step>): set<string> {
    if run == [] then {}
    else (if run[0].Monitor? && run[0].m.Scan? then {run[0].m.slot} else {}) + Visited(run[1..])
  }

  /** No slot is looked at twice. */
  predicate VisitsOnce(run: seq<Step>) {
    run == []
    || ((run[0].Monitor? && run[0].m.Scan? ==> run[0].m.slot !in Visited(run[1..])) && VisitsOnce(run[1..]))
  }

  predicate InScan(m: MonitorPc) { m.Scanning? || m.Firing? }

  /** The slots the scan has still to look at. */
  function Left(m: MonitorPc): set<string>
    requires InScan(m)
  {
    if m.Scanning? then m.todo else m.rest
  }

  /** The clock reading the scan goes by. */
  function Reading(m: MonitorPc): int
    requires InScan(m)
  {
    if m.Scanning? then m.now else m.at
  }

  lemma {:induction false} ScanLeaves(cfg: Config, s: State, slot: string, openReads: seq<bool>, granted: bool)
    requires cfg.Valid() && s.monitor.Scanning?
    requires slot in cfg.Pending() && |openReads| == |cfg.Hedgeable()|
    ensures var next := ScanSlot(cfg, s, slot, openReads, granted);
            InScan(next) && Left(next) == s.monitor.todo - {slot} && Reading(next) == s.monitor.now
  {
  }

  /** How one step moves a scan: looking at a slot takes it off the list, and nothing else
      does; a hedge that starts carries the scan's reading. */
  lemma {:induction false} StepMovesScan(cfg: Config, s: State, step: Step)
    requires cfg.Valid() && Enabled(cfg, s, step) && InScan(s.monitor)
    requires !(step.Monitor? && (step.m.TakeTick? || step.m.EndScan?))
    ensures var t := Apply(cfg, s, step);
            && InScan(t.monitor) && Reading(t.monitor) == Reading(s.monitor)
            && (if step.Monitor? && step.m.Scan?
                then step.m.slot in Left(s.monitor) && Left(t.monitor) == Left(s.monitor) - {step.m.slot}
                else Left(t.monitor) == Left(s.monitor))
  {
    if !step.Monitor? {
      OthersLeaveTheScan(cfg, s, step);
    } else if step.m.Scan? {
      ScanLeaves(cfg, s, step.m.slot, step.m.openReads, step.m.granted);
    }
  }

  lemma {:induction false} RunMovesScan(cfg: Config, s: State, run: seq<Step>)
    requires cfg.Valid() && ValidRun(cfg, s, run) && SameScan(run) && InScan(s.monitor)
    ensures var t := Exec(cfg, s, run);
            && InScan(t.monitor) && Reading(t.monitor) == Reading(s.monitor)
            && Visited(run) <= Left(s.monitor) && VisitsOnce(run)
            && Left(t.monitor) == Left(s.monitor) - Visited(run)
    decreases |run|
  {
    if run != [] {
      assert run[0] in run;
      StepMovesScan(cfg, s, run[0]);
      RunMovesScan(cfg, Apply(cfg, s, run[0]), run[1..]);
    }
  }

  /** A scan that has come to its end has looked at every pending slot exactly once,
      however many hedges it fired on the way and whatever ran in between, and all on the
      clock reading it began with. */
  lemma {:induction false} ScanVisitsEverySlot(cfg: Config, s: State, now: int, run: seq<Step>)
    requires cfg.Valid() && Enabled(cfg, s, Monitor(TakeTick(now)))
    requires ValidRun(cfg, Apply(cfg, s, Monitor(TakeTick(now))), run) && SameScan(run)
    requires Enabled(cfg, Exec(cfg, Apply(cfg, s, Monitor(TakeTick(now))), run), Monitor(EndScan))
    ensures Visited(run) == cfg.Pending().Keys && VisitsOnce(run)
    ensures Exec(cfg, Apply(cfg, s, Monitor(TakeTick(now))), run).monitor.now == now
  {
    RunMovesScan(cfg, Apply(cfg, s, Monitor(TakeTick(now))), run);
  }
}
