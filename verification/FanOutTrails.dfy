/** What each goroutine of a fan-out does over a whole run, step by step, and where the
    quotes of the answer come from. */
module FanOutTrails {
  import opened Domain
  import opened Collector
  import opened Eligibility
  import opened FanOut
  import opened FanOutSafety
  import opened FanOutResults
  import opened FanOutTheorems

  // ---- primaries ----

  /** The steps of primary i in a run, in order. */
  function StepsOf(run: seq<Step>, i: nat): seq<PrimaryStep> {
    if run == [] then []
    else (if run[0].Primary? && run[0].i == i then [run[0].p] else []) + StepsOf(run[1..], i)
  }

  /** q is what the adapter returned, under this request's ID and with this latency. */
  predicate IsFiled(cfg: Config, q: Quote, returned: Quote, latency: int) {
    && q.requestID == cfg.requestID && q.latency == latency
    && q.carrierID == returned.carrierID && q.premium == returned.premium && q.expiresAt == returned.expiresAt
    && q.carrierRef == returned.carrierRef && q.isHedged == returned.isHedged
  }

  ghost predicate Silent(p: PrimaryState) {
    p.statuses == [] && p.delivered.None?
  }

  /** The adapter was called, past limiter and breaker. */
  predicate Called(trail: seq<PrimaryStep>) {
    |trail| >= 3 && trail[0] == LookUp && trail[1] == GetToken && trail[2] == Admit
  }

  predicate Answered(cfg: Config, trail: seq<PrimaryStep>, q: Quote) {
    |trail| >= 4 && Called(trail) && trail[3].AdapterReturns? && IsFiled(cfg, q, trail[3].q, trail[3].latency)
  }

  /** A whole callCarrier, its one status and what it sent: without an adapter it does
      nothing; a refused token is a rate limit; a refusal by the breaker is an open
      circuit; an adapter's error is classified; and an adapter's quote is observed,
      reported, and sent or dropped. */
  ghost predicate IsWholeCall(cfg: Config, i: nat, trail: seq<PrimaryStep>, p: PrimaryState)
    requires i < |cfg.eligible|
  {
    || (cfg.eligible[i].id !in cfg.adapters && trail == [LookUp] && Silent(p))
    || (cfg.eligible[i].id in cfg.adapters && IsCallWithAdapter(cfg, trail, p))
  }

  ghost predicate IsCallWithAdapter(cfg: Config, trail: seq<PrimaryStep>, p: PrimaryState) {
    || (trail == [LookUp, TokenRefused] && p.statuses == [RateLimited] && p.delivered.None?)
    || (trail == [LookUp, GetToken, Reject, ReportFailure] && p.statuses == [CircuitOpen] && p.delivered.None?)
    || (|trail| == 5 && Called(trail) && trail[3].AdapterFails? && trail[4] == ReportFailure
        && p.statuses == [ClassifyError(trail[3].e)] && p.delivered.None?)
    || (|trail| == 7 && Called(trail) && trail[3].AdapterReturns? && trail[4] == Observe && trail[5] == Report
        && p.statuses == [Success]
        && ((trail[6] == Send && p.delivered.Some? && Answered(cfg, trail, p.delivered.value))
            || (trail[6] == Drop && p.delivered.None?)))
  }

  /** The trail of a primary up to where it stands. */
  ghost predicate TrailOk(cfg: Config, i: nat, trail: seq<PrimaryStep>, p: PrimaryState)
    requires i < |cfg.eligible|
  {
    match p.pc
    case Exited => IsWholeCall(cfg, i, trail, p)
    case Unstarted => trail == [] && Silent(p)
    case Looking => trail == [] && Silent(p)
    case _ => cfg.eligible[i].id in cfg.adapters && IsPartialCall(cfg, trail, p)
  }

  ghost predicate IsPartialCall(cfg: Config, trail: seq<PrimaryStep>, p: PrimaryState) {
    p.delivered.None?
    && match p.pc
       case AwaitToken => trail == [LookUp] && p.statuses == []
       case AtBreaker => trail == [LookUp, GetToken] && p.statuses == []
       case InAdapter => trail == [LookUp, GetToken, Admit] && p.statuses == []
       case Failing(e) =>
         p.statuses == []
         && ((trail == [LookUp, GetToken, Reject] && e == CallError(true, false, false, false))
             || (|trail| == 4 && Called(trail) && trail[3] == AdapterFails(e)))
       case Observing(q) => p.statuses == [] && |trail| == 4 && Answered(cfg, trail, q)
       case Reporting(q) => p.statuses == [] && |trail| == 5 && Answered(cfg, trail, q) && trail[4] == Observe
       case Sending(q) =>
         p.statuses == [Success] && |trail| == 6 && Answered(cfg, trail, q) && trail[4] == Observe && trail[5] == Report
       case _ => false
  }

  lemma {:induction false} AdmissionExtends(cfg: Config, s: State, i: nat, step: PrimaryStep, trail: seq<PrimaryStep>)
    requires PrimaryEnabled(cfg, s, i, step) && TrailOk(cfg, i, trail, s.primaries[i])
    requires step.LookUp? || step.GetToken? || step.TokenRefused? || step.Reject? || step.Admit?
    ensures TrailOk(cfg, i, trail + [step], PrimaryNext(cfg, s, i, step))
  {
  }

  lemma {:induction false} FailureExtends(cfg: Config, s: State, i: nat, step: PrimaryStep, trail: seq<PrimaryStep>)
    requires PrimaryEnabled(cfg, s, i, step) && TrailOk(cfg, i, trail, s.primaries[i])
    requires step.AdapterFails? || step.ReportFailure?
    ensures TrailOk(cfg, i, trail + [step], PrimaryNext(cfg, s, i, step))
  {
  }

  lemma {:induction false} SuccessExtends(cfg: Config, s: State, i: nat, step: PrimaryStep, trail: seq<PrimaryStep>)
    requires PrimaryEnabled(cfg, s, i, step) && TrailOk(cfg, i, trail, s.primaries[i])
    requires step.AdapterReturns? || step.Observe? || step.Report? || step.Send? || step.Drop?
    ensures TrailOk(cfg, i, trail + [step], PrimaryNext(cfg, s, i, step))
  {
  }

  lemma {:induction false} PrimaryExtends(cfg: Config, s: State, i: nat, step: PrimaryStep, trail: seq<PrimaryStep>)
    requires PrimaryEnabled(cfg, s, i, step) && TrailOk(cfg, i, trail, s.primaries[i])
    ensures TrailOk(cfg, i, trail + [step], PrimaryNext(cfg, s, i, step))
  {
    if step.AdapterFails? || step.ReportFailure? {
      FailureExtends(cfg, s, i, step, trail);
    } else if step.LookUp? || step.GetToken? || step.TokenRefused? || step.Reject? || step.Admit? {
      AdmissionExtends(cfg, s, i, step, trail);
    } else {
      SuccessExtends(cfg, s, i, step, trail);
    }
  }

  /** What a step of anybody else does to primary i: nothing, or it launches it. */
  lemma {:induction false} OthersKeepPrimary(cfg: Config, s: State, step: Step, i: nat)
    requires cfg.Valid() && Enabled(cfg, s, step) && LaunchInv(cfg, s) && i < |s.primaries|
    requires !(step.Primary? && step.i == i)
    ensures i < |Apply(cfg, s, step).primaries|
    ensures var p, p' := s.primaries[i], Apply(cfg, s, step).primaries[i];
            p' == p || (p.pc.Unstarted? && p' == p.(pc := Looking))
  {
    match step
    case Hedger(j, h) => HedgeLeavesPrimaries(cfg, s, j, h);
    case Monitor(m) => MonitorLeavesPrimaries(cfg, s, m);
    case Main(n) => MainLaunchesOnly(cfg, s, n, i);
    case _ =>
  }

  lemma {:induction false} HedgeLeavesPrimaries(cfg: Config, s: State, j: nat, h: HedgeStep)
    requires cfg.Valid() && HedgeEnabled(cfg, s, j, h)
    ensures ApplyHedge(cfg, s, j, h).primaries == s.primaries
  {
  }

  lemma {:induction false} MonitorLeavesPrimaries(cfg: Config, s: State, m: MonitorStep)
    requires cfg.Valid() && MonitorEnabled(cfg, s, m)
    ensures ApplyMonitor(cfg, s, m).primaries == s.primaries
  {
  }

  lemma {:induction false} MainLaunchesOnly(cfg: Config, s: State, n: MainStep, i: nat)
    requires MainEnabled(cfg, s, n) && LaunchInv(cfg, s) && i < |s.primaries|
    ensures i < |ApplyMain(cfg, s, n).primaries|
    ensures var p, p' := s.primaries[i], ApplyMain(cfg, s, n).primaries[i];
            p' == p || (p.pc.Unstarted? && p' == p.(pc := Looking))
  {
  }

  lemma {:induction false} StepExtends(cfg: Config, s: State, step: Step, i: nat, trail: seq<PrimaryStep>)
    requires cfg.Valid() && Enabled(cfg, s, step) && Inv(cfg, s)
    requires i < |s.primaries| && TrailOk(cfg, i, trail, s.primaries[i])
    ensures i < |Apply(cfg, s, step).primaries|
    ensures TrailOk(cfg, i, trail + StepsOf([step], i), Apply(cfg, s, step).primaries[i])
  {
    assert [step][1..] == [];
    if step.Primary? && step.i == i {
      PrimaryExtends(cfg, s, i, step.p, trail);
      SendsWhenOpen(cfg, s, i, step.p);
      assert StepsOf([step], i) == [step.p];
    } else {
      OthersKeepPrimary(cfg, s, step, i);
      assert trail + StepsOf([step], i) == trail;
    }
  }

  lemma {:induction false} SendsWhenOpen(cfg: Config, s: State, i: nat, step: PrimaryStep)
    requires PrimaryEnabled(cfg, s, i, step) && CloseInv(s)
    ensures ApplyPrimary(cfg, s, i, step).primaries == s.primaries[i := PrimaryNext(cfg, s, i, step)]
  {
    assert !s.primaries[i].pc.Exited?;
  }

  lemma {:induction false} StepsSplit(run: seq<Step>, i: nat)
    requires run != []
    ensures StepsOf([run[0]], i) + StepsOf(run[1..], i) == StepsOf(run, i)
  {
    assert [run[0]][1..] == [];
  }

  lemma {:induction false} RunExtends(cfg: Config, s: State, run: seq<Step>, i: nat, trail: seq<PrimaryStep>)
    requires cfg.Valid() && ValidRun(cfg, s, run) && Inv(cfg, s)
    requires i < |s.primaries| && TrailOk(cfg, i, trail, s.primaries[i])
    ensures i < |Exec(cfg, s, run).primaries|
    ensures TrailOk(cfg, i, trail + StepsOf(run, i), Exec(cfg, s, run).primaries[i])
    decreases |run|
  {
    if run == [] {
      assert trail + [] == trail;
    } else {
      StepExtends(cfg, s, run[0], i, trail);
      StepKeepsInv(cfg, s, run[0]);
      StepsSplit(run, i);
      ConcatAssociates(trail, StepsOf([run[0]], i), StepsOf(run[1..], i));
      RunExtends(cfg, Apply(cfg, s, run[0]), run[1..], i, trail + StepsOf([run[0]], i));
    }
  }

  /** In every run to the return each primary has gone through exactly one whole call, in
      the order of limiter, breaker, adapter, tracker, status and send. */
  lemma {:induction false} EveryPrimaryMakesOneCall(cfg: Config, clock: int, run: seq<Step>, i: nat)
    requires cfg.Valid() && ValidRun(cfg, Init(cfg, clock), run) && i < |cfg.eligible|
    requires Exec(cfg, Init(cfg, clock), run).main.Returned?
    ensures i < |Exec(cfg, Init(cfg, clock), run).primaries|
    ensures IsWholeCall(cfg, i, StepsOf(run, i), Exec(cfg, Init(cfg, clock), run).primaries[i])
  {
    InitInv(cfg, clock);
    RunKeepsInv(cfg, Init(cfg, clock), run);
    RunExtends(cfg, Init(cfg, clock), run, i, []);
    assert [] + StepsOf(run, i) == StepsOf(run, i);
    assert Exec(cfg, Init(cfg, clock), run).primaries[i].pc.Exited?;
  }

  // ---- hedges ----

  function HedgeStepsOf(run: seq<Step>, j: nat): seq<HedgeStep> {
    if run == [] then []
    else (if run[0].Hedger? && run[0].j == j then [run[0].h] else []) + HedgeStepsOf(run[1..], j)
  }

  /** q is what the adapter returned, marked as hedged and otherwise untouched. */
  predicate IsHedgedCopy(q: Quote, returned: Quote) {
    && q.isHedged
    && q.requestID == returned.requestID && q.latency == returned.latency
    && q.carrierID == returned.carrierID && q.premium == returned.premium && q.expiresAt == returned.expiresAt
    && q.carrierRef == returned.carrierRef
  }

  predicate HedgeAnswered(trail: seq<HedgeStep>, q: Quote) {
    |trail| >= 2 && trail[0] == HedgeCall && trail[1].HedgeReturns? && IsHedgedCopy(q, trail[1].q)
  }

  /** A whole hedge: it calls the adapter, and an error ends it silently; a quote is sent
      or dropped. */
  ghost predicate IsWholeHedge(trail: seq<HedgeStep>, h: Hedge) {
    || (trail == [HedgeCall, HedgeFails] && h.delivered.None?)
    || (|trail| == 3 && trail[0] == HedgeCall && trail[1].HedgeReturns?
        && ((trail[2] == HedgeSend && h.delivered.Some? && HedgeAnswered(trail, h.delivered.value))
            || (trail[2] == HedgeDrop && h.delivered.None?)))
  }

  ghost predicate HedgeTrailOk(trail: seq<HedgeStep>, h: Hedge) {
    match h.pc
    case HStarting => trail == [] && h.delivered.None?
    case HInAdapter => trail == [HedgeCall] && h.delivered.None?
    case HSending(q) => |trail| == 2 && HedgeAnswered(trail, q) && h.delivered.None?
    case HExited => IsWholeHedge(trail, h)
  }

  lemma {:induction false} HedgeExtends(cfg: Config, s: State, j: nat, step: HedgeStep, trail: seq<HedgeStep>)
    requires cfg.Valid() && HedgeEnabled(cfg, s, j, step) && HedgeTrailOk(trail, s.hedges[j])
    ensures HedgeTrailOk(trail + [step], HedgeNext(cfg, s, j, step))
  {
  }

  /** A hedge that has not been started has taken no step. */
  ghost predicate HedgeTrailIn(s: State, j: nat, trail: seq<HedgeStep>) {
    if j < |s.hedges| then HedgeTrailOk(trail, s.hedges[j]) else trail == []
  }

  lemma {:induction false} HedgeSendsWhenOpen(cfg: Config, s: State, j: nat, step: HedgeStep)
    requires cfg.Valid() && HedgeEnabled(cfg, s, j, step) && CloseInv(s)
    ensures ApplyHedge(cfg, s, j, step).hedges == s.hedges[j := HedgeNext(cfg, s, j, step)]
  {
    assert !s.hedges[j].pc.HExited?;
  }

  /** Everybody else leaves the hedges alone; the monitor may start one more. */
  lemma {:induction false} OthersKeepHedges(cfg: Config, s: State, step: Step)
    requires cfg.Valid() && Enabled(cfg, s, step) && !step.Hedger?
    ensures var hs := Apply(cfg, s, step).hedges;
            hs == s.hedges || (s.monitor.Firing? && hs == s.hedges + [Started(s.monitor)])
  {
    match step
    case Monitor(m) => MonitorStartsOne(cfg, s, m);
    case Main(n) => MainLeavesHedges(cfg, s, n);
    case _ =>
  }

  lemma {:induction false} MonitorStartsOne(cfg: Config, s: State, m: MonitorStep)
    requires cfg.Valid() && MonitorEnabled(cfg, s, m)
    ensures var hs := ApplyMonitor(cfg, s, m).hedges;
            hs == s.hedges || (s.monitor.Firing? && hs == s.hedges + [Started(s.monitor)])
  {
  }

  lemma {:induction false} MainLeavesHedges(cfg: Config, s: State, n: MainStep)
    requires MainEnabled(cfg, s, n)
    ensures ApplyMain(cfg, s, n).hedges == s.hedges
  {
  }

  lemma {:induction false} HedgeStepExtends(cfg: Config, s: State, step: Step, j: nat, trail: seq<HedgeStep>)
    requires cfg.Valid() && Enabled(cfg, s, step) && CloseInv(s) && HedgeTrailIn(s, j, trail)
    ensures HedgeTrailIn(Apply(cfg, s, step), j, trail + HedgeStepsOf([step], j))
  {
    assert [step][1..] == [];
    if step.Hedger? {
      HedgeSendsWhenOpen(cfg, s, step.j, step.h);
      if step.j == j {
        HedgeExtends(cfg, s, j, step.h, trail);
        assert HedgeStepsOf([step], j) == [step.h];
      } else {
        assert trail + HedgeStepsOf([step], j) == trail;
      }
    } else {
      OthersKeepHedges(cfg, s, step);
      assert trail + HedgeStepsOf([step], j) == trail;
    }
  }

  lemma {:induction false} HedgeStepsSplit(run: seq<Step>, j: nat)
    requires run != []
    ensures HedgeStepsOf([run[0]], j) + HedgeStepsOf(run[1..], j) == HedgeStepsOf(run, j)
  {
    assert [run[0]][1..] == [];
  }

  lemma {:induction false} HedgeRunExtends(cfg: Config, s: State, run: seq<Step>, j: nat, trail: seq<HedgeStep>)
    requires cfg.Valid() && ValidRun(cfg, s, run) && Inv(cfg, s) && HedgeTrailIn(s, j, trail)
    ensures HedgeTrailIn(Exec(cfg, s, run), j, trail + HedgeStepsOf(run, j))
    decreases |run|
  {
    if run == [] {
      assert trail + [] == trail;
    } else {
      HedgeStepExtends(cfg, s, run[0], j, trail);
      StepKeepsInv(cfg, s, run[0]);
      HedgeStepsSplit(run, j);
      ConcatAssociates(trail, HedgeStepsOf([run[0]], j), HedgeStepsOf(run[1..], j));
      HedgeRunExtends(cfg, Apply(cfg, s, run[0]), run[1..], j, trail + HedgeStepsOf([run[0]], j));
    }
  }

  /** In every run to the return each hedge has made exactly one whole call. */
  lemma {:induction false} EveryHedgeMakesOneCall(cfg: Config, clock: int, run: seq<Step>, j: nat)
    requires cfg.Valid() && ValidRun(cfg, Init(cfg, clock), run)
    requires Exec(cfg, Init(cfg, clock), run).main.Returned?
    requires j < |Exec(cfg, Init(cfg, clock), run).hedges|
    ensures IsWholeHedge(HedgeStepsOf(run, j), Exec(cfg, Init(cfg, clock), run).hedges[j])
  {
    InitInv(cfg, clock);
    RunKeepsInv(cfg, Init(cfg, clock), run);
    HedgeRunExtends(cfg, Init(cfg, clock), run, j, []);
    assert [] + HedgeStepsOf(run, j) == HedgeStepsOf(run, j);
    assert Exec(cfg, Init(cfg, clock), run).hedges[j].pc.HExited?;
  }

  // ---- where hedges come from ----

  /** In this run the monitor took a tick at the reading, and scanned the slot with these
      breaker states read and a token granted. */
  ghost predicate IsAsked(run: seq<Step>, slot: string, at: int, openReads: seq<bool>) {
    Monitor(TakeTick(at)) in run && Monitor(Scan(slot, openReads, true)) in run
  }

  ghost predicate MonitorAsked(run: seq<Step>, m: MonitorPc) {
    match m
    case Scanning(now, _, _) => Monitor(TakeTick(now)) in run
    case Firing(_, at, _, trigger, _, openReads) => IsAsked(run, trigger, at, openReads)
    case _ => true
  }

  ghost predicate HedgesAsked(run: seq<Step>, hs: seq<Hedge>) {
    forall j :: 0 <= j < |hs| ==> IsAsked(run, hs[j].trigger, hs[j].firedAt, hs[j].openReads)
  }

  lemma {:induction false} ScanAsks(cfg: Config, s: State, slot: string, openReads: seq<bool>, granted: bool)
    requires cfg.Valid() && s.monitor.Scanning?
    requires slot in cfg.Pending() && |openReads| == |cfg.Hedgeable()|
    ensures match ScanSlot(cfg, s, slot, openReads, granted)
            case Scanning(now, _, _) => now == s.monitor.now
            case Firing(_, at, _, trigger, _, read) =>
              granted && at == s.monitor.now && trigger == slot && read == openReads
            case _ => false
  {
  }

  lemma {:induction false} MonitorKeepsAsked(cfg: Config, s: State, m: MonitorStep, run: seq<Step>)
    requires cfg.Valid() && MonitorEnabled(cfg, s, m) && Monitor(m) in run && MonitorAsked(run, s.monitor)
    ensures MonitorAsked(run, ApplyMonitor(cfg, s, m).monitor)
  {
    if m.Scan? {
      ScanAsks(cfg, s, m.slot, m.openReads, m.granted);
    }
  }

  lemma {:induction false} OthersKeepMonitor(cfg: Config, s: State, step: Step)
    requires cfg.Valid() && Enabled(cfg, s, step) && !step.Monitor?
    ensures Apply(cfg, s, step).monitor == s.monitor
  {
  }

  lemma {:induction false} StepKeepsAsked(cfg: Config, s: State, step: Step, run: seq<Step>)
    requires cfg.Valid() && Enabled(cfg, s, step) && CloseInv(s) && step in run
    requires MonitorAsked(run, s.monitor) && HedgesAsked(run, s.hedges)
    ensures MonitorAsked(run, Apply(cfg, s, step).monitor) && HedgesAsked(run, Apply(cfg, s, step).hedges)
  {
    if step.Monitor? {
      MonitorKeepsAsked(cfg, s, step.m, run);
    } else {
      OthersKeepMonitor(cfg, s, step);
    }
    if step.Hedger? {
      HedgeSendsWhenOpen(cfg, s, step.j, step.h);
      HedgeLocal(cfg, s, step.j, step.h);
    } else {
      OthersKeepHedges(cfg, s, step);
    }
  }

  lemma {:induction false} RunKeepsAsked(cfg: Config, s: State, rest: seq<Step>, run: seq<Step>)
    requires cfg.Valid() && ValidRun(cfg, s, rest) && Inv(cfg, s) && forall step :: step in rest ==> step in run
    requires MonitorAsked(run, s.monitor) && HedgesAsked(run, s.hedges)
    ensures HedgesAsked(run, Exec(cfg, s, rest).hedges)
    decreases |rest|
  {
    if rest != [] {
      assert rest[0] in rest;
      StepKeepsAsked(cfg, s, rest[0], run);
      StepKeepsInv(cfg, s, rest[0]);
      RunKeepsAsked(cfg, Apply(cfg, s, rest[0]), rest[1..], run);
    }
  }

  /** Every hedge goes back to a scan of its slot in this run: on the breaker states read
      there, with a token granted there, at the reading of a tick taken before. */
  lemma {:induction false} EveryHedgeWasAskedFor(cfg: Config, clock: int, run: seq<Step>, j: nat)
    requires cfg.Valid() && ValidRun(cfg, Init(cfg, clock), run)
    requires j < |Exec(cfg, Init(cfg, clock), run).hedges|
    ensures var h := Exec(cfg, Init(cfg, clock), run).hedges[j];
            IsAsked(run, h.trigger, h.firedAt, h.openReads)
  {
    InitInv(cfg, clock);
    RunKeepsAsked(cfg, Init(cfg, clock), run, run);
  }

  // ---- which adapters are called ----

  /** The carrier whose adapter a step calls, if it calls one. */
  ghost function CallOf(cfg: Config, s: State, step: Step): seq<string>
    requires cfg.Valid() && Enabled(cfg, s, step)
  {
    match step
    case Primary(i, Admit) => [cfg.eligible[i].id]
    case Hedger(j, HedgeCall) => [cfg.Hedgeable()[s.hedges[j].target].carrier.id]
    case _ => []
  }

  /** The carriers whose adapters a run calls, in order. */
  ghost function CallsIn(cfg: Config, s: State, run: seq<Step>): seq<string>
    requires cfg.Valid() && ValidRun(cfg, s, run)
    decreases |run|
  {
    if run == [] then [] else CallOf(cfg, s, run[0]) + CallsIn(cfg, Apply(cfg, s, run[0]), run[1..])
  }

  lemma {:induction false} PrimaryLogsCalls(cfg: Config, s: State, i: nat, p: PrimaryStep)
    requires cfg.Valid() && Enabled(cfg, s, Primary(i, p))
    ensures ApplyPrimary(cfg, s, i, p).calls == s.calls + CallOf(cfg, s, Primary(i, p))
  {
  }

  lemma {:induction false} HedgeLogsCalls(cfg: Config, s: State, j: nat, h: HedgeStep)
    requires cfg.Valid() && Enabled(cfg, s, Hedger(j, h))
    ensures ApplyHedge(cfg, s, j, h).calls == s.calls + CallOf(cfg, s, Hedger(j, h))
  {
  }

  lemma {:induction false} MainLogsNoCalls(cfg: Config, s: State, n: MainStep)
    requires MainEnabled(cfg, s, n)
    ensures ApplyMain(cfg, s, n).calls == s.calls
  {
  }

  lemma {:induction false} StepLogsCalls(cfg: Config, s: State, step: Step)
    requires cfg.Valid() && Enabled(cfg, s, step)
    ensures Apply(cfg, s, step).calls == s.calls + CallOf(cfg, s, step)
  {
    match step
    case Primary(i, p) => PrimaryLogsCalls(cfg, s, i, p);
    case Hedger(j, h) => HedgeLogsCalls(cfg, s, j, h);
    case Main(n) => MainLogsNoCalls(cfg, s, n);
    case _ =>
  }

  lemma {:induction false} RunLogsCalls(cfg: Config, s: State, run: seq<Step>)
    requires cfg.Valid() && ValidRun(cfg, s, run)
    ensures Exec(cfg, s, run).calls == s.calls + CallsIn(cfg, s, run)
    decreases |run|
  {
    if run != [] {
      StepLogsCalls(cfg, s, run[0]);
      RunLogsCalls(cfg, Apply(cfg, s, run[0]), run[1..]);
      ConcatAssociates(s.calls, CallOf(cfg, s, run[0]), CallsIn(cfg, Apply(cfg, s, run[0]), run[1..]));
    }
  }

  /** No step of any run calls the adapter of a carrier that the filter read as Open. */
  lemma {:induction false} RunsDoNotCallOpenCarriers(
    cfg: Config, clock: int, run: seq<Step>, carriers: seq<Carrier>, readsOpen: seq<bool>, lines: seq<string>,
    id: string)
    requires cfg.Valid() && ValidRun(cfg, Init(cfg, clock), run)
    requires |readsOpen| == |carriers| && IsFiltered(carriers, readsOpen, lines, cfg.eligible)
    requires forall k :: 0 <= k < |carriers| && carriers[k].id == id ==> readsOpen[k]
    ensures id !in CallsIn(cfg, Init(cfg, clock), run)
  {
    RunLogsCalls(cfg, Init(cfg, clock), run);
    assert Reachable(cfg, Exec(cfg, Init(cfg, clock), run));
    OpenCarriersAreNotCalled(cfg, Exec(cfg, Init(cfg, clock), run), carriers, readsOpen, lines, id);
  }

  // ---- where the answer comes from ----

  lemma {:induction false} StepsAreInTheRun(run: seq<Step>, i: nat, p: PrimaryStep)
    requires p in StepsOf(run, i)
    ensures Primary(i, p) in run
  {
    if !(run[0].Primary? && run[0].i == i && run[0].p == p) {
      StepsAreInTheRun(run[1..], i, p);
    }
  }

  lemma {:induction false} HedgeStepsAreInTheRun(run: seq<Step>, j: nat, h: HedgeStep)
    requires h in HedgeStepsOf(run, j)
    ensures Hedger(j, h) in run
  {
    if !(run[0].Hedger? && run[0].j == j && run[0].h == h) {
      HedgeStepsAreInTheRun(run[1..], j, h);
    }
  }

  /** The step at which an adapter returned q to its goroutine. */
  ghost predicate IsSource(cfg: Config, step: Step, q: Quote) {
    match step
    case Primary(_, AdapterReturns(returned, latency)) => IsFiled(cfg, q, returned, latency)
    case Hedger(_, HedgeReturns(returned)) => IsHedgedCopy(q, returned)
    case _ => false
  }

  /** Every quote in the answer is one that an adapter returned in this run, to a primary,
      which filed it under the request's ID with its latency, or to a hedge, which marked
      it; nothing else about it has changed. */
  lemma {:induction false} AnswersComeFromAdapters(cfg: Config, clock: int, run: seq<Step>, q: Quote)
    requires cfg.Valid() && ValidRun(cfg, Init(cfg, clock), run)
    requires Exec(cfg, Init(cfg, clock), run).main.Returned?
    requires q in Exec(cfg, Init(cfg, clock), run).main.answer
    ensures exists step :: step in run && IsSource(cfg, step, q)
  {
    var t := Exec(cfg, Init(cfg, clock), run);
    assert Reachable(cfg, t);
    ReturnsTheAnswer(cfg, t);
    assert IsFirstArrival(t.arrivals, q);
    if FromPrimary(t, q) {
      var i: nat :| i < |t.primaries| && t.primaries[i].delivered == Some(q);
      PrimarySource(cfg, clock, run, i, q);
    } else {
      var j: nat :| j < |t.hedges| && t.hedges[j].delivered == Some(q);
      EveryHedgeMakesOneCall(cfg, clock, run, j);
      var answer := HedgeStepsOf(run, j)[1];
      HedgeStepsAreInTheRun(run, j, answer);
      assert IsSource(cfg, Hedger(j, answer), q);
    }
  }

  lemma {:induction false} PrimarySource(cfg: Config, clock: int, run: seq<Step>, i: nat, q: Quote)
    requires cfg.Valid() && ValidRun(cfg, Init(cfg, clock), run)
    requires var t := Exec(cfg, Init(cfg, clock), run);
             t.main.Returned? && i < |t.primaries| && t.primaries[i].delivered == Some(q)
    ensures exists step :: step in run && IsSource(cfg, step, q)
  {
    InitInv(cfg, clock);
    RunKeepsInv(cfg, Init(cfg, clock), run);
    EveryPrimaryMakesOneCall(cfg, clock, run, i);
    var answer := StepsOf(run, i)[3];
    StepsAreInTheRun(run, i, answer);
    assert IsSource(cfg, Primary(i, answer), q);
  }
}
