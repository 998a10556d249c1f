/** The fan-out protocol as a transition system: n primary goroutines, the polling
    hedge monitor and the goroutines it starts, the closer, the collector, and the
    clock. One step is one blocking point, channel operation or recorded event. */
module FanOut {
  import opened Domain
  import opened Collector
  import opened EmaTracker
  import opened Eligibility

  /** A tracker as it stood when the pending table was built. */
  datatype Snapshot = Snapshot(state: EmaState, warmup: int, multiplier: real)

  /** Everything fixed before the first goroutine starts. adaptersStamp says that
      adapters put their own carrier ID on their results. */
  datatype Config = Config(
    requestID: string,
    eligible: seq<Carrier>,
    adapters: set<string>,
    averages: seq<real>,
    trackers: seq<Snapshot>,
    starts: seq<int>,
    firstTick: int,              // one poll interval after the launch; no tick comes earlier
    deadline: int,
    adaptersStamp: bool)
  {
    predicate Valid() {
      |eligible| > 0 && |averages| == |trackers| == |starts| == |eligible|
    }

    function Capacity(): nat { 2 * |eligible| }

    function Thresholds(): seq<Threshold> {
      seq(|trackers|, i requires 0 <= i < |trackers| =>
        HedgeThresholdOf(trackers[i].state, trackers[i].warmup, trackers[i].multiplier))
    }

    function Hedgeable(): seq<HedgeCarrier>
      requires Valid()
    {
      HedgeableOf(eligible, adapters, averages)
    }

    function Pending(): map<string, PendingCarrier>
      requires Valid()
    {
      PendingOf(eligible, starts, Thresholds())
    }
  }

  /** An error, by the sentinels errors.Is finds in it. */
  datatype CallError = CallError(circuitOpen: bool, rateLimited: bool, deadline: bool, carrierTimeout: bool)

  datatype Status = Success | Failure | CircuitOpen | RateLimited | Timeout

  /** A refusal by the breaker outranks a rate limit, which outranks a timeout. */
  function ClassifyError(e: CallError): (status: Status)
    ensures status != Success
    ensures status == CircuitOpen <==> e.circuitOpen
    ensures status == RateLimited <==> e.rateLimited && !e.circuitOpen
    ensures status == Timeout <==> (e.deadline || e.carrierTimeout) && !e.rateLimited && !e.circuitOpen
    ensures status == Failure <==> e == CallError(false, false, false, false)
  {
    if e.circuitOpen then CircuitOpen
    else if e.rateLimited then RateLimited
    else if e.deadline || e.carrierTimeout then Timeout
    else Failure
  }

  // ---- goroutines ----

  datatype PrimaryPc =
    | Unstarted
    | Looking                  // registry lookup
    | AwaitToken               // limiter.Wait
    | AtBreaker                // breaker.Execute, before the admission decision
    | InAdapter
    | Observing(q: Quote)      // tracker.Record
    | Reporting(q: Quote)      // RecordQuote "success"
    | Sending(q: Quote)        // select on results and ctx
    | Failing(e: CallError)    // RecordQuote of a failure
    | Exited

  datatype PrimaryState = PrimaryState(
    pc: PrimaryPc,
    statuses: seq<Status>,       // history: RecordQuote calls
    observed: nat,               // history: tracker.Record calls
    offered: nat,                // history: results brought to the select
    delivered: Option<Quote>)    // history: the result sent

  datatype HedgePc = HStarting | HInAdapter | HSending(q: Quote) | HExited

  datatype Hedge = Hedge(
    trigger: string,             // the slow slot
    target: nat,                 // index in the hedgeable list
    firedAt: int,                // the monitor's clock reading
    openReads: seq<bool>,            // breaker states read while selecting
    pc: HedgePc,
    delivered: Option<Quote>)

  datatype Stage = TokenTaken | Marked | Recorded

  datatype MonitorPc =
    | Polling
    | Scanning(now: int, todo: set<string>, allResolved: bool)
    | Firing(stage: Stage, at: int, rest: set<string>, trigger: string, target: nat, openReads: seq<bool>)
    | Draining                   // hedgeWg.Wait
    | Signalling                 // close(hedgeDone)
    | Stopped

  datatype CloserPc = Unlaunched | AwaitGroup | CancelHedges | AwaitMonitor | Closing | Finished

  datatype MainPc = Launching(next: nat) | Collecting | Returned(answer: seq<Quote>)

  datatype State = State(
    main: MainPc,
    primaries: seq<PrimaryState>,
    monitor: MonitorPc,
    hedged: set<string>,         // alreadyHedged
    hedges: seq<Hedge>,
    closer: CloserPc,
    buffer: seq<Quote>,          // contents of the results channel
    closed: bool,
    closes: nat,                 // history: close(results) calls
    panicked: bool,              // a send or a close hit the closed channel
    arrivals: seq<Quote>,        // history: everything received
    collected: seq<Quote>,
    seen: set<string>,
    clock: int,
    tick: bool,                  // the ticker channel holds a tick
    requestDone: bool,           // deadline passed or request cancelled
    groupDone: bool,             // errgroup context, cancelled when Wait returns
    hedgeCancelled: bool,        // hedgeCancel called
    tokens: nat,                 // history: limiter tokens taken for hedges
    hedgeRecords: seq<(string, string)>,   // history: RecordHedge calls
    calls: seq<string>)          // history: carriers whose adapter was called

  predicate GroupCtxDone(s: State) { s.requestDone || s.groupDone }

  predicate HedgeCtxDone(s: State) { GroupCtxDone(s) || s.hedgeCancelled }

  /** Steps of one primary goroutine. */
  datatype PrimaryStep =
    | LookUp
    | GetToken
    | TokenRefused
    | Reject
    | Admit
    | AdapterFails(e: CallError)
    | AdapterReturns(q: Quote, latency: int)
    | Observe
    | Report
    | Send
    | Drop
    | ReportFailure

  datatype MonitorStep =
    | Quit
    | TakeTick(now: int)
    | Scan(slot: string, openReads: seq<bool>, granted: bool)
    | EndScan
    | Mark
    | RecordHedge
    | Spawn
    | Drained
    | Signal

  datatype HedgeStep = HedgeCall | HedgeFails | HedgeReturns(q: Quote) | HedgeSend | HedgeDrop

  datatype CloserStep = GroupFinished | CancelHedging | MonitorFinished | Close

  datatype MainStep = Launch | Receive | Return(answer: seq<Quote>)

  datatype ClockStep = Advance(tick: bool) | CancelRequest

  datatype Step =
    | Primary(i: nat, p: PrimaryStep)
    | Monitor(m: MonitorStep)
    | Hedger(j: nat, h: HedgeStep)
    | Closer(c: CloserStep)
    | Main(n: MainStep)
    | Clock(k: ClockStep)

  /** elapsed >= threshold, in milliseconds. */
  predicate Due(p: PendingCarrier, now: int) {
    match p.hedgeThreshold
    case Never => false
    case After(ms) => (now - p.startTime) as real / NANOS_PER_MILLI as real >= ms
  }

  ghost predicate AllExited(s: State) {
    forall i :: 0 <= i < |s.primaries| ==> s.primaries[i].pc.Exited?
  }

  ghost predicate AllHedgesExited(s: State) {
    forall j :: 0 <= j < |s.hedges| ==> s.hedges[j].pc.HExited?
  }

  predicate HasRoom(cfg: Config, s: State) { |s.buffer| < cfg.Capacity() }

  function Init(cfg: Config, clock: int): State {
    State(Launching(0), seq(|cfg.eligible|, i => PrimaryState(Unstarted, [], 0, 0, None)), Polling, {}, [],
          Unlaunched, [], false, 0, false, [], [], {}, clock, false, clock >= cfg.deadline, false, false, 0, [], [])
  }

  // ---- primary goroutines ----

  ghost predicate PrimaryEnabled(cfg: Config, s: State, i: nat, step: PrimaryStep) {
    && i < |s.primaries| && i < |cfg.eligible|
    && var pc := s.primaries[i].pc;
       match step
       case LookUp => pc.Looking?
       case GetToken => pc.AwaitToken?
       case TokenRefused => pc.AwaitToken?
       case Reject => pc.AtBreaker?
       case Admit => pc.AtBreaker?
       case AdapterFails(_) => pc.InAdapter?
       case AdapterReturns(q, _) =>
         pc.InAdapter? && (cfg.adaptersStamp ==> q.carrierID == cfg.eligible[i].id)
       case Observe => pc.Observing?
       case Report => pc.Reporting?
       case Send => pc.Sending? && (s.closed || HasRoom(cfg, s))
       case Drop => pc.Sending? && GroupCtxDone(s)
       case ReportFailure => pc.Failing?
  }

  /** What the goroutine of primary i becomes. */
  ghost function PrimaryNext(cfg: Config, s: State, i: nat, step: PrimaryStep): PrimaryState
    requires PrimaryEnabled(cfg, s, i, step)
  {
    var p := s.primaries[i];
    match step
    case LookUp => p.(pc := if cfg.eligible[i].id in cfg.adapters then AwaitToken else Exited)
    case GetToken => p.(pc := AtBreaker)
    case TokenRefused => p.(pc := Exited, statuses := p.statuses + [RateLimited])
    case Reject => p.(pc := Failing(CallError(true, false, false, false)))
    case Admit => p.(pc := InAdapter)
    case AdapterFails(e) => p.(pc := Failing(e))
    case AdapterReturns(q, latency) => p.(pc := Observing(q.(requestID := cfg.requestID, latency := latency)))
    case Observe => p.(pc := Reporting(p.pc.q), observed := p.observed + 1)
    case Report => p.(pc := Sending(p.pc.q), statuses := p.statuses + [Success])
    case Send => p.(pc := Exited, offered := p.offered + 1, delivered := Some(p.pc.q))
    case Drop => p.(pc := Exited, offered := p.offered + 1)
    case ReportFailure => p.(pc := Exited, statuses := p.statuses + [ClassifyError(p.pc.e)])
  }

  ghost function ApplyPrimary(cfg: Config, s: State, i: nat, step: PrimaryStep): State
    requires PrimaryEnabled(cfg, s, i, step)
  {
    if step.Send? && s.closed then s.(panicked := true)
    else
      s.(primaries := s.primaries[i := PrimaryNext(cfg, s, i, step)],
         buffer := if step.Send? then s.buffer + [s.primaries[i].pc.q] else s.buffer,
         calls := if step.Admit? then s.calls + [cfg.eligible[i].id] else s.calls)
  }

  // ---- the hedge monitor ----

  ghost predicate MonitorEnabled(cfg: Config, s: State, step: MonitorStep)
    requires cfg.Valid()
  {
    match step
    case Quit => s.monitor.Polling? && HedgeCtxDone(s)
    case TakeTick(now) => s.monitor.Polling? && s.tick && now >= s.clock
    case Scan(slot, openReads, _) =>
      s.monitor.Scanning? && slot in s.monitor.todo && slot in cfg.Pending() && |openReads| == |cfg.Hedgeable()|
    case EndScan => s.monitor.Scanning? && s.monitor.todo == {}
    case Mark => s.monitor.Firing? && s.monitor.stage.TokenTaken?
    case RecordHedge => s.monitor.Firing? && s.monitor.stage.Marked? && s.monitor.target < |cfg.Hedgeable()|
    case Spawn => s.monitor.Firing? && s.monitor.stage.Recorded?
    case Drained => s.monitor.Draining? && AllHedgesExited(s)
    case Signal => s.monitor.Signalling?
  }

  /** The body of the monitor's loop over pending, for one slot: skip it, wait on, or
      take a limiter token and start firing. */
  ghost function ScanSlot(cfg: Config, s: State, slot: string, openReads: seq<bool>, granted: bool): MonitorPc
    requires cfg.Valid() && s.monitor.Scanning?
    requires slot in cfg.Pending() && |openReads| == |cfg.Hedgeable()|
  {
    var Scanning(now, todo, allResolved) := s.monitor;
    var rest := todo - {slot};
    if slot in s.hedged then Scanning(now, rest, allResolved)
    else if !Due(cfg.Pending()[slot], now) then Scanning(now, rest, false)
    else
      match SelectAmong(slot, cfg.Hedgeable(), openReads)
      case None => Scanning(now, rest, false)
      case Some(k) =>
        if !granted then Scanning(now, rest, false) else Firing(TokenTaken, now, rest, slot, k, openReads)
  }

  ghost function MonitorNext(cfg: Config, s: State, step: MonitorStep): MonitorPc
    requires cfg.Valid() && MonitorEnabled(cfg, s, step)
  {
    match step
    case Quit => Draining
    case TakeTick(now) => Scanning(now, cfg.Pending().Keys, true)
    case Scan(slot, openReads, granted) => ScanSlot(cfg, s, slot, openReads, granted)
    case EndScan => if s.monitor.allResolved then Draining else Polling
    case Mark => s.monitor.(stage := Marked)
    case RecordHedge => s.monitor.(stage := Recorded)
    case Spawn => Scanning(s.monitor.at, s.monitor.rest, false)
    case Drained => Signalling
    case Signal => Stopped
  }

  /** The goroutine a firing monitor starts. */
  ghost function Started(m: MonitorPc): Hedge
    requires m.Firing?
  {
    Hedge(m.trigger, m.target, m.at, m.openReads, HStarting, None)
  }

  ghost function ApplyMonitor(cfg: Config, s: State, step: MonitorStep): State
    requires cfg.Valid() && MonitorEnabled(cfg, s, step)
  {
    var next := MonitorNext(cfg, s, step);
    s.(monitor := next,
       tick := s.tick && !step.TakeTick?,
       tokens := if step.Scan? && next.Firing? then s.tokens + 1 else s.tokens,
       hedged := if step.Mark? then s.hedged + {s.monitor.trigger} else s.hedged,
       hedgeRecords :=
         if step.RecordHedge?
         then s.hedgeRecords + [(cfg.Hedgeable()[s.monitor.target].carrier.id, s.monitor.trigger)]
         else s.hedgeRecords,
       hedges := if step.Spawn? then s.hedges + [Started(s.monitor)] else s.hedges)
  }

  // ---- hedge goroutines ----

  ghost predicate HedgeEnabled(cfg: Config, s: State, j: nat, step: HedgeStep)
    requires cfg.Valid()
  {
    && j < |s.hedges| && s.hedges[j].target < |cfg.Hedgeable()|
    && var pc := s.hedges[j].pc;
       match step
       case HedgeCall => pc.HStarting?
       case HedgeFails => pc.HInAdapter?
       case HedgeReturns(q) =>
         pc.HInAdapter? && (cfg.adaptersStamp ==> q.carrierID == cfg.Hedgeable()[s.hedges[j].target].carrier.id)
       case HedgeSend => pc.HSending? && (s.closed || HasRoom(cfg, s))
       case HedgeDrop => pc.HSending? && HedgeCtxDone(s)
  }

  ghost function HedgeNext(cfg: Config, s: State, j: nat, step: HedgeStep): Hedge
    requires cfg.Valid() && HedgeEnabled(cfg, s, j, step)
  {
    var h := s.hedges[j];
    match step
    case HedgeCall => h.(pc := HInAdapter)
    case HedgeFails => h.(pc := HExited)
    case HedgeReturns(q) => h.(pc := HSending(q.(isHedged := true)))
    case HedgeSend => h.(pc := HExited, delivered := Some(h.pc.q))
    case HedgeDrop => h.(pc := HExited)
  }

  ghost function ApplyHedge(cfg: Config, s: State, j: nat, step: HedgeStep): State
    requires cfg.Valid() && HedgeEnabled(cfg, s, j, step)
  {
    if step.HedgeSend? && s.closed then s.(panicked := true)
    else
      s.(hedges := s.hedges[j := HedgeNext(cfg, s, j, step)],
         buffer := if step.HedgeSend? then s.buffer + [s.hedges[j].pc.q] else s.buffer,
         calls := if step.HedgeCall? then s.calls + [cfg.Hedgeable()[s.hedges[j].target].carrier.id] else s.calls)
  }

  // ---- closer, main goroutine, clock ----

  ghost predicate CloserEnabled(s: State, step: CloserStep) {
    match step
    case GroupFinished => s.closer.AwaitGroup? && AllExited(s)
    case CancelHedging => s.closer.CancelHedges?
    case MonitorFinished => s.closer.AwaitMonitor? && s.monitor.Stopped?
    case Close => s.closer.Closing?
  }

  ghost function ApplyCloser(s: State, step: CloserStep): State
    requires CloserEnabled(s, step)
  {
    s.(closer := (match step
                  case GroupFinished => CancelHedges
                  case CancelHedging => AwaitMonitor
                  case MonitorFinished => Closing
                  case Close => Finished),
       groupDone := s.groupDone || step.GroupFinished?,
       hedgeCancelled := s.hedgeCancelled || step.CancelHedging?,
       closed := s.closed || step.Close?,
       closes := if step.Close? then s.closes + 1 else s.closes,
       panicked := s.panicked || (step.Close? && s.closed))
  }

  ghost predicate MainEnabled(cfg: Config, s: State, step: MainStep) {
    match step
    case Launch => s.main.Launching? && (s.main.next < |cfg.eligible| ==> s.main.next < |s.primaries|)
    case Receive => s.main.Collecting? && s.buffer != []
    case Return(answer) => s.main.Collecting? && s.closed && s.buffer == [] && IsSortOf(answer, s.collected)
  }

  /** Launching starts primary next, or, after the last one, the closer. */
  predicate LaunchesPrimary(cfg: Config, s: State, step: MainStep) {
    step.Launch? && s.main.Launching? && s.main.next < |cfg.eligible|
  }

  predicate KeepsReceived(s: State, step: MainStep) {
    step.Receive? && s.buffer != [] && s.buffer[0].carrierID !in s.seen
  }

  ghost function ApplyMain(cfg: Config, s: State, step: MainStep): State
    requires MainEnabled(cfg, s, step)
  {
    var launches, keeps := LaunchesPrimary(cfg, s, step), KeepsReceived(s, step);
    s.(main := (match step
                case Launch => if launches then Launching(s.main.next + 1) else Collecting
                case Receive => Collecting
                case Return(answer) => Returned(answer)),
       primaries := if launches then s.primaries[s.main.next := s.primaries[s.main.next].(pc := Looking)]
                    else s.primaries,
       closer := if step.Launch? && !launches then AwaitGroup else s.closer,
       buffer := if step.Receive? then s.buffer[1..] else s.buffer,
       arrivals := if step.Receive? then s.arrivals + [s.buffer[0]] else s.arrivals,
       seen := if keeps then s.seen + {s.buffer[0].carrierID} else s.seen,
       collected := if keeps then s.collected + [s.buffer[0]] else s.collected)
  }

  ghost predicate ClockEnabled(cfg: Config, s: State, step: ClockStep) {
    && !s.main.Returned?
    && match step
       case Advance(tick) => s.clock < cfg.deadline && (tick ==> s.clock + 1 >= cfg.firstTick)
       case CancelRequest => !s.requestDone
  }

  ghost function ApplyClock(cfg: Config, s: State, step: ClockStep): State
    requires ClockEnabled(cfg, s, step)
  {
    match step
    case Advance(tick) =>
      s.(clock := s.clock + 1, tick := s.tick || tick, requestDone := s.requestDone || s.clock + 1 >= cfg.deadline)
    case CancelRequest => s.(requestDone := true)
  }

  // ---- the whole system ----

  ghost predicate Enabled(cfg: Config, s: State, step: Step)
    requires cfg.Valid()
  {
    && !s.panicked
    && match step
       case Primary(i, p) => PrimaryEnabled(cfg, s, i, p)
       case Monitor(m) => MonitorEnabled(cfg, s, m)
       case Hedger(j, h) => HedgeEnabled(cfg, s, j, h)
       case Closer(c) => CloserEnabled(s, c)
       case Main(n) => MainEnabled(cfg, s, n)
       case Clock(k) => ClockEnabled(cfg, s, k)
  }

  ghost function Apply(cfg: Config, s: State, step: Step): State
    requires cfg.Valid() && Enabled(cfg, s, step)
  {
    match step
    case Primary(i, p) => ApplyPrimary(cfg, s, i, p)
    case Monitor(m) => ApplyMonitor(cfg, s, m)
    case Hedger(j, h) => ApplyHedge(cfg, s, j, h)
    case Closer(c) => ApplyCloser(s, c)
    case Main(n) => ApplyMain(cfg, s, n)
    case Clock(k) => ApplyClock(cfg, s, k)
  }

  ghost predicate ValidRun(cfg: Config, s: State, run: seq<Step>)
    requires cfg.Valid()
    decreases |run|
  {
    run == [] || (Enabled(cfg, s, run[0]) && ValidRun(cfg, Apply(cfg, s, run[0]), run[1..]))
  }

  ghost function Exec(cfg: Config, s: State, run: seq<Step>): State
    requires cfg.Valid() && ValidRun(cfg, s, run)
    decreases |run|
  {
    if run == [] then s else Exec(cfg, Apply(cfg, s, run[0]), run[1..])
  }

  ghost predicate Reachable(cfg: Config, s: State)
    requires cfg.Valid()
  {
    exists clock, run :: ValidRun(cfg, Init(cfg, clock), run) && s == Exec(cfg, Init(cfg, clock), run)
  }
}
