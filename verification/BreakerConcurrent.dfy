/** Any number of goroutines inside Execute at once, one atomic load, swap, add or
    store per step, and every clock reading a step of its own. The scheduler picks the
    goroutine; the environment picks how the guarded function ends and what the clock
    reads. */
module BreakerConcurrent {
  import opened Domain
  import opened BreakerHistory
  import opened Breaker

  /** Program counters, named after the access that comes next. */
  datatype Pc =
    | Idle
    | LoadState
    | LoadStamp
    | CompareTimeout(o: int)    // openedAt loaded, clock not yet read
    | SwapOpenToHalf
    | RecordOpenToHalf
    | GaugeHalfOpen
    | TakeSlot
    // holding the half-open slot
    | InProbe
    | SwapHalfToOpen
    | StampReopen
    | StoreReopen(t: int)       // clock read, openedAt not yet stored
    | ClearSuccesses
    | RecordHalfToOpen
    | GaugeReopened
    | AddSuccess
    | SwapHalfToClosed(earnedAt: nat)
    | ClearFailures
    | ClearSuccessesToo
    | RecordHalfToClosed
    | GaugeClosed
    | FreeSlot(v: Verdict)
    // in the Closed state's path
    | InFn
    | AddFailure
    | SwapClosedToOpen(at: nat)
    | StampTrip
    | StoreTrip(t: int)         // clock read, openedAt not yet stored
    | RecordClosedToOpen
    | GaugeOpened
    | StoreZeroFailures
    | Done(v: Verdict)

  datatype Goroutine = Goroutine(
    pc: Pc,
    loaded: CBState,            // history: the state it loaded
    passed: Option<bool>,       // history: whether it passed the timeout check, if it made it
    refused: bool,              // history: whether it found the slot taken
    wonIn: CBState,             // history: the state when it took the slot
    ran: Option<FnOutcome>,     // history: how the function ended in this Execute
    calls: nat)                 // history: function calls in this Execute

  /** History of a counter: who added one, and when it was reset. */
  datatype CounterEvent = Added(g: nat) | Reset

  /** History: a swap won by g, whose own addition is event number at of the counter. */
  datatype Win = Win(g: nat, at: nat)

  datatype Tally = Tally(closedOpen: nat, openHalf: nat, halfOpen: nat, halfClosed: nat)

  /** The atomics, and the history of what was done to them. */
  datatype Memory = Memory(
    state: CBState,
    failures: int,
    successes: int,
    inFlight: int,
    openedAt: int,
    gauge: CBState,             // last value given to SetCBState
    swaps: Tally,               // history: swaps won
    recorded: Tally,            // RecordCBTransition calls
    failureLog: seq<CounterEvent>,
    successLog: seq<CounterEvent>,
    trips: seq<Win>,            // Closed to Open
    closings: seq<Win>)         // HalfOpen to Closed

  datatype State = State(m: Memory, gs: seq<Goroutine>)

  /** One step of goroutine g. */
  datatype Step = Step(g: nat, fn: FnOutcome, now: int)

  const FRESH := Goroutine(Idle, Closed, None, false, Closed, None, 0)

  function Init(goroutines: nat): State {
    State(Memory(Closed, 0, 0, 0, 0, Closed, Tally(0, 0, 0, 0), Tally(0, 0, 0, 0), [], [], [], []),
          seq(goroutines, i => FRESH))
  }

  function Trailing(log: seq<CounterEvent>): nat {
    if log == [] || log[|log| - 1].Reset? then 0 else 1 + Trailing(log[..|log| - 1])
  }

  /** Between winning the slot and the deferred store that gives it back. */
  predicate Holds(pc: Pc) {
    pc.InProbe? || pc.SwapHalfToOpen? || pc.StampReopen? || pc.StoreReopen? || pc.ClearSuccesses?
    || pc.RecordHalfToOpen? || pc.GaugeReopened? || pc.AddSuccess? || pc.SwapHalfToClosed? || pc.ClearFailures?
    || pc.ClearSuccessesToo? || pc.RecordHalfToClosed? || pc.GaugeClosed? || pc.FreeSlot?
  }

  /** Holding the slot, own transition still to come. */
  predicate BeforeOwnSwap(pc: Pc) {
    pc.InProbe? || pc.SwapHalfToOpen? || pc.AddSuccess? || pc.SwapHalfToClosed?
  }

  /** The access a goroutine at pc makes, and where it goes next. */
  function Access(l: Limits, m: Memory, g: nat, pc: Pc, fn: FnOutcome, now: int): (Memory, Pc) {
    match pc
    case Idle => (m, LoadState)
    case LoadState =>
      (m, match m.state case Open => LoadStamp case HalfOpen => TakeSlot case Closed => InFn)
    case LoadStamp => (m, CompareTimeout(m.openedAt))
    case CompareTimeout(o) => (m, if now - o < l.openTimeout then Done(Rejected) else SwapOpenToHalf)
    case SwapOpenToHalf =>
      if m.state == Open
      then (m.(state := HalfOpen, swaps := m.swaps.(openHalf := m.swaps.openHalf + 1)), RecordOpenToHalf)
      else (m, TakeSlot)
    case RecordOpenToHalf =>
      (m.(recorded := m.recorded.(openHalf := m.recorded.openHalf + 1)), GaugeHalfOpen)
    case GaugeHalfOpen => (m.(gauge := HalfOpen), TakeSlot)
    case TakeSlot =>
      if m.inFlight == 0 then (m.(inFlight := 1), InProbe) else (m, Done(Rejected))
    case InProbe =>
      (m, match fn case Fails => SwapHalfToOpen case Succeeds => AddSuccess case Panics => FreeSlot(Panicked))
    case SwapHalfToOpen =>
      if m.state == HalfOpen
      then (m.(state := Open, swaps := m.swaps.(halfOpen := m.swaps.halfOpen + 1)), StampReopen)
      else (m, FreeSlot(ReturnedError))
    case StampReopen => (m, StoreReopen(now))
    case StoreReopen(t) => (m.(openedAt := t), ClearSuccesses)
    case ClearSuccesses => (m.(successes := 0, successLog := m.successLog + [Reset]), RecordHalfToOpen)
    case RecordHalfToOpen =>
      (m.(recorded := m.recorded.(halfOpen := m.recorded.halfOpen + 1)), GaugeReopened)
    case GaugeReopened => (m.(gauge := Open), FreeSlot(ReturnedError))
    case AddSuccess =>
      (m.(successes := m.successes + 1, successLog := m.successLog + [Added(g)]),
       if m.successes + 1 >= l.successThreshold then SwapHalfToClosed(|m.successLog|) else FreeSlot(ReturnedNil))
    case SwapHalfToClosed(at) =>
      if m.state == HalfOpen
      then (m.(state := Closed, swaps := m.swaps.(halfClosed := m.swaps.halfClosed + 1),
               closings := m.closings + [Win(g, at)]), ClearFailures)
      else (m, FreeSlot(ReturnedNil))
    case ClearFailures => (m.(failures := 0, failureLog := m.failureLog + [Reset]), ClearSuccessesToo)
    case ClearSuccessesToo => (m.(successes := 0, successLog := m.successLog + [Reset]), RecordHalfToClosed)
    case RecordHalfToClosed =>
      (m.(recorded := m.recorded.(halfClosed := m.recorded.halfClosed + 1)), GaugeClosed)
    case GaugeClosed => (m.(gauge := Closed), FreeSlot(ReturnedNil))
    case FreeSlot(v) => (m.(inFlight := 0), Done(v))
    case InFn =>
      (m, match fn case Fails => AddFailure case Succeeds => StoreZeroFailures case Panics => Done(Panicked))
    case AddFailure =>
      (m.(failures := m.failures + 1, failureLog := m.failureLog + [Added(g)]),
       if m.failures + 1 >= l.failureThreshold then SwapClosedToOpen(|m.failureLog|) else Done(ReturnedError))
    case SwapClosedToOpen(at) =>
      if m.state == Closed
      then (m.(state := Open, swaps := m.swaps.(closedOpen := m.swaps.closedOpen + 1),
               trips := m.trips + [Win(g, at)]), StampTrip)
      else (m, Done(ReturnedError))
    case StampTrip => (m, StoreTrip(now))
    case StoreTrip(t) => (m.(openedAt := t), RecordClosedToOpen)
    case RecordClosedToOpen =>
      (m.(recorded := m.recorded.(closedOpen := m.recorded.closedOpen + 1)), GaugeOpened)
    case GaugeOpened => (m.(gauge := Open), Done(ReturnedError))
    case StoreZeroFailures => (m.(failures := 0, failureLog := m.failureLog + [Reset]), Done(ReturnedNil))
    case Done(_) => (m, Idle)
  }

  /** The goroutine's own history of its present call. */
  function Remember(l: Limits, g: Goroutine, m: Memory, pc: Pc, fn: FnOutcome, now: int): Goroutine {
    match g.pc
    case Idle => FRESH.(pc := pc)
    case LoadState => g.(pc := pc, loaded := m.state)
    case CompareTimeout(o) => g.(pc := pc, passed := Some(now - o >= l.openTimeout))
    case TakeSlot => g.(pc := pc, refused := m.inFlight != 0, wonIn := m.state)
    case InProbe => g.(pc := pc, ran := Some(fn), calls := g.calls + 1)
    case InFn => g.(pc := pc, ran := Some(fn), calls := g.calls + 1)
    case _ => g.(pc := pc)
  }

  function Apply(l: Limits, s: State, step: Step): State
    requires step.g < |s.gs|
  {
    var me := s.gs[step.g];
    var (m, pc) := Access(l, s.m, step.g, me.pc, step.fn, step.now);
    State(m, s.gs[step.g := Remember(l, me, s.m, pc, step.fn, step.now)])
  }

  predicate ValidRun(s: State, run: seq<Step>) {
    forall step :: step in run ==> step.g < |s.gs|
  }

  ghost function Exec(l: Limits, s: State, run: seq<Step>): (t: State)
    requires ValidRun(s, run)
    ensures |t.gs| == |s.gs|
    decreases |run|
  {
    if run == [] then s
    else
      assert run[0] in run;
      Exec(l, Apply(l, s, run[0]), run[1..])
  }

  // ---- the half-open slot ----

  ghost predicate SlotInv(s: State) {
    && (s.m.inFlight == 0 || s.m.inFlight == 1)
    && (s.m.inFlight == 1 ==> exists g :: 0 <= g < |s.gs| && Holds(s.gs[g].pc))
    && (forall g :: 0 <= g < |s.gs| && Holds(s.gs[g].pc) ==> s.m.inFlight == 1)
    && (forall g, h :: 0 <= g < |s.gs| && 0 <= h < |s.gs| && Holds(s.gs[g].pc) && Holds(s.gs[h].pc) ==> g == h)
  }

  ghost predicate HalfOpenInv(s: State) {
    forall g :: 0 <= g < |s.gs| && BeforeOwnSwap(s.gs[g].pc) && s.gs[g].wonIn == HalfOpen ==> s.m.state == HalfOpen
  }

  /** How one access moves the slot. */
  lemma {:induction false} AccessMovesSlot(l: Limits, m: Memory, g: nat, pc: Pc, fn: FnOutcome, now: int)
    ensures var (m', pc') := Access(l, m, g, pc, fn, now);
            && (Holds(pc') == Holds(pc) ==> m'.inFlight == m.inFlight)
            && (!Holds(pc) && Holds(pc') ==> m.inFlight == 0 && m'.inFlight == 1)
            && (Holds(pc) && !Holds(pc') ==> m'.inFlight == 0)
  {
  }

  lemma {:induction false} StepKeepsSlot(l: Limits, s: State, step: Step)
    requires step.g < |s.gs| && SlotInv(s)
    ensures SlotInv(Apply(l, s, step))
  {
    AccessMovesSlot(l, s.m, step.g, s.gs[step.g].pc, step.fn, step.now);
    RememberKeepsPc(l, s, step);
    SlotMoves(s, Apply(l, s, step), step.g);
  }

  /** What the other lemmas need of the history: it never touches the program counter. */
  lemma {:induction false} RememberKeepsPc(l: Limits, s: State, step: Step)
    requires step.g < |s.gs|
    ensures var t, me := Apply(l, s, step), s.gs[step.g];
            var (m, pc) := Access(l, s.m, step.g, me.pc, step.fn, step.now);
            && t.m == m && t.gs[step.g].pc == pc
            && |t.gs| == |s.gs|
            && (forall h :: 0 <= h < |s.gs| && h != step.g ==> t.gs[h] == s.gs[h])
            && t.gs[step.g].wonIn == (if me.pc.Idle? then Closed else if me.pc.TakeSlot? then s.m.state else me.wonIn)
  {
  }

  lemma {:induction false} SlotMoves(s: State, t: State, g: nat)
    requires SlotInv(s) && g < |s.gs| == |t.gs|
    requires forall h :: 0 <= h < |s.gs| && h != g ==> t.gs[h] == s.gs[h]
    requires Holds(t.gs[g].pc) == Holds(s.gs[g].pc) ==> t.m.inFlight == s.m.inFlight
    requires !Holds(s.gs[g].pc) && Holds(t.gs[g].pc) ==> s.m.inFlight == 0 && t.m.inFlight == 1
    requires Holds(s.gs[g].pc) && !Holds(t.gs[g].pc) ==> t.m.inFlight == 0
    ensures SlotInv(t)
  {
    if t.m.inFlight == 1 && !Holds(t.gs[g].pc) {
      var h :| 0 <= h < |s.gs| && Holds(s.gs[h].pc);
      assert t.gs[h] == s.gs[h];
    }
  }

  /** HalfOpen is left only by a slot holder's own swap. */
  lemma {:induction false} AccessMovesState(l: Limits, m: Memory, g: nat, pc: Pc, fn: FnOutcome, now: int)
    ensures var (m', pc') := Access(l, m, g, pc, fn, now);
            && (m.state == HalfOpen && m'.state != HalfOpen ==> Holds(pc) && !BeforeOwnSwap(pc'))
            && (BeforeOwnSwap(pc') ==> m'.state == m.state && (BeforeOwnSwap(pc) || pc.TakeSlot?))
  {
  }

  lemma {:induction false} StepKeepsHalfOpen(l: Limits, s: State, step: Step)
    requires step.g < |s.gs| && SlotInv(s) && HalfOpenInv(s)
    ensures HalfOpenInv(Apply(l, s, step))
  {
    var t, g := Apply(l, s, step), step.g;
    AccessMovesState(l, s.m, g, s.gs[g].pc, step.fn, step.now);
    RememberKeepsPc(l, s, step);
    forall h | 0 <= h < |t.gs| && BeforeOwnSwap(t.gs[h].pc) && t.gs[h].wonIn == HalfOpen
      ensures t.m.state == HalfOpen
    {
      if h != g {
        assert t.gs[h] == s.gs[h] && Holds(s.gs[h].pc);
      }
    }
  }

  // ---- conservation of transitions ----

  ghost predicate Conserved(m: Memory) {
    && m.swaps.closedOpen - m.swaps.halfClosed == (if m.state == Closed then 0 else 1)
    && m.swaps.openHalf - m.swaps.halfOpen - m.swaps.halfClosed == (if m.state == HalfOpen then 1 else 0)
  }

  datatype Kind = ClosedToOpen | OpenToHalf | HalfToOpen | HalfToClosed

  /** Swap won, record still to come. */
  predicate InTransit(pc: Pc, k: Kind) {
    match k
    case ClosedToOpen => pc.StampTrip? || pc.StoreTrip? || pc.RecordClosedToOpen?
    case OpenToHalf => pc.RecordOpenToHalf?
    case HalfToOpen => pc.StampReopen? || pc.StoreReopen? || pc.ClearSuccesses? || pc.RecordHalfToOpen?
    case HalfToClosed => pc.ClearFailures? || pc.ClearSuccessesToo? || pc.RecordHalfToClosed?
  }

  function Get(t: Tally, k: Kind): nat {
    match k
    case ClosedToOpen => t.closedOpen
    case OpenToHalf => t.openHalf
    case HalfToOpen => t.halfOpen
    case HalfToClosed => t.halfClosed
  }

  function Count(gs: seq<Goroutine>, k: Kind): nat {
    if gs == [] then 0
    else Count(gs[..|gs| - 1], k) + if InTransit(gs[|gs| - 1].pc, k) then 1 else 0
  }

  lemma {:induction false} CountUpdate(gs: seq<Goroutine>, i: nat, g: Goroutine, k: Kind)
    requires i < |gs|
    ensures Count(gs[i := g], k) ==
            Count(gs, k) - (if InTransit(gs[i].pc, k) then 1 else 0) + (if InTransit(g.pc, k) then 1 else 0)
    decreases |gs|
  {
    var n := |gs| - 1;
    if i == n {
      assert gs[i := g][..n] == gs[..n];
    } else {
      assert gs[i := g][..n] == gs[..n][i := g];
      CountUpdate(gs[..n], i, g, k);
    }
  }

  ghost predicate Recorded(s: State) {
    forall k: Kind :: Get(s.m.recorded, k) + Count(s.gs, k) == Get(s.m.swaps, k)
  }

  lemma {:induction false} AccessConserves(l: Limits, m: Memory, g: nat, pc: Pc, fn: FnOutcome, now: int)
    requires Conserved(m)
    ensures Conserved(Access(l, m, g, pc, fn, now).0)
  {
  }

  ghost predicate Balanced(m: Memory, pc: Pc, after: (Memory, Pc), k: Kind) {
    Get(after.0.recorded, k) + (if InTransit(after.1, k) then 1 else 0) + Get(m.swaps, k)
    == Get(m.recorded, k) + (if InTransit(pc, k) then 1 else 0) + Get(after.0.swaps, k)
  }

  lemma {:induction false} TripsBalance(l: Limits, m: Memory, g: nat, pc: Pc, fn: FnOutcome, now: int)
    ensures Balanced(m, pc, Access(l, m, g, pc, fn, now), ClosedToOpen)
  {
  }

  lemma {:induction false} ProbesBalance(l: Limits, m: Memory, g: nat, pc: Pc, fn: FnOutcome, now: int)
    ensures Balanced(m, pc, Access(l, m, g, pc, fn, now), OpenToHalf)
  {
  }

  lemma {:induction false} ReopeningsBalance(l: Limits, m: Memory, g: nat, pc: Pc, fn: FnOutcome, now: int)
    ensures Balanced(m, pc, Access(l, m, g, pc, fn, now), HalfToOpen)
  {
  }

  lemma {:induction false} ClosingsBalance(l: Limits, m: Memory, g: nat, pc: Pc, fn: FnOutcome, now: int)
    ensures Balanced(m, pc, Access(l, m, g, pc, fn, now), HalfToClosed)
  {
  }

  /** What an access adds to the true count of a transition, it adds to the reported
      count or to the goroutines in between. */
  lemma {:induction false} AccessBalances(l: Limits, m: Memory, g: nat, pc: Pc, fn: FnOutcome, now: int, k: Kind)
    ensures Balanced(m, pc, Access(l, m, g, pc, fn, now), k)
  {
    match k
    case ClosedToOpen => TripsBalance(l, m, g, pc, fn, now);
    case OpenToHalf => ProbesBalance(l, m, g, pc, fn, now);
    case HalfToOpen => ReopeningsBalance(l, m, g, pc, fn, now);
    case HalfToClosed => ClosingsBalance(l, m, g, pc, fn, now);
  }

  lemma {:induction false} StepKeepsRecorded(l: Limits, s: State, step: Step)
    requires step.g < |s.gs| && Recorded(s)
    ensures Recorded(Apply(l, s, step))
  {
    var t, g := Apply(l, s, step), step.g;
    RememberKeepsPc(l, s, step);
    forall k: Kind ensures Get(t.m.recorded, k) + Count(t.gs, k) == Get(t.m.swaps, k) {
      AccessBalances(l, s.m, g, s.gs[g].pc, step.fn, step.now, k);
      CountMoves(s.gs, t.gs, g, k);
      assert Get(s.m.recorded, k) + Count(s.gs, k) == Get(s.m.swaps, k);
    }
  }

  lemma {:induction false} CountMoves(before: seq<Goroutine>, after: seq<Goroutine>, g: nat, k: Kind)
    requires g < |before| == |after|
    requires forall h :: 0 <= h < |before| && h != g ==> after[h] == before[h]
    ensures Count(after, k) + (if InTransit(before[g].pc, k) then 1 else 0)
         == Count(before, k) + (if InTransit(after[g].pc, k) then 1 else 0)
  {
    assert after == before[g := after[g]];
    CountUpdate(before, g, after[g], k);
  }

  // ---- every trip and every closing is earned ----

  /** The event at position at is g's own addition and closes a run of at least
      threshold additions with no reset among them. */
  ghost predicate Earned(threshold: int, log: seq<CounterEvent>, g: nat, at: nat) {
    at < |log| && log[at] == Added(g) && Trailing(log[..at + 1]) >= threshold
  }

  ghost predicate AllEarned(threshold: int, log: seq<CounterEvent>, wins: seq<Win>) {
    forall i :: 0 <= i < |wins| ==> Earned(threshold, log, wins[i].g, wins[i].at)
  }

  ghost predicate TripInv(l: Limits, s: State) {
    && s.m.failures == Trailing(s.m.failureLog)
    && (forall g :: 0 <= g < |s.gs| && s.gs[g].pc.SwapClosedToOpen? ==>
          Earned(l.failureThreshold, s.m.failureLog, g, s.gs[g].pc.at))
    && AllEarned(l.failureThreshold, s.m.failureLog, s.m.trips)
    && |s.m.trips| == s.m.swaps.closedOpen
  }

  ghost predicate ClosingInv(l: Limits, s: State) {
    && s.m.successes == Trailing(s.m.successLog)
    && (forall g :: 0 <= g < |s.gs| && s.gs[g].pc.SwapHalfToClosed? ==>
          Earned(l.successThreshold, s.m.successLog, g, s.gs[g].pc.earnedAt))
    && AllEarned(l.successThreshold, s.m.successLog, s.m.closings)
    && |s.m.closings| == s.m.swaps.halfClosed
  }

  /** A counter and its history move together. */
  ghost predicate CounterMoves(
    g: nat, log: seq<CounterEvent>, count: int, log': seq<CounterEvent>, count': int)
  {
    || (log' == log && count' == count)
    || (log' == log + [Reset] && count' == 0)
    || (log' == log + [Added(g)] && count' == count + 1)
  }

  lemma {:induction false} EarnedLater(
    threshold: int, g: nat, log: seq<CounterEvent>, count: int, log': seq<CounterEvent>, count': int, w: Win)
    requires CounterMoves(g, log, count, log', count')
    requires Earned(threshold, log, w.g, w.at)
    ensures Earned(threshold, log', w.g, w.at)
  {
    assert log'[..w.at + 1] == log[..w.at + 1];
  }

  lemma {:induction false} CounterFollowsLog(
    g: nat, log: seq<CounterEvent>, count: int, log': seq<CounterEvent>, count': int)
    requires CounterMoves(g, log, count, log', count') && count == Trailing(log)
    ensures count' == Trailing(log')
  {
    assert log' != log ==> log'[..|log|] == log;
  }

  /** How one access moves the failure counter, its history, and the trips. */
  lemma {:induction false} AccessMovesFailures(l: Limits, m: Memory, g: nat, pc: Pc, fn: FnOutcome, now: int)
    ensures var (m', pc') := Access(l, m, g, pc, fn, now);
            && CounterMoves(g, m.failureLog, m.failures, m'.failureLog, m'.failures)
            && (pc'.SwapClosedToOpen? ==>
                  m'.failureLog == m.failureLog + [Added(g)] && pc'.at == |m.failureLog|
                  && m'.failures >= l.failureThreshold)
            && (if m'.trips == m.trips then m'.swaps.closedOpen == m.swaps.closedOpen
                else pc.SwapClosedToOpen? && m'.trips == m.trips + [Win(g, pc.at)]
                     && m'.swaps.closedOpen == m.swaps.closedOpen + 1)
  {
  }

  /** How one access moves the success counter, its history, and the closings. */
  lemma {:induction false} AccessMovesSuccesses(l: Limits, m: Memory, g: nat, pc: Pc, fn: FnOutcome, now: int)
    ensures var (m', pc') := Access(l, m, g, pc, fn, now);
            && CounterMoves(g, m.successLog, m.successes, m'.successLog, m'.successes)
            && (pc'.SwapHalfToClosed? ==>
                  m'.successLog == m.successLog + [Added(g)] && pc'.earnedAt == |m.successLog|
                  && m'.successes >= l.successThreshold)
            && (if m'.closings == m.closings then m'.swaps.halfClosed == m.swaps.halfClosed
                else pc.SwapHalfToClosed? && m'.closings == m.closings + [Win(g, pc.earnedAt)]
                     && m'.swaps.halfClosed == m.swaps.halfClosed + 1)
  {
  }

  lemma {:induction false} WinsStayEarned(
    threshold: int, g: nat, log: seq<CounterEvent>, count: int, log': seq<CounterEvent>, count': int,
    wins: seq<Win>, wins': seq<Win>, at: nat)
    requires CounterMoves(g, log, count, log', count') && AllEarned(threshold, log, wins)
    requires wins' == wins || (wins' == wins + [Win(g, at)] && Earned(threshold, log, g, at))
    ensures AllEarned(threshold, log', wins')
  {
    forall i | 0 <= i < |wins'| ensures Earned(threshold, log', wins'[i].g, wins'[i].at) {
      EarnedLater(threshold, g, log, count, log', count', wins'[i]);
    }
  }

  /** A goroutine about to swap on a counter has just made it reach the threshold. */
  lemma {:induction false} JustEarned(
    threshold: int, g: nat, log: seq<CounterEvent>, log': seq<CounterEvent>, count': int)
    requires log' == log + [Added(g)] && count' == Trailing(log') && count' >= threshold
    ensures Earned(threshold, log', g, |log|)
  {
    assert log'[..|log| + 1] == log';
  }

  lemma {:induction false} StepKeepsTrips(l: Limits, s: State, step: Step)
    requires step.g < |s.gs| && TripInv(l, s)
    ensures TripInv(l, Apply(l, s, step))
  {
    var t, g, pc := Apply(l, s, step), step.g, s.gs[step.g].pc;
    AccessMovesFailures(l, s.m, g, pc, step.fn, step.now);
    RememberKeepsPc(l, s, step);
    TripsMove(l, s, t, g);
  }

  lemma {:induction false} TripsMove(l: Limits, s: State, t: State, g: nat)
    requires TripInv(l, s) && g < |s.gs| == |t.gs|
    requires forall h :: 0 <= h < |s.gs| && h != g ==> t.gs[h] == s.gs[h]
    requires CounterMoves(g, s.m.failureLog, s.m.failures, t.m.failureLog, t.m.failures)
    requires t.gs[g].pc.SwapClosedToOpen? ==>
               t.m.failureLog == s.m.failureLog + [Added(g)] && t.gs[g].pc.at == |s.m.failureLog|
               && t.m.failures >= l.failureThreshold
    requires if t.m.trips == s.m.trips then t.m.swaps.closedOpen == s.m.swaps.closedOpen
             else s.gs[g].pc.SwapClosedToOpen? && t.m.trips == s.m.trips + [Win(g, s.gs[g].pc.at)]
                  && t.m.swaps.closedOpen == s.m.swaps.closedOpen + 1
    ensures TripInv(l, t)
  {
    CounterFollowsLog(g, s.m.failureLog, s.m.failures, t.m.failureLog, t.m.failures);
    WinsStayEarned(l.failureThreshold, g, s.m.failureLog, s.m.failures, t.m.failureLog, t.m.failures,
                   s.m.trips, t.m.trips, if s.gs[g].pc.SwapClosedToOpen? then s.gs[g].pc.at else 0);
    forall h | 0 <= h < |t.gs| && t.gs[h].pc.SwapClosedToOpen?
      ensures Earned(l.failureThreshold, t.m.failureLog, h, t.gs[h].pc.at)
    {
      if h == g {
        JustEarned(l.failureThreshold, g, s.m.failureLog, t.m.failureLog, t.m.failures);
      } else {
        EarnedLater(l.failureThreshold, g, s.m.failureLog, s.m.failures, t.m.failureLog, t.m.failures,
                    Win(h, s.gs[h].pc.at));
      }
    }
  }

  lemma {:induction false} StepKeepsClosings(l: Limits, s: State, step: Step)
    requires step.g < |s.gs| && ClosingInv(l, s)
    ensures ClosingInv(l, Apply(l, s, step))
  {
    var t, g, pc := Apply(l, s, step), step.g, s.gs[step.g].pc;
    AccessMovesSuccesses(l, s.m, g, pc, step.fn, step.now);
    RememberKeepsPc(l, s, step);
    ClosingsMove(l, s, t, g);
  }

  lemma {:induction false} ClosingsMove(l: Limits, s: State, t: State, g: nat)
    requires ClosingInv(l, s) && g < |s.gs| == |t.gs|
    requires forall h :: 0 <= h < |s.gs| && h != g ==> t.gs[h] == s.gs[h]
    requires CounterMoves(g, s.m.successLog, s.m.successes, t.m.successLog, t.m.successes)
    requires t.gs[g].pc.SwapHalfToClosed? ==>
               t.m.successLog == s.m.successLog + [Added(g)] && t.gs[g].pc.earnedAt == |s.m.successLog|
               && t.m.successes >= l.successThreshold
    requires if t.m.closings == s.m.closings then t.m.swaps.halfClosed == s.m.swaps.halfClosed
             else s.gs[g].pc.SwapHalfToClosed? && t.m.closings == s.m.closings + [Win(g, s.gs[g].pc.earnedAt)]
                  && t.m.swaps.halfClosed == s.m.swaps.halfClosed + 1
    ensures ClosingInv(l, t)
  {
    CounterFollowsLog(g, s.m.successLog, s.m.successes, t.m.successLog, t.m.successes);
    WinsStayEarned(l.successThreshold, g, s.m.successLog, s.m.successes, t.m.successLog, t.m.successes,
                   s.m.closings, t.m.closings, if s.gs[g].pc.SwapHalfToClosed? then s.gs[g].pc.earnedAt else 0);
    forall h | 0 <= h < |t.gs| && t.gs[h].pc.SwapHalfToClosed?
      ensures Earned(l.successThreshold, t.m.successLog, h, t.gs[h].pc.earnedAt)
    {
      if h == g {
        JustEarned(l.successThreshold, g, s.m.successLog, t.m.successLog, t.m.successes);
      } else {
        EarnedLater(l.successThreshold, g, s.m.successLog, s.m.successes, t.m.successLog, t.m.successes,
                    Win(h, s.gs[h].pc.earnedAt));
      }
    }
  }

  /** A trailing count of k means k additions in a row. */
  lemma {:induction false} TrailingIsConsecutive(log: seq<CounterEvent>, k: nat)
    requires Trailing(log) >= k
    ensures k <= |log| && forall i :: |log| - k <= i < |log| ==> log[i].Added?
  {
    if k > 0 {
      TrailingIsConsecutive(log[..|log| - 1], k - 1);
    }
  }

  /** log[at] is g's addition, and it ends a run of threshold additions with no reset. */
  ghost predicate EndsRun(log: seq<CounterEvent>, g: nat, at: nat, threshold: int) {
    && at < |log| && log[at] == Added(g) && threshold <= at + 1
    && forall j :: at + 1 - threshold <= j <= at ==> log[j].Added?
  }

  lemma {:induction false} EarnedEndsRun(threshold: nat, log: seq<CounterEvent>, g: nat, at: nat)
    requires Earned(threshold, log, g, at)
    ensures EndsRun(log, g, at, threshold)
  {
    TrailingIsConsecutive(log[..at + 1], threshold);
    forall j | at + 1 - threshold <= j <= at ensures log[j].Added? {
      assert log[..at + 1][j] == log[j];
    }
  }

  // ---- what Execute returns ----

  ghost predicate CallOk(g: Goroutine) {
    match g.pc
    case Idle => true
    case LoadState => g.calls == 0
    case LoadStamp => g.calls == 0
    case CompareTimeout(_) => g.calls == 0
    case SwapOpenToHalf => g.calls == 0
    case RecordOpenToHalf => g.calls == 0
    case GaugeHalfOpen => g.calls == 0
    case TakeSlot => g.calls == 0
    case InProbe => g.calls == 0
    case InFn => g.calls == 0
    case FreeSlot(v) => ResultOk(g, v)
    case Done(v) => ResultOk(g, v)
    case AddSuccess => ResultOk(g, ReturnedNil)
    case SwapHalfToClosed(_) => ResultOk(g, ReturnedNil)
    case ClearFailures => ResultOk(g, ReturnedNil)
    case ClearSuccessesToo => ResultOk(g, ReturnedNil)
    case RecordHalfToClosed => ResultOk(g, ReturnedNil)
    case GaugeClosed => ResultOk(g, ReturnedNil)
    case StoreZeroFailures => ResultOk(g, ReturnedNil)
    case _ => ResultOk(g, ReturnedError)
  }

  /** A refusal made no call; anything else made one, and reports how it ended. */
  ghost predicate ResultOk(g: Goroutine, v: Verdict) {
    if v == Rejected then g.calls == 0
    else g.calls == 1 && g.ran.Some? && v == VerdictOf(g.ran.value)
  }

  ghost predicate CallInv(s: State) {
    forall g :: 0 <= g < |s.gs| ==> CallOk(s.gs[g])
  }

  lemma {:induction false} AccessKeepsCall(l: Limits, m: Memory, g: nat, me: Goroutine, fn: FnOutcome, now: int)
    requires CallOk(me)
    ensures CallOk(Remember(l, me, m, Access(l, m, g, me.pc, fn, now).1, fn, now))
  {
  }

  lemma {:induction false} StepKeepsCalls(l: Limits, s: State, step: Step)
    requires step.g < |s.gs| && CallInv(s)
    ensures CallInv(Apply(l, s, step))
  {
    AccessKeepsCall(l, s.m, step.g, s.gs[step.g], step.fn, step.now);
  }

  // ---- which way a call may go ----

  /** The call may probe: it loaded HalfOpen, or Open and then passed the timeout check. */
  predicate MayProbe(g: Goroutine) {
    (g.loaded == HalfOpen && g.passed == None) || (g.loaded == Open && g.passed == Some(true))
  }

  predicate OnOpenPath(pc: Pc) { pc.LoadStamp? || pc.CompareTimeout? }

  predicate OnProbePath(pc: Pc) {
    pc.SwapOpenToHalf? || pc.RecordOpenToHalf? || pc.GaugeHalfOpen? || pc.TakeSlot? || Holds(pc)
  }

  predicate BeforeTheSlot(pc: Pc) {
    pc.Idle? || pc.LoadState? || OnOpenPath(pc) || (OnProbePath(pc) && !Holds(pc))
  }

  /** A call goes the way of the state it loaded: Closed to the function, Open to the
      timeout check, HalfOpen to the slot; and it is refused exactly if the check failed
      or the slot was taken. */
  ghost predicate PathOk(g: Goroutine) {
    match g.pc
    case Idle => true
    case LoadState => g.passed == None && !g.refused
    case Done(v) =>
      && (v == Rejected <==> g.passed == Some(false) || g.refused)
      && (g.refused ==> MayProbe(g))
      && (g.loaded == Closed ==> g.passed == None)
      && (g.loaded == Open ==> g.passed.Some?)
      && (g.loaded == HalfOpen ==> g.passed == None)
    case _ =>
      && !g.refused
      && (OnOpenPath(g.pc) ==> g.loaded == Open && g.passed == None)
      && (OnProbePath(g.pc) ==> MayProbe(g))
      && (!OnOpenPath(g.pc) && !OnProbePath(g.pc) ==> g.loaded == Closed && g.passed == None)
      && (g.pc.FreeSlot? ==> g.pc.v != Rejected)
  }

  ghost predicate PathInv(s: State) {
    forall g :: 0 <= g < |s.gs| ==> PathOk(s.gs[g])
  }

  lemma {:induction false} HolderKeepsPath(
    l: Limits, m: Memory, g: nat, me: Goroutine, fn: FnOutcome, now: int)
    requires PathOk(me) && Holds(me.pc)
    ensures PathOk(Remember(l, me, m, Access(l, m, g, me.pc, fn, now).1, fn, now))
  {
  }

  lemma {:induction false} ClosedCallKeepsPath(
    l: Limits, m: Memory, g: nat, me: Goroutine, fn: FnOutcome, now: int)
    requires PathOk(me) && !Holds(me.pc) && !BeforeTheSlot(me.pc)
    ensures PathOk(Remember(l, me, m, Access(l, m, g, me.pc, fn, now).1, fn, now))
  {
  }

  lemma {:induction false} CallerKeepsPath(
    l: Limits, m: Memory, g: nat, me: Goroutine, fn: FnOutcome, now: int)
    requires PathOk(me) && BeforeTheSlot(me.pc)
    ensures PathOk(Remember(l, me, m, Access(l, m, g, me.pc, fn, now).1, fn, now))
  {
  }

  lemma {:induction false} AccessKeepsPath(l: Limits, m: Memory, g: nat, me: Goroutine, fn: FnOutcome, now: int)
    requires PathOk(me)
    ensures PathOk(Remember(l, me, m, Access(l, m, g, me.pc, fn, now).1, fn, now))
  {
    if Holds(me.pc) {
      HolderKeepsPath(l, m, g, me, fn, now);
    } else if BeforeTheSlot(me.pc) {
      CallerKeepsPath(l, m, g, me, fn, now);
    } else {
      ClosedCallKeepsPath(l, m, g, me, fn, now);
    }
  }

  lemma {:induction false} StepKeepsPath(l: Limits, s: State, step: Step)
    requires step.g < |s.gs| && PathInv(s)
    ensures PathInv(Apply(l, s, step))
  {
    AccessKeepsPath(l, s.m, step.g, s.gs[step.g], step.fn, step.now);
  }

  // ---- all reachable states ----

  ghost predicate Inv(l: Limits, s: State) {
    SlotInv(s) && HalfOpenInv(s) && Conserved(s.m) && Recorded(s) && TripInv(l, s) && ClosingInv(l, s)
    && CallInv(s) && PathInv(s)
  }

  lemma {:induction false} CountFresh(n: nat, k: Kind)
    ensures Count(seq(n, i => FRESH), k) == 0
  {
    if n > 0 {
      assert seq(n, i => FRESH)[..n - 1] == seq(n - 1, i => FRESH);
      CountFresh(n - 1, k);
    }
  }

  lemma {:induction false} InitInv(l: Limits, goroutines: nat)
    ensures Inv(l, Init(goroutines))
  {
    forall k: Kind ensures Count(Init(goroutines).gs, k) == 0 {
      CountFresh(goroutines, k);
    }
  }

  lemma {:induction false} StepKeepsInv(l: Limits, s: State, step: Step)
    requires step.g < |s.gs| && Inv(l, s)
    ensures Inv(l, Apply(l, s, step))
  {
    StepKeepsSlot(l, s, step);
    StepKeepsHalfOpen(l, s, step);
    AccessConserves(l, s.m, step.g, s.gs[step.g].pc, step.fn, step.now);
    StepKeepsRecorded(l, s, step);
    StepKeepsTrips(l, s, step);
    StepKeepsClosings(l, s, step);
    StepKeepsCalls(l, s, step);
    StepKeepsPath(l, s, step);
  }

  lemma {:induction false} RunKeepsInv(l: Limits, s: State, run: seq<Step>)
    requires ValidRun(s, run) && Inv(l, s)
    ensures Inv(l, Exec(l, s, run))
    decreases |run|
  {
    if run != [] {
      assert run[0] in run;
      StepKeepsInv(l, s, run[0]);
      RunKeepsInv(l, Apply(l, s, run[0]), run[1..]);
    }
  }

  ghost predicate Reachable(l: Limits, s: State) {
    exists n: nat, run :: ValidRun(Init(n), run) && s == Exec(l, Init(n), run)
  }

  lemma {:induction false} ReachableInv(l: Limits, s: State)
    requires Reachable(l, s)
    ensures Inv(l, s)
  {
    var n: nat, run :| ValidRun(Init(n), run) && s == Exec(l, Init(n), run);
    InitInv(l, n);
    RunKeepsInv(l, Init(n), run);
  }

  // ---- the theorems ----

  /** halfOpenInFlight is 1 exactly while one goroutine is between taking the slot and
      giving it back, panics included, and there is never a second one. */
  lemma {:induction false} SlotIsExclusive(l: Limits, s: State)
    requires Reachable(l, s)
    ensures s.m.inFlight == 0 || s.m.inFlight == 1
    ensures s.m.inFlight == 1 <==> exists g :: 0 <= g < |s.gs| && Holds(s.gs[g].pc)
    ensures forall g, h :: 0 <= g < |s.gs| && 0 <= h < |s.gs| && Holds(s.gs[g].pc) && Holds(s.gs[h].pc) ==> g == h
  {
    ReachableInv(l, s);
  }

  /** A probe that took the slot while the breaker was HalfOpen finds it HalfOpen until
      its own swap, so that swap cannot fail. */
  lemma {:induction false} ProbeOwnsHalfOpen(l: Limits, s: State, step: Step)
    requires Reachable(l, s) && step.g < |s.gs|
    requires BeforeOwnSwap(s.gs[step.g].pc) && s.gs[step.g].wonIn == HalfOpen
    ensures s.m.state == HalfOpen
    ensures s.gs[step.g].pc.SwapHalfToOpen? ==>
              Apply(l, s, step).m.state == Open && Apply(l, s, step).gs[step.g].pc == StampReopen
    ensures s.gs[step.g].pc.SwapHalfToClosed? ==>
              Apply(l, s, step).m.state == Closed && Apply(l, s, step).gs[step.g].pc == ClearFailures
    ensures forall other: Step :: other.g < |s.gs| && other.g != step.g ==> Apply(l, s, other).m.state == HalfOpen
  {
    ReachableInv(l, s);
    assert Holds(s.gs[step.g].pc);
    forall other: Step | other.g < |s.gs| && other.g != step.g ensures Apply(l, s, other).m.state == HalfOpen {
      StepKeepsHalfOpen(l, s, other);
      assert Apply(l, s, other).gs[step.g] == s.gs[step.g];
    }
  }

  /** In every run each Closed to Open transition was won by a goroutine whose own
      failed call ended a run of FailureThreshold failed calls with no reset among
      them, and there are as many such justifications as transitions. */
  lemma {:induction false} EveryTripIsEarned(l: Limits, s: State, i: nat)
    requires Reachable(l, s) && ValidLimits(l) && i < |s.m.trips|
    ensures |s.m.trips| == s.m.swaps.closedOpen
    ensures EndsRun(s.m.failureLog, s.m.trips[i].g, s.m.trips[i].at, l.failureThreshold)
  {
    ReachableInv(l, s);
    EarnedEndsRun(l.failureThreshold, s.m.failureLog, s.m.trips[i].g, s.m.trips[i].at);
  }

  /** Likewise each HalfOpen to Closed transition was won by a goroutine whose own
      successful probe ended a run of SuccessThreshold successes with no reset. */
  lemma {:induction false} EveryClosingIsEarned(l: Limits, s: State, i: nat)
    requires Reachable(l, s) && ValidLimits(l) && i < |s.m.closings|
    ensures |s.m.closings| == s.m.swaps.halfClosed
    ensures EndsRun(s.m.successLog, s.m.closings[i].g, s.m.closings[i].at, l.successThreshold)
  {
    ReachableInv(l, s);
    EarnedEndsRun(l.successThreshold, s.m.successLog, s.m.closings[i].g, s.m.closings[i].at);
  }

  /** Transitions balance in every reachable state, and the reported counters lag the
      true ones by exactly the goroutines between swap and report. */
  lemma {:induction false} TransitionsAreConserved(l: Limits, s: State)
    requires Reachable(l, s)
    ensures s.m.swaps.closedOpen - s.m.swaps.halfClosed == (if s.m.state == Closed then 0 else 1)
    ensures s.m.swaps.openHalf - s.m.swaps.halfOpen - s.m.swaps.halfClosed == (if s.m.state == HalfOpen then 1 else 0)
    ensures forall k: Kind :: Get(s.m.recorded, k) + Count(s.gs, k) == Get(s.m.swaps, k)
  {
    ReachableInv(l, s);
  }

  lemma {:induction false} NobodyInTransit(gs: seq<Goroutine>, k: Kind)
    requires forall i :: 0 <= i < |gs| ==> gs[i].pc.Idle?
    ensures Count(gs, k) == 0
  {
    if gs != [] {
      NobodyInTransit(gs[..|gs| - 1], k);
    }
  }

  /** Once every call has returned, the reported counters are exact and the slot is free. */
  lemma {:induction false} QuiescentBreakerIsExact(l: Limits, s: State)
    requires Reachable(l, s)
    requires forall g :: 0 <= g < |s.gs| ==> s.gs[g].pc.Idle?
    ensures s.m.recorded == s.m.swaps && s.m.inFlight == 0
  {
    ReachableInv(l, s);
    forall k: Kind ensures Get(s.m.recorded, k) == Get(s.m.swaps, k) {
      NobodyInTransit(s.gs, k);
    }
    assert Get(s.m.recorded, ClosedToOpen) == Get(s.m.swaps, ClosedToOpen);
    assert Get(s.m.recorded, OpenToHalf) == Get(s.m.swaps, OpenToHalf);
    assert Get(s.m.recorded, HalfToOpen) == Get(s.m.swaps, HalfToOpen);
    assert Get(s.m.recorded, HalfToClosed) == Get(s.m.swaps, HalfToClosed);
  }

  /** Whatever the interleaving, a finished Execute called the function at most once,
      not at all when it refused, and returned nil only if the function ran and did. */
  lemma {:induction false} ExecuteReportsItsCall(l: Limits, s: State, g: nat)
    requires Reachable(l, s) && g < |s.gs| && s.gs[g].pc.Done?
    ensures s.gs[g].calls <= 1
    ensures s.gs[g].pc.v == Rejected <==> s.gs[g].calls == 0
    ensures s.gs[g].calls == 1 ==> s.gs[g].ran.Some? && s.gs[g].pc.v == VerdictOf(s.gs[g].ran.value)
  {
    ReachableInv(l, s);
    assert CallOk(s.gs[g]);
  }

  /** A call that did not load Closed runs the function only while it holds the slot, which
      nobody else does, and only if it loaded HalfOpen or passed the timeout check. */
  lemma {:induction false} ProbesNeedTheSlot(l: Limits, s: State, step: Step)
    requires Reachable(l, s) && step.g < |s.gs|
    requires Apply(l, s, step).gs[step.g].calls > s.gs[step.g].calls
    ensures s.gs[step.g].loaded != Closed ==>
              && s.m.inFlight == 1 && Holds(s.gs[step.g].pc) && MayProbe(s.gs[step.g])
              && forall h :: 0 <= h < |s.gs| && h != step.g ==> !Holds(s.gs[h].pc)
    ensures s.gs[step.g].loaded == Closed ==> !Holds(s.gs[step.g].pc)
  {
    ReachableInv(l, s);
    assert PathOk(s.gs[step.g]);
    CallsAtFunction(l, s, step);
  }

  lemma {:induction false} CallsAtFunction(l: Limits, s: State, step: Step)
    requires step.g < |s.gs| && Apply(l, s, step).gs[step.g].calls > s.gs[step.g].calls
    ensures s.gs[step.g].pc.InProbe? || s.gs[step.g].pc.InFn?
  {
  }

  /** A finished call was refused, without calling the function, exactly if its timeout
      check failed or it found the slot taken; a call that loaded Closed never is, and one
      that loaded HalfOpen only for the slot. */
  lemma {:induction false} RefusesExactlyIf(l: Limits, s: State, g: nat)
    requires Reachable(l, s) && g < |s.gs| && s.gs[g].pc.Done?
    ensures s.gs[g].pc.v == Rejected <==> s.gs[g].passed == Some(false) || s.gs[g].refused
    ensures s.gs[g].calls == 0 <==> s.gs[g].passed == Some(false) || s.gs[g].refused
    ensures s.gs[g].loaded == Closed ==> s.gs[g].passed == None && !s.gs[g].refused
    ensures s.gs[g].loaded == HalfOpen ==> s.gs[g].passed == None
    ensures s.gs[g].loaded == Open ==> s.gs[g].passed.Some?
    ensures s.gs[g].refused ==> MayProbe(s.gs[g])
  {
    ReachableInv(l, s);
    assert PathOk(s.gs[g]) && CallOk(s.gs[g]);
  }

  /** A swap that comes too late changes nothing at all. */
  lemma {:induction false} LateSwapsLeaveNoTrace(l: Limits, s: State, step: Step)
    requires Reachable(l, s) && step.g < |s.gs|
    requires var pc := s.gs[step.g].pc;
             || (pc.SwapClosedToOpen? && s.m.state != Closed)
             || (pc.SwapOpenToHalf? && s.m.state != Open)
             || ((pc.SwapHalfToOpen? || pc.SwapHalfToClosed?) && s.m.state != HalfOpen)
             || (pc.TakeSlot? && s.m.inFlight == 1)
    ensures Apply(l, s, step).m == s.m
  {
    ReachableInv(l, s);
  }
}
