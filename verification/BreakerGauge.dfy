/** The state gauge under concurrent calls. It is written after the swap it reports, so
    writes may land in another order than the swaps: when the gauge can be trusted, and a
    run in which it stays wrong. */
module BreakerGauge {
  import opened Domain
  import opened BreakerHistory
  import opened BreakerConcurrent
  import opened BreakerRecovery

  /** The value a goroutine has still to write, between its swap and its gauge write. */
  function Due(pc: Pc): Option<CBState> {
    match pc
    case StampTrip => Some(Open)
    case StoreTrip(_) => Some(Open)
    case RecordClosedToOpen => Some(Open)
    case GaugeOpened => Some(Open)
    case RecordOpenToHalf => Some(HalfOpen)
    case GaugeHalfOpen => Some(HalfOpen)
    case StampReopen => Some(Open)
    case StoreReopen(_) => Some(Open)
    case ClearSuccesses => Some(Open)
    case RecordHalfToOpen => Some(Open)
    case GaugeReopened => Some(Open)
    case ClearFailures => Some(Closed)
    case ClearSuccessesToo => Some(Closed)
    case RecordHalfToClosed => Some(Closed)
    case GaugeClosed => Some(Closed)
    case _ => None
  }

  ghost predicate NobodyDue(s: State) {
    forall g :: 0 <= g < |s.gs| ==> Due(s.gs[g].pc).None?
  }

  ghost predicate OthersNotDue(s: State, g: nat) {
    forall h :: 0 <= h < |s.gs| && h != g ==> Due(s.gs[h].pc).None?
  }

  // ---- transitions that do not overlap ----

  /** No swap is won while another goroutine has its gauge write still to do. */
  ghost predicate Orderly(l: Limits, s: State, run: seq<Step>)
    requires ValidRun(s, run)
    decreases |run|
  {
    run == []
    || (run[0] in run
        && (Apply(l, s, run[0]).m.state != s.m.state ==> OthersNotDue(s, run[0].g))
        && Orderly(l, Apply(l, s, run[0]), run[1..]))
  }

  ghost predicate GaugeInv(s: State) {
    && (NobodyDue(s) ==> s.m.gauge == s.m.state)
    && forall g :: 0 <= g < |s.gs| && Due(s.gs[g].pc).Some? ==>
         Due(s.gs[g].pc) == Some(s.m.state) && OthersNotDue(s, g)
  }

  /** A swap makes its report due. */
  lemma {:induction false} SwapMakesDue(l: Limits, m: Memory, g: nat, pc: Pc, fn: FnOutcome, now: int)
    ensures var (m', pc') := Access(l, m, g, pc, fn, now);
            m'.state != m.state ==> Due(pc).None? && Due(pc') == Some(m'.state)
  {
  }

  /** Nothing else makes a report due or touches the gauge. */
  lemma {:induction false} OthersReportNothing(l: Limits, m: Memory, g: nat, pc: Pc, fn: FnOutcome, now: int)
    ensures var (m', pc') := Access(l, m, g, pc, fn, now);
            m'.state == m.state && Due(pc).None? ==> Due(pc').None? && m'.gauge == m.gauge
  {
  }

  /** Only writing it settles a report. */
  lemma {:induction false} ReportSettles(l: Limits, m: Memory, g: nat, pc: Pc, fn: FnOutcome, now: int)
    requires Due(pc).Some?
    ensures var (m', pc') := Access(l, m, g, pc, fn, now);
            m'.state == m.state && (Due(pc') == Due(pc) || (Due(pc').None? && Due(pc) == Some(m'.gauge)))
  {
  }

  lemma {:induction false} StepKeepsGauge(l: Limits, s: State, step: Step)
    requires step.g < |s.gs| && GaugeInv(s)
    requires Apply(l, s, step).m.state != s.m.state ==> OthersNotDue(s, step.g)
    ensures GaugeInv(Apply(l, s, step))
  {
    SwapMakesDue(l, s.m, step.g, s.gs[step.g].pc, step.fn, step.now);
    if Due(s.gs[step.g].pc).Some? {
      ReportSettles(l, s.m, step.g, s.gs[step.g].pc, step.fn, step.now);
    } else {
      OthersReportNothing(l, s.m, step.g, s.gs[step.g].pc, step.fn, step.now);
    }
    RememberKeepsPc(l, s, step);
    GaugeMoves(s, Apply(l, s, step), step.g);
  }

  lemma {:induction false} GaugeMoves(s: State, t: State, g: nat)
    requires GaugeInv(s) && g < |s.gs| == |t.gs|
    requires forall h :: 0 <= h < |s.gs| && h != g ==> t.gs[h] == s.gs[h]
    requires t.m.state != s.m.state ==> OthersNotDue(s, g)
    requires var pc, pc' := s.gs[g].pc, t.gs[g].pc;
             if t.m.state != s.m.state then Due(pc).None? && Due(pc') == Some(t.m.state)
             else if Due(pc).None? then Due(pc').None? && t.m.gauge == s.m.gauge
             else Due(pc') == Due(pc) || (Due(pc').None? && Due(pc) == Some(t.m.gauge))
    ensures GaugeInv(t)
  {
    if NobodyDue(t) && Due(s.gs[g].pc).None? {
      assert NobodyDue(s);
    }
  }

  lemma {:induction false} OrderlyRunKeepsGauge(l: Limits, s: State, run: seq<Step>)
    requires ValidRun(s, run) && GaugeInv(s) && Orderly(l, s, run)
    ensures GaugeInv(Exec(l, s, run))
    decreases |run|
  {
    if run != [] {
      StepKeepsGauge(l, s, run[0]);
      OrderlyRunKeepsGauge(l, Apply(l, s, run[0]), run[1..]);
    }
  }

  /** While transitions do not overlap, the gauge shows the state whenever no report is due. */
  lemma {:induction false} GaugeFollowsOrderlyRuns(l: Limits, goroutines: nat, run: seq<Step>)
    requires ValidRun(Init(goroutines), run) && Orderly(l, Init(goroutines), run)
    requires NobodyDue(Exec(l, Init(goroutines), run))
    ensures Exec(l, Init(goroutines), run).m.gauge == Exec(l, Init(goroutines), run).m.state
  {
    OrderlyRunKeepsGauge(l, Init(goroutines), run);
  }

  // ---- one goroutine at a time ----

  ghost predicate OnlyMoved(s: State, t: State, g: nat) {
    |t.gs| == |s.gs| && forall h :: 0 <= h < |s.gs| && h != g ==> t.gs[h] == s.gs[h]
  }

  /** Some run leads from s to t. */
  ghost predicate Leads(l: Limits, s: State, t: State) {
    exists run :: ValidRun(s, run) && Exec(l, s, run) == t
  }

  /** No guarded function panics, and the clock reads the same throughout. */
  ghost predicate Calm(run: seq<Step>, now: int) {
    forall step :: step in run ==> step.now == now && !step.fn.Panics?
  }

  ghost predicate LeadsAt(l: Limits, s: State, t: State, now: int) {
    exists run :: ValidRun(s, run) && Calm(run, now) && Exec(l, s, run) == t
  }

  lemma {:induction false} LeadsOn(l: Limits, s: State, t: State, u: State, now: int)
    requires LeadsAt(l, s, t, now) && LeadsAt(l, t, u, now)
    ensures LeadsAt(l, s, u, now)
  {
    var one :| ValidRun(s, one) && Calm(one, now) && Exec(l, s, one) == t;
    var two :| ValidRun(t, two) && Calm(two, now) && Exec(l, t, two) == u;
    ExecConcat(l, s, one, two);
    assert Calm(one + two, now);
  }

  lemma {:induction false} ExecConcat(l: Limits, s: State, one: seq<Step>, two: seq<Step>)
    requires ValidRun(s, one) && ValidRun(Exec(l, s, one), two)
    ensures ValidRun(s, one + two) && Exec(l, s, one + two) == Exec(l, Exec(l, s, one), two)
    decreases |one|
  {
    if one == [] {
      assert one + two == two;
    } else {
      assert one[0] in one;
      assert (one + two)[0] == one[0] && (one + two)[1..] == one[1..] + two;
      ExecConcat(l, Apply(l, s, one[0]), one[1..], two);
    }
  }

  /** Goroutine g takes one step. */
  lemma {:induction false} Takes(l: Limits, s: State, g: nat, fn: FnOutcome, now: int) returns (t: State)
    requires g < |s.gs| && !fn.Panics?
    ensures LeadsAt(l, s, t, now) && OnlyMoved(s, t, g)
    ensures (t.m, t.gs[g].pc) == Access(l, s.m, g, s.gs[g].pc, fn, now)
  {
    var step := Step(g, fn, now);
    t := Apply(l, s, step);
    RememberKeepsPc(l, s, step);
    assert [step][1..] == [];
    assert Calm([step], now) && Exec(l, s, [step]) == t;
  }

  lemma {:induction false} LeadsNowhere(l: Limits, s: State, now: int)
    ensures LeadsAt(l, s, s, now)
  {
    assert Calm([], now) && Exec(l, s, []) == s;
  }

  // ---- a gauge that stays wrong ----

  ghost predicate Quiet(s: State) {
    forall g :: 0 <= g < |s.gs| ==> s.gs[g].pc.Idle?
  }

  /** Where a goroutine can be that fails, call after call, until it trips the breaker
      at clock reading c and has only the gauge left to write. */
  predicate TripPath(l: Limits, m: Memory, pc: Pc, c: int) {
    && m.inFlight == 0
    && match pc
       case SwapClosedToOpen(_) => m.state == Closed
       case StampTrip => m.state == Open
       case StoreTrip(t) => m.state == Open && t == c
       case RecordClosedToOpen => m.state == Open && m.openedAt == c
       case GaugeOpened => m.state == Open && m.openedAt == c
       case _ =>
         (pc.Idle? || pc.LoadState? || pc.InFn? || pc.AddFailure? || pc.Done?)
         && m.state == Closed && m.failures < l.failureThreshold
  }

  function FailuresLeft(l: Limits, m: Memory, pc: Pc, c: int): nat
    requires TripPath(l, m, pc, c)
  {
    if pc.Idle? || pc.LoadState? || pc.InFn? || pc.AddFailure? || pc.Done? then l.failureThreshold - m.failures else 0
  }

  function TripRank(pc: Pc): nat {
    match pc
    case Done(_) => 5
    case Idle => 4
    case LoadState => 3
    case InFn => 2
    case SwapClosedToOpen(_) => 4
    case StampTrip => 3
    case StoreTrip(_) => 2
    case RecordClosedToOpen => 1
    case _ => 0
  }

  lemma {:induction false} TripStep(l: Limits, m: Memory, g: nat, pc: Pc, c: int)
    requires TripPath(l, m, pc, c) && !pc.GaugeOpened?
    ensures var (m', pc') := Access(l, m, g, pc, Fails, c);
            && TripPath(l, m', pc', c)
            && (FailuresLeft(l, m', pc', c) < FailuresLeft(l, m, pc, c)
                || (FailuresLeft(l, m', pc', c) == FailuresLeft(l, m, pc, c) && TripRank(pc') < TripRank(pc)))
  {
  }

  /** Goroutine g trips the breaker and is held up before its gauge write. */
  lemma {:induction false} TripHeldUp(l: Limits, s: State, g: nat, c: int) returns (t: State)
    requires g < |s.gs| && TripPath(l, s.m, s.gs[g].pc, c)
    ensures LeadsAt(l, s, t, c) && OnlyMoved(s, t, g) && t.gs[g].pc == GaugeOpened
    ensures t.m.state == Open && t.m.openedAt == c && t.m.inFlight == 0
    decreases FailuresLeft(l, s.m, s.gs[g].pc, c), TripRank(s.gs[g].pc)
  {
    LeadsNowhere(l, s, c);
    if s.gs[g].pc.GaugeOpened? {
      t := s;
    } else {
      TripStep(l, s.m, g, s.gs[g].pc, c);
      var u := Takes(l, s, g, Fails, c);
      t := TripHeldUp(l, u, g, c);
      LeadsOn(l, s, u, t, c);
    }
  }

  /** Where a goroutine can be that finds Open past its timeout, makes it HalfOpen,
      reports that, and whose probe succeeds. */
  predicate ProbePath(l: Limits, m: Memory, pc: Pc, now: int) {
    match pc
    case RecordOpenToHalf => m.state == HalfOpen && m.inFlight == 0
    case GaugeHalfOpen => m.state == HalfOpen && m.inFlight == 0
    case TakeSlot => m.state == HalfOpen && m.inFlight == 0
    case InProbe => m.state == HalfOpen
    case AddSuccess => m.state == HalfOpen
    case SwapHalfToClosed(_) => m.state == HalfOpen
    case ClearFailures => m.state == Closed
    case ClearSuccessesToo => m.state == Closed
    case RecordHalfToClosed => m.state == Closed
    case GaugeClosed => m.state == Closed
    case FreeSlot(_) => m.state != Open
    case Done(_) => m.state != Open
    case _ => m.state == Open && m.inFlight == 0 && Passes(l, m, pc, now)
  }

  function ProbeRank(pc: Pc): nat {
    match pc
    case Idle => 16
    case LoadState => 15
    case LoadStamp => 14
    case CompareTimeout(_) => 13
    case SwapOpenToHalf => 12
    case RecordOpenToHalf => 11
    case GaugeHalfOpen => 10
    case TakeSlot => 9
    case InProbe => 8
    case AddSuccess => 7
    case SwapHalfToClosed(_) => 6
    case ClearFailures => 5
    case ClearSuccessesToo => 4
    case RecordHalfToClosed => 3
    case GaugeClosed => 2
    case FreeSlot(_) => 1
    case _ => 0
  }

  lemma {:induction false} ProbeStep(l: Limits, m: Memory, g: nat, pc: Pc, now: int)
    requires ProbePath(l, m, pc, now) && !pc.Done?
    ensures var (m', pc') := Access(l, m, g, pc, Succeeds, now);
            ProbePath(l, m', pc', now) && ProbeRank(pc') < ProbeRank(pc)
  {
  }

  /** Goroutine h ends an Open breaker's timeout with a successful probe. */
  lemma {:induction false} Probed(l: Limits, s: State, h: nat, now: int) returns (t: State)
    requires h < |s.gs| && ProbePath(l, s.m, s.gs[h].pc, now)
    ensures LeadsAt(l, s, t, now) && OnlyMoved(s, t, h) && t.gs[h].pc.Done? && t.m.state != Open
    decreases ProbeRank(s.gs[h].pc)
  {
    LeadsNowhere(l, s, now);
    if s.gs[h].pc.Done? {
      t := s;
    } else {
      ProbeStep(l, s.m, h, s.gs[h].pc, now);
      var u := Takes(l, s, h, Succeeds, now);
      t := Probed(l, u, h, now);
      LeadsOn(l, s, u, t, now);
    }
  }

  /** A goroutine whose call is over goes idle. */
  lemma {:induction false} Retires(l: Limits, s: State, g: nat, now: int) returns (t: State)
    requires g < |s.gs| && s.gs[g].pc.Done?
    ensures LeadsAt(l, s, t, now) && OnlyMoved(s, t, g) && t.gs[g].pc.Idle? && t.m == s.m
  {
    t := Takes(l, s, g, Succeeds, now);
  }

  lemma {:induction false} ReportsOpen(l: Limits, s: State, g: nat, now: int) returns (t: State)
    requires g < |s.gs| && s.gs[g].pc.GaugeOpened?
    ensures LeadsAt(l, s, t, now) && OnlyMoved(s, t, g) && t.gs[g].pc.Done? && t.m == s.m.(gauge := Open)
  {
    t := Takes(l, s, g, Fails, now);
  }

  ghost predicate OthersIdle(s: State, g: nat) {
    forall h :: 0 <= h < |s.gs| && h != g ==> s.gs[h].pc.Idle?
  }

  /** While goroutine 0 is held up before its report, another call ends Open and returns. */
  lemma {:induction false} OvertakesReport(l: Limits, s: State, now: int) returns (t: State)
    requires |s.gs| >= 2 && s.gs[0].pc.GaugeOpened? && OthersIdle(s, 0)
    requires s.m.state == Open && s.m.inFlight == 0 && now - s.m.openedAt >= l.openTimeout
    ensures LeadsAt(l, s, t, now) && |t.gs| == |s.gs| && t.gs[0].pc.GaugeOpened? && OthersIdle(t, 0)
    ensures t.m.state != Open
  {
    var u := Probed(l, s, 1, now);
    t := Retires(l, u, 1, now);
    LeadsOn(l, s, u, t, now);
  }

  lemma {:induction false} LateReport(l: Limits, s: State, now: int) returns (t: State)
    requires |s.gs| > 0 && s.gs[0].pc.GaugeOpened? && OthersIdle(s, 0)
    ensures LeadsAt(l, s, t, now) && Quiet(t) && t.m == s.m.(gauge := Open)
  {
    var u := ReportsOpen(l, s, 0, now);
    t := Retires(l, u, 0, now);
    LeadsOn(l, s, u, t, now);
  }

  /** Goroutine 0 trips the breaker at a clock reading c and is held up before its gauge
      write; OpenTimeout later goroutine 1 makes the breaker HalfOpen, probes with
      success and reports; then goroutine 0 reports Open. Nobody panicked, every call has
      returned, the breaker is not Open, and the gauge shows Open. */
  lemma {:induction false} GaugeCanStayWrong(l: Limits, goroutines: nat, c: int) returns (tripped: State, t: State)
    requires ValidLimits(l) && goroutines >= 2
    ensures LeadsAt(l, Init(goroutines), tripped, c) && tripped.m.state == Open
    ensures LeadsAt(l, tripped, t, c + l.openTimeout)
    ensures Quiet(t) && t.m.state != Open && t.m.gauge == Open
  {
    tripped := TripHeldUp(l, Init(goroutines), 0, c);
    var overtaken := OvertakesReport(l, tripped, c + l.openTimeout);
    t := LateReport(l, overtaken, c + l.openTimeout);
    LeadsOn(l, tripped, overtaken, t, c + l.openTimeout);
  }

  lemma {:induction false} LeadsByTwo(l: Limits, s: State, t: State, u: State, now: int, later: int)
    requires LeadsAt(l, s, t, now) && LeadsAt(l, t, u, later)
    ensures Leads(l, s, u)
  {
    var one :| ValidRun(s, one) && Calm(one, now) && Exec(l, s, one) == t;
    var two :| ValidRun(t, two) && Calm(two, later) && Exec(l, t, two) == u;
    ExecConcat(l, s, one, two);
  }

  lemma {:induction false} AloneIsOrderly(l: Limits, s: State, run: seq<Step>)
    requires ValidRun(s, run) && |s.gs| <= 1
    ensures Orderly(l, s, run)
    decreases |run|
  {
    if run != [] {
      assert run[0] in run;
      AloneIsOrderly(l, Apply(l, s, run[0]), run[1..]);
    }
  }

  /** The gauge is right in every run, once all calls have returned, exactly if no two
      goroutines use the breaker. */
  lemma {:induction false} GaugeIsExactExactlyIf(l: Limits, goroutines: nat)
    requires ValidLimits(l)
    ensures (forall t :: Leads(l, Init(goroutines), t) && Quiet(t) ==> t.m.gauge == t.m.state) <==> goroutines <= 1
  {
    if goroutines <= 1 {
      forall t | Leads(l, Init(goroutines), t) && Quiet(t) ensures t.m.gauge == t.m.state {
        var run :| ValidRun(Init(goroutines), run) && Exec(l, Init(goroutines), run) == t;
        AloneIsOrderly(l, Init(goroutines), run);
        GaugeFollowsOrderlyRuns(l, goroutines, run);
      }
    } else {
      var tripped, t := GaugeCanStayWrong(l, goroutines, 0);
      LeadsByTwo(l, Init(goroutines), tripped, t, 0, l.openTimeout);
    }
  }
}
