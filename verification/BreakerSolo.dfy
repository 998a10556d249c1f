/** The concurrent breaker when nobody interferes: a goroutine that runs a whole Execute
    alone takes one step of the history automaton, and so do any number of calls one
    after the other. */
module BreakerSolo {
  import opened BreakerHistory
  import opened Breaker
  import opened BreakerConcurrent

  /** A phase as far as the counters know it. */
  datatype Count =
    | ClosedAfter(failures: nat)
    | OpenAt(at: int)
    | HalfOpenAfter(successes: nat)

  function CountOf(p: Phase): Count {
    match p
    case InClosed(since) => ClosedAfter(TrailingFailures(since))
    case InOpen(at) => OpenAt(at)
    case InHalfOpen(probes) => HalfOpenAfter(|Counted(probes)|)
  }

  ghost predicate MatchesCount(l: Limits, m: Memory, n: Count) {
    && m.inFlight == 0 && m.gauge == m.state
    && match n
       case ClosedAfter(failures) =>
         m.state == Closed && m.failures == failures < l.failureThreshold && m.successes == 0
       case OpenAt(at) => m.state == Open && m.openedAt == at && m.successes == 0
       case HalfOpenAfter(successes) => m.state == HalfOpen && m.successes == successes < l.successThreshold
  }

  /** The atomics are what the phase of the history says. */
  ghost predicate Matches(l: Limits, m: Memory, p: Phase) {
    MatchesCount(l, m, CountOf(p))
  }

  predicate TooSoon(l: Limits, n: Count, c: Call) {
    n.OpenAt? && c.checkTime - n.at < l.openTimeout
  }

  function CountNext(l: Limits, n: Count, c: Call): Count {
    if TooSoon(l, n, c) then n
    else
      match n
      case ClosedAfter(failures) =>
        (match c.fn
         case Fails => if failures + 1 >= l.failureThreshold then OpenAt(c.stampTime) else ClosedAfter(failures + 1)
         case Succeeds => ClosedAfter(0)
         case Panics => n)
      case OpenAt(_) => Probed(l, 0, c)
      case HalfOpenAfter(successes) => Probed(l, successes, c)
  }

  function Probed(l: Limits, successes: nat, c: Call): Count {
    match c.fn
    case Fails => OpenAt(c.stampTime)
    case Succeeds => if successes + 1 >= l.successThreshold then ClosedAfter(0) else HalfOpenAfter(successes + 1)
    case Panics => HalfOpenAfter(successes)
  }

  /** The counters follow the history. */
  lemma {:induction false} CountFollowsPhase(l: Limits, p: Phase, c: Call)
    requires ValidLimits(l)
    requires p.InClosed? ==> TrailingFailures(p.since) < l.failureThreshold
    ensures CountOf(NextPhase(l, p, c)) == CountNext(l, CountOf(p), c)
  {
    match p
    case InClosed(since) =>
      var all := since + [c.fn];
      assert all[..|since|] == since;
      CounterIsStreak(all, l.failureThreshold);
    case InOpen(_) =>
      CountedAppend([], c.fn);
    case InHalfOpen(probes) =>
      CountedAppend(probes, c.fn);
  }

  // ---- one call, access by access ----

  /** The clock reading of the call that the access at pc would use. */
  function ReadingAt(pc: Pc, c: Call): int {
    if pc.CompareTimeout? then c.checkTime else c.stampTime
  }

  ghost predicate Ended(l: Limits, m: Memory, n: Count, c: Call, v: Verdict) {
    MatchesCount(l, m, CountNext(l, n, c)) && v == if TooSoon(l, n, c) then Rejected else VerdictOf(c.fn)
  }

  /** On the way to the function or the slot. */
  ghost predicate Calling(l: Limits, m: Memory, pc: Pc, n: Count, c: Call) {
    MatchesCount(l, m, n)
    && match pc
       case LoadStamp => n.OpenAt?
       case CompareTimeout(o) => n.OpenAt? && o == n.at
       case SwapOpenToHalf => n.OpenAt? && !TooSoon(l, n, c)
       case InFn => n.ClosedAfter?
       case _ => pc.Idle? || pc.LoadState?
  }

  /** In Closed, after the function has ended. */
  ghost predicate Counting(l: Limits, m: Memory, pc: Pc, n: Count, c: Call) {
    && n.ClosedAfter? && m.inFlight == 0 && m.successes == 0 && m.gauge == Closed
    && match pc
       case StoreZeroFailures => c.fn.Succeeds? && m.state == Closed
       case AddFailure => c.fn.Fails? && m.state == Closed && m.failures == n.failures < l.failureThreshold
       case SwapClosedToOpen(_) => c.fn.Fails? && m.state == Closed && n.failures + 1 >= l.failureThreshold
       case StampTrip => c.fn.Fails? && m.state == Open && n.failures + 1 >= l.failureThreshold
       case StoreTrip(t) =>
         c.fn.Fails? && m.state == Open && n.failures + 1 >= l.failureThreshold && t == c.stampTime
       case _ =>
         (pc.RecordClosedToOpen? || pc.GaugeOpened?)
         && c.fn.Fails? && m.state == Open && n.failures + 1 >= l.failureThreshold && m.openedAt == c.stampTime
  }

  function EarlierSuccesses(n: Count): nat {
    if n.HalfOpenAfter? then n.successes else 0
  }

  ghost predicate MayTakeSlot(l: Limits, n: Count, c: Call) {
    !n.ClosedAfter? && !TooSoon(l, n, c) && EarlierSuccesses(n) < l.successThreshold
  }

  /** In HalfOpen, up to the end of the function. */
  ghost predicate Probing(l: Limits, m: Memory, pc: Pc, n: Count, c: Call) {
    && MayTakeSlot(l, n, c) && m.state == HalfOpen && m.successes == EarlierSuccesses(n)
    && match pc
       case InProbe => m.inFlight == 1 && m.gauge == HalfOpen
       case TakeSlot => m.inFlight == 0 && m.gauge == HalfOpen
       case _ => (pc.RecordOpenToHalf? || pc.GaugeHalfOpen?) && m.inFlight == 0 && n.OpenAt?
  }

  /** After a failed probe. */
  ghost predicate Reopening(l: Limits, m: Memory, pc: Pc, n: Count, c: Call) {
    && MayTakeSlot(l, n, c) && c.fn.Fails? && m.inFlight == 1
    && match pc
       case SwapHalfToOpen => m.state == HalfOpen
       case StampReopen => m.state == Open
       case StoreReopen(t) => m.state == Open && t == c.stampTime
       case ClearSuccesses => m.state == Open && m.openedAt == c.stampTime
       case _ =>
         (pc.RecordHalfToOpen? || pc.GaugeReopened?)
         && m.state == Open && m.openedAt == c.stampTime && m.successes == 0
  }

  /** After a successful probe. */
  ghost predicate Recovering(l: Limits, m: Memory, pc: Pc, n: Count, c: Call) {
    && MayTakeSlot(l, n, c) && c.fn.Succeeds? && m.inFlight == 1
    && match pc
       case AddSuccess => m.state == HalfOpen == m.gauge && m.successes == EarlierSuccesses(n)
       case SwapHalfToClosed(_) => m.state == HalfOpen && EarlierSuccesses(n) + 1 >= l.successThreshold
       case ClearFailures => m.state == Closed && EarlierSuccesses(n) + 1 >= l.successThreshold
       case ClearSuccessesToo =>
         m.state == Closed && EarlierSuccesses(n) + 1 >= l.successThreshold && m.failures == 0
       case _ =>
         (pc.RecordHalfToClosed? || pc.GaugeClosed?)
         && m.state == Closed && EarlierSuccesses(n) + 1 >= l.successThreshold && m.failures == 0 && m.successes == 0
  }

  /** Where memory and goroutine stand in the middle of a call that nobody disturbs. */
  ghost predicate OnCourse(l: Limits, m: Memory, pc: Pc, n: Count, c: Call) {
    match pc
    case Done(v) => Ended(l, m, n, c, v)
    case FreeSlot(v) => MayTakeSlot(l, n, c) && Ended(l, m.(inFlight := 0), n, c, v)
    case _ =>
      Calling(l, m, pc, n, c) || Counting(l, m, pc, n, c) || Probing(l, m, pc, n, c)
      || Reopening(l, m, pc, n, c) || Recovering(l, m, pc, n, c)
  }

  function Rank(pc: Pc): nat {
    match pc
    case Idle => 30
    case LoadState => 29
    case LoadStamp => 28
    case CompareTimeout(_) => 27
    case SwapOpenToHalf => 26
    case RecordOpenToHalf => 25
    case GaugeHalfOpen => 24
    case TakeSlot => 23
    case InProbe => 22
    case InFn => 22
    case SwapHalfToOpen => 20
    case StampReopen => 19
    case StoreReopen(_) => 18
    case ClearSuccesses => 17
    case RecordHalfToOpen => 16
    case GaugeReopened => 15
    case AddSuccess => 20
    case SwapHalfToClosed(_) => 19
    case ClearFailures => 18
    case ClearSuccessesToo => 17
    case RecordHalfToClosed => 16
    case GaugeClosed => 15
    case AddFailure => 20
    case SwapClosedToOpen(_) => 19
    case StampTrip => 18
    case StoreTrip(_) => 17
    case RecordClosedToOpen => 16
    case GaugeOpened => 15
    case StoreZeroFailures => 15
    case FreeSlot(_) => 1
    case Done(_) => 0
  }

  ghost predicate StaysOnCourse(l: Limits, m: Memory, g: nat, pc: Pc, n: Count, c: Call) {
    var (m', pc') := Access(l, m, g, pc, c.fn, ReadingAt(pc, c));
    OnCourse(l, m', pc', n, c) && Rank(pc') < Rank(pc)
  }

  lemma {:induction false} CallingStaysOnCourse(l: Limits, m: Memory, g: nat, pc: Pc, n: Count, c: Call)
    requires ValidLimits(l) && Calling(l, m, pc, n, c)
    ensures StaysOnCourse(l, m, g, pc, n, c)
  {
  }

  lemma {:induction false} CountingStaysOnCourse(l: Limits, m: Memory, g: nat, pc: Pc, n: Count, c: Call)
    requires ValidLimits(l) && Counting(l, m, pc, n, c)
    ensures StaysOnCourse(l, m, g, pc, n, c)
  {
  }

  lemma {:induction false} ProbingStaysOnCourse(l: Limits, m: Memory, g: nat, pc: Pc, n: Count, c: Call)
    requires ValidLimits(l) && Probing(l, m, pc, n, c)
    ensures StaysOnCourse(l, m, g, pc, n, c)
  {
  }

  lemma {:induction false} ReopeningStaysOnCourse(l: Limits, m: Memory, g: nat, pc: Pc, n: Count, c: Call)
    requires ValidLimits(l) && Reopening(l, m, pc, n, c)
    ensures StaysOnCourse(l, m, g, pc, n, c)
  {
  }

  lemma {:induction false} RecoveringStaysOnCourse(l: Limits, m: Memory, g: nat, pc: Pc, n: Count, c: Call)
    requires ValidLimits(l) && Recovering(l, m, pc, n, c)
    ensures StaysOnCourse(l, m, g, pc, n, c)
  {
  }

  lemma {:induction false} AccessStaysOnCourse(l: Limits, m: Memory, g: nat, pc: Pc, n: Count, c: Call)
    requires ValidLimits(l) && OnCourse(l, m, pc, n, c) && !pc.Done?
    ensures StaysOnCourse(l, m, g, pc, n, c)
  {
    if pc.FreeSlot? {
    } else if Calling(l, m, pc, n, c) {
      CallingStaysOnCourse(l, m, g, pc, n, c);
    } else if Counting(l, m, pc, n, c) {
      CountingStaysOnCourse(l, m, g, pc, n, c);
    } else if Probing(l, m, pc, n, c) {
      ProbingStaysOnCourse(l, m, g, pc, n, c);
    } else if Reopening(l, m, pc, n, c) {
      ReopeningStaysOnCourse(l, m, g, pc, n, c);
    } else {
      RecoveringStaysOnCourse(l, m, g, pc, n, c);
    }
  }

  // ---- whole calls ----

  /** A run of goroutine g alone, inside one Execute, with the function outcome and the
      clock readings of the call. */
  ghost predicate IsSolo(l: Limits, s: State, run: seq<Step>, g: nat, c: Call)
    decreases |run|
  {
    run == []
    || (g < |s.gs| && !s.gs[g].pc.Done? && run[0] == Step(g, c.fn, ReadingAt(s.gs[g].pc, c))
        && IsSolo(l, Apply(l, s, run[0]), run[1..], g, c))
  }

  lemma {:induction false} SoloIsValid(l: Limits, s: State, run: seq<Step>, g: nat, c: Call)
    requires IsSolo(l, s, run, g, c)
    ensures ValidRun(s, run)
    decreases |run|
  {
    if run != [] {
      SoloIsValid(l, Apply(l, s, run[0]), run[1..], g, c);
      assert run == [run[0]] + run[1..];
    }
  }

  lemma {:induction false} SoloStaysOnCourse(l: Limits, s: State, run: seq<Step>, g: nat, n: Count, c: Call)
    requires ValidLimits(l) && g < |s.gs| && OnCourse(l, s.m, s.gs[g].pc, n, c)
    requires ValidRun(s, run) && IsSolo(l, s, run, g, c)
    ensures OnCourse(l, Exec(l, s, run).m, Exec(l, s, run).gs[g].pc, n, c)
    decreases |run|
  {
    if run != [] {
      AccessStaysOnCourse(l, s.m, g, s.gs[g].pc, n, c);
      RememberKeepsPc(l, s, run[0]);
      SoloStaysOnCourse(l, Apply(l, s, run[0]), run[1..], g, n, c);
    }
  }

  /** A whole Execute that nobody disturbs, from a state that matches a phase of the
      history: it refuses exactly when the automaton does, otherwise returns what the
      function did, and leaves a state that matches the automaton's next phase. */
  lemma {:induction false} SoloCallFollowsHistory(l: Limits, s: State, g: nat, p: Phase, c: Call, run: seq<Step>)
    requires ValidLimits(l) && g < |s.gs| && s.gs[g].pc.Idle? && Matches(l, s.m, p)
    requires ValidRun(s, run) && IsSolo(l, s, run, g, c) && Exec(l, s, run).gs[g].pc.Done?
    ensures var t := Exec(l, s, run);
            && t.gs[g].pc.v == (if Rejects(l, p, c) then Rejected else VerdictOf(c.fn))
            && Matches(l, t.m, NextPhase(l, p, c))
  {
    SoloStaysOnCourse(l, s, run, g, CountOf(p), c);
    CountFollowsPhase(l, p, c);
  }

  /** Such a call always comes to its end. */
  lemma {:induction false} SoloCallEnds(l: Limits, s: State, g: nat, n: Count, c: Call) returns (run: seq<Step>)
    requires ValidLimits(l) && g < |s.gs| && OnCourse(l, s.m, s.gs[g].pc, n, c)
    ensures IsSolo(l, s, run, g, c) && ValidRun(s, run) && Exec(l, s, run).gs[g].pc.Done?
    decreases Rank(s.gs[g].pc)
  {
    if s.gs[g].pc.Done? {
      run := [];
    } else {
      var step := Step(g, c.fn, ReadingAt(s.gs[g].pc, c));
      AccessStaysOnCourse(l, s.m, g, s.gs[g].pc, n, c);
      RememberKeepsPc(l, s, step);
      var rest := SoloCallEnds(l, Apply(l, s, step), g, n, c);
      run := [step] + rest;
      assert run[1..] == rest;
      SoloIsValid(l, s, run, g, c);
    }
  }

  /** t is reached from s when goroutine g makes the call alone and goes idle again. */
  ghost predicate Serves(l: Limits, s: State, g: nat, c: Call, run: seq<Step>, t: State) {
    && g < |s.gs| && s.gs[g].pc.Idle? && ValidRun(s, run) && IsSolo(l, s, run, g, c)
    && Exec(l, s, run).gs[g].pc.Done? && t == Apply(l, Exec(l, s, run), Step(g, c.fn, c.stampTime))
  }

  lemma {:induction false} ServedCallFollowsHistory(
    l: Limits, s: State, g: nat, p: Phase, c: Call, run: seq<Step>, t: State)
    requires ValidLimits(l) && Matches(l, s.m, p) && Serves(l, s, g, c, run, t)
    ensures Matches(l, t.m, NextPhase(l, p, c))
  {
    SoloCallFollowsHistory(l, s, g, p, c, run);
    RememberKeepsPc(l, Exec(l, s, run), Step(g, c.fn, c.stampTime));
  }

  /** t is reached from s by these calls, one after the other, by whichever goroutines. */
  ghost predicate ServesAll(l: Limits, s: State, calls: seq<Call>, t: State)
    decreases |calls|
  {
    if calls == [] then t == s
    else
      var front, c := calls[..|calls| - 1], calls[|calls| - 1];
      exists u, g: nat, run :: ServesAll(l, s, front, u) && Serves(l, u, g, c, run, t)
  }

  /** Calls that do not overlap, by any number of goroutines, take the breaker exactly
      where the history automaton goes. */
  lemma {:induction false} SequentialCallsFollowHistory(l: Limits, goroutines: nat, calls: seq<Call>, t: State)
    requires ValidLimits(l) && ServesAll(l, Init(goroutines), calls, t)
    ensures Matches(l, t.m, PhaseAfter(l, calls))
    decreases |calls|
  {
    if calls != [] {
      var front, c := calls[..|calls| - 1], calls[|calls| - 1];
      var u, g: nat, run :| ServesAll(l, Init(goroutines), front, u) && Serves(l, u, g, c, run, t);
      SequentialCallsFollowHistory(l, goroutines, front, u);
      ServedCallFollowsHistory(l, u, g, PhaseAfter(l, front), c, run, t);
    }
  }

  lemma {:induction false} OneMoreCanBeServed(l: Limits, s: State, g: nat, p: Phase, c: Call)
    returns (run: seq<Step>, t: State)
    requires ValidLimits(l) && g < |s.gs| && s.gs[g].pc.Idle? && Matches(l, s.m, p)
    ensures Serves(l, s, g, c, run, t) && |t.gs| == |s.gs| && t.gs[g].pc.Idle?
  {
    run := SoloCallEnds(l, s, g, CountOf(p), c);
    var last := Step(g, c.fn, c.stampTime);
    t := Apply(l, Exec(l, s, run), last);
    RememberKeepsPc(l, Exec(l, s, run), last);
  }

  /** Any calls at all can be served in this way. */
  lemma {:induction false} AnyCallsCanBeServed(l: Limits, goroutines: nat, calls: seq<Call>) returns (t: State)
    requires ValidLimits(l) && goroutines > 0
    ensures ServesAll(l, Init(goroutines), calls, t) && |t.gs| == goroutines && t.gs[0].pc.Idle?
    decreases |calls|
  {
    t := Init(goroutines);
    if calls != [] {
      var front, c := calls[..|calls| - 1], calls[|calls| - 1];
      var u := AnyCallsCanBeServed(l, goroutines, front);
      SequentialCallsFollowHistory(l, goroutines, front, u);
      var run;
      run, t := OneMoreCanBeServed(l, u, 0, PhaseAfter(l, front), c);
    }
  }
}
