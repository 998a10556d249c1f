/** The circuit breaker as one caller at a time sees it: the object with its five
    counters, proved to follow the history automaton of BreakerHistory. */
module Breaker {
  import opened BreakerHistory

  /** What Execute returns: a refusal without a call, the function's own result, or
      nothing at all because the function panicked. */
  datatype Verdict = Rejected | ReturnedNil | ReturnedError | Panicked

  const DEFAULT_FAILURE_THRESHOLD := 5
  const DEFAULT_OPEN_TIMEOUT := 30_000_000_000

  function WithDefaults(l: Limits): (r: Limits)
    ensures ValidLimits(r)
    ensures r.failureThreshold == if l.failureThreshold > 0 then l.failureThreshold else 5
    ensures r.successThreshold == if l.successThreshold > 0 then l.successThreshold else 1
    ensures r.openTimeout == if l.openTimeout > 0 then l.openTimeout else 30 * 1_000_000_000
  {
    Limits(if l.failureThreshold <= 0 then DEFAULT_FAILURE_THRESHOLD else l.failureThreshold,
           if l.successThreshold <= 0 then 1 else l.successThreshold,
           if l.openTimeout <= 0 then DEFAULT_OPEN_TIMEOUT else l.openTimeout)
  }

  function VerdictOf(fn: FnOutcome): Verdict {
    match fn
    case Succeeds => ReturnedNil
    case Fails => ReturnedError
    case Panics => Panicked
  }

  class Breaker {
    const limits: Limits
    var state: CBState
    var failures: int
    var successes: int
    var halfOpenInFlight: int
    var openedAt: int
    var gauge: CBState                          // last value given to SetCBState
    var transitions: seq<(CBState, CBState)>    // RecordCBTransition calls
    ghost var phase: Phase                      // where the history automaton stands

    ghost predicate Valid()
      reads this
    {
      && ValidLimits(limits)
      && state == gauge == StateOf(phase)
      && halfOpenInFlight == 0
      && match phase
         case InClosed(since) =>
           failures == TrailingFailures(since) < limits.failureThreshold && successes == 0
         case InOpen(at) => openedAt == at && successes == 0
         case InHalfOpen(probes) => successes == |Counted(probes)| < limits.successThreshold
    }

    constructor (cfg: Limits)
      ensures Valid() && limits == WithDefaults(cfg)
      ensures phase == InClosed([]) && transitions == []
    {
      limits := WithDefaults(cfg);
      state, failures, successes, halfOpenInFlight, openedAt := Closed, 0, 0, 0, 0;
      gauge, transitions := Closed, [];
      phase := InClosed([]);
    }

    method State() returns (s: CBState)
      requires Valid()
      ensures s == StateOf(phase)
    {
      s := state;
    }

    /** One call follows one step of the automaton, refuses exactly when the timeout
        is still running, and otherwise runs the function and returns its result. */
    method Execute(c: Call) returns (verdict: Verdict, called: bool)
      requires Valid()
      modifies this
      ensures Valid()
      ensures phase == NextPhase(limits, old(phase), c)
      ensures verdict == if Rejects(limits, old(phase), c) then Rejected else VerdictOf(c.fn)
      ensures called <==> !Rejects(limits, old(phase), c)
      ensures transitions == old(transitions) + Crossings(limits, old(phase), c)
    {
      match state {
        case Open =>
          if c.checkTime - openedAt < limits.openTimeout {
            return Rejected, false;
          }
          state := HalfOpen;
          transitions := transitions + [(Open, HalfOpen)];
          gauge := HalfOpen;
          phase := InHalfOpen([]);
          verdict, called := ExecuteHalfOpen(c);
        case HalfOpen =>
          verdict, called := ExecuteHalfOpen(c);
        case Closed =>
          verdict, called := ExecuteClosed(c);
      }
    }

    method ExecuteClosed(c: Call) returns (verdict: Verdict, called: bool)
      requires Valid() && phase.InClosed?
      modifies this
      ensures Valid() && called && verdict == VerdictOf(c.fn)
      ensures phase == NextPhase(limits, old(phase), c)
      ensures transitions == old(transitions) + Crossings(limits, old(phase), c)
    {
      ghost var all := phase.since + [c.fn];
      assert all[..|phase.since|] == phase.since;
      CounterIsStreak(all, limits.failureThreshold);
      match c.fn {
        case Panics =>
          phase := InClosed(all);
        case Fails =>
          phase := NextPhase(limits, phase, c);
          failures := failures + 1;
          if failures >= limits.failureThreshold {
            state := Open;
            openedAt := c.stampTime;
            transitions := transitions + [(Closed, Open)];
            gauge := Open;
          }
        case Succeeds =>
          phase := InClosed(all);
          failures := 0;
      }
      return VerdictOf(c.fn), true;
    }

    method ExecuteHalfOpen(c: Call) returns (verdict: Verdict, called: bool)
      requires ValidLimits(limits) && state == gauge == HalfOpen && halfOpenInFlight == 0
      requires phase.InHalfOpen? && successes == |Counted(phase.since)| < limits.successThreshold
      modifies this
      ensures Valid() && called && verdict == VerdictOf(c.fn)
      ensures phase == AfterProbe(limits, old(phase).since, c)
      ensures transitions == old(transitions) +
        (if StateOf(phase) == HalfOpen then [] else [(HalfOpen, StateOf(phase))])
    {
      ghost var all := phase.since + [c.fn];
      CountedAppend(phase.since, c.fn);
      phase := AfterProbe(limits, phase.since, c);
      if halfOpenInFlight != 0 {
        return Rejected, false;
      }
      halfOpenInFlight := 1;
      match c.fn {
        case Panics =>
        case Fails =>
          state := Open;
          openedAt := c.stampTime;
          successes := 0;
          transitions := transitions + [(HalfOpen, Open)];
          gauge := Open;
        case Succeeds =>
          successes := successes + 1;
          if successes >= limits.successThreshold {
            state := Closed;
            failures := 0;
            successes := 0;
            transitions := transitions + [(HalfOpen, Closed)];
            gauge := Closed;
          }
      }
      halfOpenInFlight := 0;
      return VerdictOf(c.fn), true;
    }
  }

  /** Any sequence of non-overlapping calls: the breaker ends where the history says,
      and its gauge shows it. */
  method RunCalls(cfg: Limits, calls: seq<Call>) returns (b: Breaker)
    ensures b.Valid() && b.limits == WithDefaults(cfg)
    ensures b.phase == PhaseAfter(b.limits, calls)
    ensures b.state == b.gauge == StateOf(PhaseAfter(b.limits, calls))
  {
    b := new Breaker(cfg);
    for i := 0 to |calls|
      invariant fresh(b) && b.Valid() && b.limits == WithDefaults(cfg)
      invariant b.phase == PhaseAfter(b.limits, calls[..i])
    {
      var _, _ := b.Execute(calls[i]);
      assert calls[..i + 1] == calls[..i] + [calls[i]];
      PhaseAppend(b.limits, calls[..i], calls[i]);
    }
    assert calls[..|calls|] == calls;
  }
}
