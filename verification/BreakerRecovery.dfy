/** How an Open breaker comes back under concurrent calls, and when it does not: how
    long Open really lasts, and what is left of recovery behind the orchestrator's
    filter, which asks for the stored state and not for the timeout. */
module BreakerRecovery {
  import opened Domain
  import opened BreakerHistory
  import opened BreakerConcurrent

  /** Decided to leave Open, swap still to come. */
  predicate PastCheck(pc: Pc) { pc.SwapOpenToHalf? }

  /** Inside Execute on the way to the timeout check, or just past it. */
  predicate MayEndOpen(pc: Pc) { pc.LoadState? || pc.LoadStamp? || pc.CompareTimeout? || pc.SwapOpenToHalf? }

  /** The stamp a goroutine holds: loaded and not yet compared, or read off the clock
      and not yet stored. */
  function HeldStamp(pc: Pc): Option<int> {
    match pc
    case CompareTimeout(o) => Some(o)
    case StoreTrip(t) => Some(t)
    case StoreReopen(t) => Some(t)
    case _ => None
  }

  /** What one access can do to an Open breaker. */
  lemma {:induction false} AccessWhileOpen(l: Limits, m: Memory, g: nat, pc: Pc, fn: FnOutcome, now: int)
    requires m.state == Open
    ensures var (m', pc') := Access(l, m, g, pc, fn, now);
            && m'.state == (if PastCheck(pc) then HalfOpen else Open)
            && (m'.openedAt == m.openedAt || HeldStamp(pc) == Some(m'.openedAt))
            && (PastCheck(pc') <==> pc.CompareTimeout? && now - pc.o >= l.openTimeout)
            && HeldStamp(pc') in {None, Some(m.openedAt), Some(now)}
            && (MayEndOpen(pc') ==> MayEndOpen(pc) || pc.Idle?)
  {
  }

  // ---- how long Open lasts ----

  /** All clock readings of the run lie in [from, before). */
  ghost predicate Within(run: seq<Step>, from: int, before: int) {
    forall step :: step in run ==> from <= step.now < before
  }

  ghost predicate StaysOpen(l: Limits, s: State, from: int, before: int) {
    forall run :: ValidRun(s, run) && Within(run, from, before) ==> Exec(l, s, run).m.state == Open
  }

  /** No stamp that is stored or held runs out before a time, and nobody has passed the
      timeout check. */
  ghost predicate HoldsUntil(l: Limits, s: State, before: int) {
    && before <= s.m.openedAt + l.openTimeout
    && forall g :: 0 <= g < |s.gs| ==>
         && !PastCheck(s.gs[g].pc)
         && (HeldStamp(s.gs[g].pc).Some? ==> before <= HeldStamp(s.gs[g].pc).value + l.openTimeout)
  }

  lemma {:induction false} TimeoutHolds(l: Limits, s: State, run: seq<Step>, from: int, before: int)
    requires s.m.state == Open && HoldsUntil(l, s, before) && before <= from + l.openTimeout
    requires ValidRun(s, run) && Within(run, from, before)
    ensures Exec(l, s, run).m.state == Open
    decreases |run|
  {
    if run != [] {
      var step := run[0];
      assert step in run;
      AccessWhileOpen(l, s.m, step.g, s.gs[step.g].pc, step.fn, step.now);
      RememberKeepsPc(l, s, step);
      assert HoldsUntil(l, Apply(l, s, step), before);
      TimeoutHolds(l, Apply(l, s, step), run[1..], from, before);
    }
  }

  /** Goroutine g alone, n accesses, all at one clock reading. */
  function Alone(g: nat, fn: FnOutcome, n: nat, now: int): seq<Step> {
    if n == 0 then [] else [Step(g, fn, now)] + Alone(g, fn, n - 1, now)
  }

  lemma {:induction false} AloneIsValid(s: State, g: nat, fn: FnOutcome, n: nat, now: int)
    requires g < |s.gs|
    ensures ValidRun(s, Alone(g, fn, n, now)) && forall step :: step in Alone(g, fn, n, now) ==> step.now == now
  {
    if n > 0 {
      AloneIsValid(s, g, fn, n - 1, now);
    }
  }

  lemma {:induction false} AloneSplits(g: nat, fn: FnOutcome, n: nat, now: int)
    requires n > 0
    ensures var run := Alone(g, fn, n, now);
            run != [] && run[0] == Step(g, fn, now) && run[1..] == Alone(g, fn, n - 1, now)
  {
  }

  /** Steps from pc to the far side of the swap that ends Open. */
  function StepsToSwap(pc: Pc): nat {
    match pc
    case Idle => 5
    case LoadState => 4
    case LoadStamp => 3
    case CompareTimeout(_) => 2
    case _ => 1
  }

  /** At this clock reading pc leads on through the timeout check, or is past it. */
  predicate Passes(l: Limits, m: Memory, pc: Pc, now: int) {
    match pc
    case SwapOpenToHalf => true
    case CompareTimeout(o) => now - o >= l.openTimeout
    case Idle => now - m.openedAt >= l.openTimeout
    case LoadState => now - m.openedAt >= l.openTimeout
    case LoadStamp => now - m.openedAt >= l.openTimeout
    case _ => false
  }

  /** On an Open breaker such a goroutine takes one step nearer to ending it. */
  lemma {:induction false} OneStepNearer(l: Limits, s: State, g: nat, now: int)
    requires s.m.state == Open && g < |s.gs| && Passes(l, s.m, s.gs[g].pc, now)
    ensures var t := Apply(l, s, Step(g, Succeeds, now));
            if PastCheck(s.gs[g].pc) then t.m.state == HalfOpen
            else t.m == s.m && |t.gs| == |s.gs| && Passes(l, t.m, t.gs[g].pc, now)
                 && MayEndOpen(t.gs[g].pc) && StepsToSwap(t.gs[g].pc) == StepsToSwap(s.gs[g].pc) - 1
  {
  }

  lemma {:induction false} EndsOpen(l: Limits, s: State, g: nat, now: int)
    requires s.m.state == Open && g < |s.gs| && Passes(l, s.m, s.gs[g].pc, now)
    ensures var run := Alone(g, Succeeds, StepsToSwap(s.gs[g].pc), now);
            ValidRun(s, run) && Exec(l, s, run).m.state == HalfOpen
    decreases StepsToSwap(s.gs[g].pc)
  {
    var n := StepsToSwap(s.gs[g].pc);
    AloneIsValid(s, g, Succeeds, n, now);
    AloneSplits(g, Succeeds, n, now);
    OneStepNearer(l, s, g, now);
    if !PastCheck(s.gs[g].pc) {
      EndsOpen(l, Apply(l, s, Step(g, Succeeds, now)), g, now);
    }
  }

  lemma {:induction false} LeavesOpen(l: Limits, s: State, g: nat, now: int, from: int, before: int)
    requires s.m.state == Open && g < |s.gs| && from <= now < before && Passes(l, s.m, s.gs[g].pc, now)
    ensures !StaysOpen(l, s, from, before)
  {
    var n := StepsToSwap(s.gs[g].pc);
    AloneIsValid(s, g, Succeeds, n, now);
    EndsOpen(l, s, g, now);
  }

  /** A held stamp that is too old ends Open early: compared, it passes; stored, it
      lets the next caller pass. */
  lemma {:induction false} OldStampLeavesOpen(l: Limits, s: State, from: int, before: int, caller: nat, g: nat)
    requires s.m.state == Open && from < before
    requires caller < |s.gs| && s.gs[caller].pc.Idle?
    requires g < |s.gs| && HeldStamp(s.gs[g].pc).Some? && before > HeldStamp(s.gs[g].pc).value + l.openTimeout
    ensures !StaysOpen(l, s, from, before)
  {
    if s.gs[g].pc.CompareTimeout? {
      LeavesOpen(l, s, g, before - 1, from, before);
    } else {
      var store := Step(g, Succeeds, from);
      var t := Apply(l, s, store);
      assert t.m.state == Open && t.m.openedAt == HeldStamp(s.gs[g].pc).value && t.gs[caller] == s.gs[caller];
      LeavesOpen(l, t, caller, before - 1, from, before);
      var run :| ValidRun(t, run) && Within(run, from, before) && Exec(l, t, run).m.state != Open;
      var all := [store] + run;
      assert all[1..] == run;
      assert ValidRun(s, all) && Within(all, from, before);
    }
  }

  /** How long Open lasts. With somebody free to call and a clock that has not gone back,
      an Open breaker stays Open at all readings before a time exactly when no stamp runs
      out before it, neither the one stored in openedAt nor any that a goroutine has
      loaded and not yet compared, or read off the clock and not yet stored, and nobody
      has passed the timeout check. */
  lemma {:induction false} OpenLastsExactly(l: Limits, s: State, from: int, before: int, caller: nat)
    requires s.m.state == Open && s.m.openedAt <= from < before
    requires caller < |s.gs| && s.gs[caller].pc.Idle?
    ensures StaysOpen(l, s, from, before) <==> HoldsUntil(l, s, before)
  {
    if HoldsUntil(l, s, before) {
      forall run | ValidRun(s, run) && Within(run, from, before) ensures Exec(l, s, run).m.state == Open {
        TimeoutHolds(l, s, run, from, before);
      }
    } else if before > s.m.openedAt + l.openTimeout {
      LeavesOpen(l, s, caller, before - 1, from, before);
    } else if g :| 0 <= g < |s.gs| && PastCheck(s.gs[g].pc) {
      LeavesOpen(l, s, g, from, from, before);
    } else {
      var g :| 0 <= g < |s.gs| && HeldStamp(s.gs[g].pc).Some?
               && before > HeldStamp(s.gs[g].pc).value + l.openTimeout;
      OldStampLeavesOpen(l, s, from, before, caller, g);
    }
  }

  /** Steps of a failing call from pc to the far side of the swap that trips. */
  function StepsToTrip(pc: Pc): nat {
    if pc.Idle? then 5 else if pc.LoadState? then 4 else if pc.InFn? then 3 else if pc.AddFailure? then 2 else 1
  }

  lemma {:induction false} Trips(l: Limits, s: State, g: nat, now: int)
    requires s.m.state == Closed && g < |s.gs|
    requires var pc := s.gs[g].pc;
             pc.SwapClosedToOpen?
             || ((pc.Idle? || pc.LoadState? || pc.InFn? || pc.AddFailure?) && s.m.failures + 1 >= l.failureThreshold)
    ensures var run := Alone(g, Fails, StepsToTrip(s.gs[g].pc), now);
            && ValidRun(s, run)
            && var t := Exec(l, s, run);
               && t.m.state == Open && t.m.openedAt == s.m.openedAt && t.m.inFlight == s.m.inFlight
               && t.gs[g].pc == StampTrip
               && forall h :: 0 <= h < |s.gs| && h != g ==> t.gs[h] == s.gs[h]
    decreases StepsToTrip(s.gs[g].pc)
  {
    var pc, n := s.gs[g].pc, StepsToTrip(s.gs[g].pc);
    AloneIsValid(s, g, Fails, n, now);
    AloneSplits(g, Fails, n, now);
    RememberKeepsPc(l, s, Step(g, Fails, now));
    if !pc.SwapClosedToOpen? {
      Trips(l, Apply(l, s, Step(g, Fails, now)), g, now);
    }
  }

  /** Open need not last at all: the trip's swap comes before its store of openedAt, and
      a call between the two reads the stamp of an earlier opening. From any Closed state
      one failure short of the threshold, whose last opening is at least OpenTimeout ago
      (a new breaker holds stamp 0), two callers can trip it and have it HalfOpen again
      before the clock moves. */
  lemma {:induction false} OpenCanEndAtOnce(l: Limits, s: State, g: nat, h: nat, now: int)
    returns (trip: seq<Step>, rest: seq<Step>)
    requires s.m.state == Closed && s.m.failures + 1 >= l.failureThreshold && now - s.m.openedAt >= l.openTimeout
    requires g < |s.gs| && h < |s.gs| && g != h && s.gs[g].pc.Idle? && s.gs[h].pc.Idle?
    ensures ValidRun(s, trip) && Exec(l, s, trip).m.state == Open
    ensures ValidRun(Exec(l, s, trip), rest) && Exec(l, Exec(l, s, trip), rest).m.state == HalfOpen
    ensures forall step :: step in trip + rest ==> step.now == now
  {
    Trips(l, s, g, now);
    trip := Alone(g, Fails, 5, now);
    AloneIsValid(s, g, Fails, 5, now);
    var t := Exec(l, s, trip);
    EndsOpen(l, t, h, now);
    rest := Alone(h, Succeeds, 5, now);
    AloneIsValid(t, h, Succeeds, 5, now);
  }

  // ---- recovery behind the filter ----

  /** A run of calls that all come through the orchestrator: a goroutine starts an
      Execute only when its filter did not read Open. */
  ghost predicate FilteredRun(l: Limits, s: State, run: seq<Step>)
    decreases |run|
  {
    run == []
    || (run[0].g < |s.gs|
        && (s.gs[run[0].g].pc.Idle? ==> s.m.state != Open)
        && FilteredRun(l, Apply(l, s, run[0]), run[1..]))
  }

  ghost predicate NotBefore(run: seq<Step>, from: int) {
    forall step :: step in run ==> step.now >= from
  }

  /** A run that reads the clock at from or later ends Open. */
  ghost predicate CanRecover(l: Limits, s: State, from: int) {
    exists run ::
      ValidRun(s, run) && NotBefore(run, from) && FilteredRun(l, s, run) && Exec(l, s, run).m.state != Open
  }

  ghost predicate SomebodyMayEndOpen(s: State) {
    exists g :: 0 <= g < |s.gs| && MayEndOpen(s.gs[g].pc)
  }

  lemma {:induction false} StaysShut(l: Limits, s: State, run: seq<Step>)
    requires s.m.state == Open && !SomebodyMayEndOpen(s)
    requires ValidRun(s, run) && FilteredRun(l, s, run)
    ensures Exec(l, s, run).m.state == Open
    decreases |run|
  {
    if run != [] {
      var step := run[0];
      AccessWhileOpen(l, s.m, step.g, s.gs[step.g].pc, step.fn, step.now);
      RememberKeepsPc(l, s, step);
      StaysShut(l, Apply(l, s, step), run[1..]);
    }
  }

  lemma {:induction false} AloneIsFiltered(l: Limits, s: State, g: nat, now: int)
    requires s.m.state == Open && g < |s.gs| && !s.gs[g].pc.Idle? && Passes(l, s.m, s.gs[g].pc, now)
    ensures FilteredRun(l, s, Alone(g, Succeeds, StepsToSwap(s.gs[g].pc), now))
    decreases StepsToSwap(s.gs[g].pc)
  {
    AloneSplits(g, Succeeds, StepsToSwap(s.gs[g].pc), now);
    OneStepNearer(l, s, g, now);
    if !PastCheck(s.gs[g].pc) {
      AloneIsFiltered(l, Apply(l, s, Step(g, Succeeds, now)), g, now);
    }
  }

  /** Waiting does not bring an Open carrier back: through the orchestrator its breaker
      can leave Open exactly if some call that passed the filter earlier has still to
      make its swap. If every call has returned, it is Open for good. */
  lemma {:induction false} RecoversExactlyIf(l: Limits, s: State, from: int)
    requires s.m.state == Open
    ensures CanRecover(l, s, from) <==> SomebodyMayEndOpen(s)
  {
    if SomebodyMayEndOpen(s) {
      var g :| 0 <= g < |s.gs| && MayEndOpen(s.gs[g].pc);
      var over := l.openTimeout + if s.gs[g].pc.CompareTimeout? then s.gs[g].pc.o else s.m.openedAt;
      var now := if over < from then from else over;
      EndsOpen(l, s, g, now);
      AloneIsFiltered(l, s, g, now);
      AloneIsValid(s, g, Succeeds, StepsToSwap(s.gs[g].pc), now);
      assert NotBefore(Alone(g, Succeeds, StepsToSwap(s.gs[g].pc), now), from);
    } else if CanRecover(l, s, from) {
      var run :| ValidRun(s, run) && NotBefore(run, from) && FilteredRun(l, s, run) && Exec(l, s, run).m.state != Open;
      StaysShut(l, s, run);
    }
  }
}
