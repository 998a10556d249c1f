/** What a circuit breaker should do, told by its call history alone: no counters,
    only the list of outcomes since the present phase began. */
module BreakerHistory {
  datatype CBState = Closed | Open | HalfOpen

  /** How the guarded function ends. A panic unwinds through the breaker. */
  datatype FnOutcome = Succeeds | Fails | Panics

  /** One call: the clock when it checks the timeout, how the guarded function would
      end, and the clock if it stamps an opening. */
  datatype Call = Call(checkTime: int, fn: FnOutcome, stampTime: int)

  /** Thresholds are the effective ones, after defaults. */
  datatype Limits = Limits(failureThreshold: int, successThreshold: int, openTimeout: int)

  ghost predicate ValidLimits(l: Limits) {
    l.failureThreshold > 0 && l.successThreshold > 0 && l.openTimeout > 0
  }

  datatype Phase =
    | InClosed(since: seq<FnOutcome>)
    | InOpen(at: int)
    | InHalfOpen(since: seq<FnOutcome>)

  function StateOf(p: Phase): CBState {
    match p
    case InClosed(_) => Closed
    case InOpen(_) => Open
    case InHalfOpen(_) => HalfOpen
  }

  /** Panics touch no counter, so they do not interrupt a streak. */
  function Counted(outcomes: seq<FnOutcome>): seq<FnOutcome> {
    if outcomes == [] then []
    else
      var n := |outcomes| - 1;
      Counted(outcomes[..n]) + if outcomes[n].Panics? then [] else [outcomes[n]]
  }

  /** The last k counted outcomes exist and are all failures. */
  ghost predicate EndsWithFailures(outcomes: seq<FnOutcome>, k: int) {
    var c := Counted(outcomes);
    k <= |c| && forall i :: |c| - k <= i < |c| && 0 <= i ==> c[i].Fails?
  }

  ghost predicate Rejects(l: Limits, p: Phase, c: Call) {
    p.InOpen? && c.checkTime - p.at < l.openTimeout
  }

  /** A probe, sent while the outcomes of the earlier probes of this phase are known. */
  ghost function AfterProbe(l: Limits, probes: seq<FnOutcome>, c: Call): Phase {
    var all := probes + [c.fn];
    match c.fn
    case Fails => InOpen(c.stampTime)
    case Succeeds => if |Counted(all)| >= l.successThreshold then InClosed([]) else InHalfOpen(all)
    case Panics => InHalfOpen(all)
  }

  ghost function NextPhase(l: Limits, p: Phase, c: Call): Phase {
    match p
    case InClosed(since) =>
      var all := since + [c.fn];
      if c.fn.Fails? && EndsWithFailures(all, l.failureThreshold) then InOpen(c.stampTime) else InClosed(all)
    case InOpen(_) => if Rejects(l, p, c) then p else AfterProbe(l, [], c)
    case InHalfOpen(probes) => AfterProbe(l, probes, c)
  }

  /** The transitions a call reports to the metrics, in order. */
  ghost function Crossings(l: Limits, p: Phase, c: Call): seq<(CBState, CBState)> {
    if Rejects(l, p, c) then []
    else
      var start := if p.InOpen? then HalfOpen else StateOf(p);
      var end := StateOf(NextPhase(l, p, c));
      (if p.InOpen? then [(Open, HalfOpen)] else []) + (if start == end then [] else [(start, end)])
  }

  ghost function PhaseAfter(l: Limits, calls: seq<Call>): Phase {
    if calls == [] then InClosed([])
    else NextPhase(l, PhaseAfter(l, calls[..|calls| - 1]), calls[|calls| - 1])
  }

  // ---- counters as streaks ----

  /** The failure counter: failures since the last success. */
  function TrailingFailures(outcomes: seq<FnOutcome>): nat {
    if outcomes == [] then 0
    else
      var n := |outcomes| - 1;
      match outcomes[n]
      case Fails => TrailingFailures(outcomes[..n]) + 1
      case Succeeds => 0
      case Panics => TrailingFailures(outcomes[..n])
  }

  /** The counter reaches k exactly when the last k counted outcomes are failures. */
  lemma {:induction false} CounterIsStreak(outcomes: seq<FnOutcome>, k: nat)
    ensures TrailingFailures(outcomes) >= k <==> EndsWithFailures(outcomes, k)
  {
    if outcomes != [] {
      var n := |outcomes| - 1;
      var c, front := Counted(outcomes), Counted(outcomes[..n]);
      match outcomes[n] {
        case Fails =>
          assert c == front + [Fails];
          if k > 0 {
            CounterIsStreak(outcomes[..n], k - 1);
            if EndsWithFailures(outcomes, k) {
              assert forall i :: 0 <= i < |front| ==> front[i] == c[i];
            }
          }
        case Succeeds =>
          assert c[|c| - 1] == Succeeds;
        case Panics =>
          assert c == front;
          CounterIsStreak(outcomes[..n], k);
      }
    }
  }

  // ---- what the phases mean over a whole history ----

  function Outcomes(calls: seq<Call>): seq<FnOutcome> {
    seq(|calls|, i requires 0 <= i < |calls| => calls[i].fn)
  }

  ghost function PhaseAt(l: Limits, calls: seq<Call>, n: nat): Phase
    requires n <= |calls|
  {
    PhaseAfter(l, calls[..n])
  }

  /** The breaker has been Closed since just after the first m calls, and not before. */
  ghost predicate ClosedSince(l: Limits, calls: seq<Call>, m: nat) {
    && m <= |calls|
    && (forall n: nat :: m <= n <= |calls| ==> PhaseAt(l, calls, n).InClosed?)
    && (m == 0 || !PhaseAt(l, calls, m - 1).InClosed?)
  }

  /** Call m found the breaker Open past its timeout and was the first probe; it has
      been HalfOpen ever since. */
  ghost predicate HalfOpenSince(l: Limits, calls: seq<Call>, m: nat) {
    && m < |calls|
    && (forall n: nat :: m < n <= |calls| ==> PhaseAt(l, calls, n).InHalfOpen?)
    && PhaseAt(l, calls, m).InOpen?
  }

  /** Call m - 1 failed and opened the breaker, by completing a streak or as a probe, and
      its stamp is at; every call since came before the timeout was over and was refused. */
  ghost predicate OpenSince(l: Limits, calls: seq<Call>, m: nat, at: int) {
    && 0 < m <= |calls|
    && var opening, before := calls[m - 1], PhaseAt(l, calls, m - 1);
       && opening.fn.Fails? && at == opening.stampTime
       && (match before
           case InClosed(since) => EndsWithFailures(since + [Fails], l.failureThreshold)
           case InOpen(earlier) => opening.checkTime - earlier >= l.openTimeout
           case InHalfOpen(_) => true)
       && (forall n: nat :: m <= n <= |calls| ==> PhaseAt(l, calls, n) == InOpen(at))
       && (forall n: nat :: m <= n < |calls| ==> calls[n].checkTime - at < l.openTimeout)
  }

  ghost predicate NoStreakYet(l: Limits, since: seq<FnOutcome>) {
    forall n :: 0 <= n <= |since| ==> !EndsWithFailures(since[..n], l.failureThreshold)
  }

  ghost predicate AllSucceed(outcomes: seq<FnOutcome>) {
    forall i :: 0 <= i < |Counted(outcomes)| ==> Counted(outcomes)[i].Succeeds?
  }

  ghost predicate PhaseMeans(l: Limits, calls: seq<Call>, p: Phase) {
    match p
    case InClosed(since) =>
      && (exists m: nat :: ClosedSince(l, calls, m) && since == Outcomes(calls[m..]))
      && NoStreakYet(l, since)
    case InOpen(at) => exists m: nat :: OpenSince(l, calls, m, at)
    case InHalfOpen(probes) =>
      && (exists m: nat :: HalfOpenSince(l, calls, m) && probes == Outcomes(calls[m..]))
      && AllSucceed(probes)
      && |Counted(probes)| < l.successThreshold
  }

  lemma {:induction false} CountedAppend(outcomes: seq<FnOutcome>, o: FnOutcome)
    ensures Counted(outcomes + [o]) == Counted(outcomes) + if o.Panics? then [] else [o]
  {
    assert (outcomes + [o])[..|outcomes|] == outcomes;
  }

  lemma {:induction false} PhaseAppend(l: Limits, front: seq<Call>, c: Call)
    ensures PhaseAfter(l, front + [c]) == NextPhase(l, PhaseAfter(l, front), c)
    ensures forall n: nat :: n <= |front| ==> PhaseAt(l, front + [c], n) == PhaseAt(l, front, n)
    ensures PhaseAt(l, front + [c], |front| + 1) == PhaseAfter(l, front + [c])
    ensures PhaseAt(l, front, |front|) == PhaseAfter(l, front)
  {
    assert (front + [c])[..|front|] == front == front[..|front|];
    assert (front + [c])[..|front| + 1] == front + [c];
    forall n: nat | n <= |front| ensures PhaseAt(l, front + [c], n) == PhaseAt(l, front, n) {
      assert (front + [c])[..n] == front[..n];
    }
  }

  lemma {:induction false} OutcomesAppend(front: seq<Call>, c: Call, m: nat)
    requires m <= |front|
    ensures Outcomes((front + [c])[m..]) == Outcomes(front[m..]) + [c.fn]
  {
    assert (front + [c])[m..] == front[m..] + [c];
  }

  /** A success or a panic never completes a streak that was not complete before. */
  lemma {:induction false} OnlyFailuresCompleteStreaks(outcomes: seq<FnOutcome>, o: FnOutcome, k: nat)
    requires k > 0 && !o.Fails? && !EndsWithFailures(outcomes, k)
    ensures !EndsWithFailures(outcomes + [o], k)
  {
    CountedAppend(outcomes, o);
    var c := Counted(outcomes + [o]);
    assert o.Panics? ==> c == Counted(outcomes);
    assert o.Succeeds? ==> c[|c| - 1] == o;
  }

  lemma {:induction false} AllSucceedAppend(outcomes: seq<FnOutcome>, o: FnOutcome)
    requires AllSucceed(outcomes) && !o.Fails?
    ensures AllSucceed(outcomes + [o])
  {
    CountedAppend(outcomes, o);
  }

  lemma {:induction false} NoStreakGrows(l: Limits, since: seq<FnOutcome>, o: FnOutcome)
    requires NoStreakYet(l, since) && !EndsWithFailures(since + [o], l.failureThreshold)
    ensures NoStreakYet(l, since + [o])
  {
    var all := since + [o];
    forall n | 0 <= n <= |all| ensures !EndsWithFailures(all[..n], l.failureThreshold) {
      if n <= |since| {
        assert all[..n] == since[..n];
      } else {
        assert all[..n] == all;
      }
    }
  }

  lemma {:induction false} StillClosed(l: Limits, front: seq<Call>, c: Call, since: seq<FnOutcome>)
    requires ValidLimits(l)
    requires PhaseAfter(l, front) == InClosed(since) && PhaseMeans(l, front, InClosed(since))
    requires PhaseAfter(l, front + [c]).InClosed?
    ensures PhaseAfter(l, front + [c]) == InClosed(since + [c.fn])
    ensures PhaseMeans(l, front + [c], InClosed(since + [c.fn]))
  {
    PhaseAppend(l, front, c);
    var m: nat :| ClosedSince(l, front, m) && since == Outcomes(front[m..]);
    OutcomesAppend(front, c, m);
    assert ClosedSince(l, front + [c], m);
    assert since[..|since|] == since;
    if !c.fn.Fails? {
      OnlyFailuresCompleteStreaks(since, c.fn, l.failureThreshold);
    }
    NoStreakGrows(l, since, c.fn);
  }

  lemma {:induction false} JustClosed(l: Limits, front: seq<Call>, c: Call)
    requires ValidLimits(l)
    requires !PhaseAfter(l, front).InClosed? && PhaseAfter(l, front + [c]) == InClosed([])
    ensures PhaseMeans(l, front + [c], InClosed([]))
  {
    PhaseAppend(l, front, c);
    var calls := front + [c];
    assert calls[|calls|..] == [];
    assert ClosedSince(l, calls, |calls|);
    assert Outcomes(calls[|calls|..]) == [];
  }

  lemma {:induction false} JustOpened(l: Limits, front: seq<Call>, c: Call, at: int)
    requires !Rejects(l, PhaseAfter(l, front), c) && PhaseAfter(l, front + [c]) == InOpen(at)
    ensures PhaseMeans(l, front + [c], InOpen(at))
  {
    PhaseAppend(l, front, c);
    var calls := front + [c];
    assert calls[..|calls|] == calls;
    assert OpenSince(l, calls, |calls|, at);
  }

  lemma {:induction false} RefusalKeepsPhase(l: Limits, front: seq<Call>, c: Call, m: nat, at: int)
    requires OpenSince(l, front, m, at) && Rejects(l, InOpen(at), c)
    ensures PhaseAt(l, front + [c], m - 1) == PhaseAt(l, front, m - 1)
    ensures forall n: nat :: m <= n <= |front| + 1 ==> PhaseAt(l, front + [c], n) == InOpen(at)
  {
    PhaseAppend(l, front, c);
    assert PhaseAfter(l, front) == PhaseAt(l, front, |front|) == InOpen(at);
    forall n: nat | m <= n <= |front| + 1 ensures PhaseAt(l, front + [c], n) == InOpen(at) {
      if n <= |front| {
        assert PhaseAt(l, front + [c], n) == PhaseAt(l, front, n);
      }
    }
  }

  lemma {:induction false} StillOpen(l: Limits, front: seq<Call>, c: Call, at: int)
    requires PhaseMeans(l, front, InOpen(at)) && Rejects(l, InOpen(at), c)
    ensures PhaseMeans(l, front + [c], InOpen(at))
  {
    var m: nat :| OpenSince(l, front, m, at);
    var calls := front + [c];
    RefusalKeepsPhase(l, front, c, m, at);
    assert calls[m - 1] == front[m - 1];
    assert forall n: nat :: m <= n < |calls| ==> calls[n] == if n < |front| then front[n] else c;
    assert OpenSince(l, calls, m, at);
  }

  lemma {:induction false} FirstProbe(l: Limits, front: seq<Call>, c: Call)
    requires ValidLimits(l)
    requires PhaseAfter(l, front).InOpen? && PhaseAfter(l, front + [c]).InHalfOpen?
    ensures PhaseAfter(l, front + [c]) == InHalfOpen([c.fn])
    ensures PhaseMeans(l, front + [c], InHalfOpen([c.fn]))
  {
    PhaseAppend(l, front, c);
    FirstProbePhase(l, PhaseAfter(l, front), c);
    OutcomesAppend(front, c, |front|);
    assert Outcomes(front[|front|..]) == [];
    assert HalfOpenSince(l, front + [c], |front|);
  }

  lemma {:induction false} FirstProbePhase(l: Limits, p: Phase, c: Call)
    requires p.InOpen? && NextPhase(l, p, c).InHalfOpen?
    ensures NextPhase(l, p, c) == InHalfOpen([c.fn])
    ensures AllSucceed([c.fn]) && |Counted([c.fn])| < (if c.fn.Succeeds? then l.successThreshold else 1)
  {
    assert [] + [c.fn] == [c.fn];
    CountedAppend([], c.fn);
  }

  lemma {:induction false} StillProbing(l: Limits, front: seq<Call>, c: Call, probes: seq<FnOutcome>)
    requires ValidLimits(l)
    requires PhaseAfter(l, front) == InHalfOpen(probes) && PhaseMeans(l, front, InHalfOpen(probes))
    requires PhaseAfter(l, front + [c]).InHalfOpen?
    ensures PhaseAfter(l, front + [c]) == InHalfOpen(probes + [c.fn])
    ensures PhaseMeans(l, front + [c], InHalfOpen(probes + [c.fn]))
  {
    PhaseAppend(l, front, c);
    assert NextPhase(l, InHalfOpen(probes), c) == AfterProbe(l, probes, c);
    ProbesStayBelowThreshold(l, probes, c);
    var m: nat :| HalfOpenSince(l, front, m) && probes == Outcomes(front[m..]);
    HalfOpenSinceGrows(l, front, c, m);
  }

  lemma {:induction false} HalfOpenSinceGrows(l: Limits, front: seq<Call>, c: Call, m: nat)
    requires HalfOpenSince(l, front, m) && PhaseAfter(l, front + [c]).InHalfOpen?
    ensures HalfOpenSince(l, front + [c], m)
    ensures Outcomes((front + [c])[m..]) == Outcomes(front[m..]) + [c.fn]
  {
    PhaseAppend(l, front, c);
    OutcomesAppend(front, c, m);
  }

  lemma {:induction false} ProbesStayBelowThreshold(l: Limits, probes: seq<FnOutcome>, c: Call)
    requires |Counted(probes)| < l.successThreshold && AllSucceed(probes)
    requires AfterProbe(l, probes, c).InHalfOpen?
    ensures AfterProbe(l, probes, c) == InHalfOpen(probes + [c.fn])
    ensures |Counted(probes + [c.fn])| < l.successThreshold && AllSucceed(probes + [c.fn])
  {
    CountedAppend(probes, c.fn);
    AllSucceedAppend(probes, c.fn);
  }

  /** In every history, Closed holds exactly the outcomes since it was entered and no
      complete streak among them; Open holds the stamp of the failed call that opened it,
      and every later call came within the timeout of it; and HalfOpen holds exactly the probes, fewer than
      SuccessThreshold of them counted and none a failure. */
  lemma {:induction false} PhasesMeanWhatTheySay(l: Limits, calls: seq<Call>)
    requires ValidLimits(l)
    ensures PhaseMeans(l, calls, PhaseAfter(l, calls))
    decreases |calls|
  {
    if calls == [] {
      assert ClosedSince(l, calls, 0);
      assert Outcomes(calls[0..]) == [];
    } else {
      var front, c := calls[..|calls| - 1], calls[|calls| - 1];
      assert calls == front + [c];
      PhasesMeanWhatTheySay(l, front);
      PhaseAppend(l, front, c);
      match PhaseAfter(l, front) {
        case InClosed(since) =>
          if PhaseAfter(l, calls).InClosed? {
            StillClosed(l, front, c, since);
          } else {
            JustOpened(l, front, c, c.stampTime);
          }
        case InOpen(at) =>
          if Rejects(l, InOpen(at), c) {
            StillOpen(l, front, c, at);
          } else if PhaseAfter(l, calls).InHalfOpen? {
            FirstProbe(l, front, c);
          } else if PhaseAfter(l, calls).InClosed? {
            JustClosed(l, front, c);
          } else {
            JustOpened(l, front, c, c.stampTime);
          }
        case InHalfOpen(probes) =>
          if PhaseAfter(l, calls).InHalfOpen? {
            StillProbing(l, front, c, probes);
          } else if PhaseAfter(l, calls).InClosed? {
            JustClosed(l, front, c);
          } else {
            JustOpened(l, front, c, c.stampTime);
          }
      }
    }
  }

  ghost predicate NoStreakBetween(l: Limits, calls: seq<Call>, m: nat) {
    forall k :: m <= k <= |calls| ==> !EndsWithFailures(Outcomes(calls[m..k]), l.failureThreshold)
  }

  lemma {:induction false} NoStreakInCalls(l: Limits, calls: seq<Call>, m: nat)
    requires m <= |calls| && NoStreakYet(l, Outcomes(calls[m..]))
    ensures NoStreakBetween(l, calls, m)
  {
    var since := Outcomes(calls[m..]);
    forall k | m <= k <= |calls| ensures !EndsWithFailures(Outcomes(calls[m..k]), l.failureThreshold) {
      assert Outcomes(calls[m..k]) == since[..k - m];
    }
  }

  /** What a Closed breaker does with the next call, given since when it is Closed. */
  ghost predicate TripRule(l: Limits, front: seq<Call>, c: Call, m: nat) {
    && ClosedSince(l, front, m)
    && NoStreakBetween(l, front, m)
    && var next := PhaseAfter(l, front + [c]);
       if EndsWithFailures(Outcomes((front + [c])[m..]), l.failureThreshold)
       then next == InOpen(c.stampTime)
       else next.InClosed?
  }

  /** A Closed breaker trips at a call exactly when that call completes a streak of
      FailureThreshold failures among the calls made since the breaker was last
      Closed, and no earlier call of that stretch had completed one. */
  lemma {:induction false} TripsExactlyOnThreshold(l: Limits, front: seq<Call>, c: Call)
    requires ValidLimits(l) && PhaseAfter(l, front).InClosed?
    ensures exists m: nat :: TripRule(l, front, c, m)
  {
    PhasesMeanWhatTheySay(l, front);
    PhaseAppend(l, front, c);
    var since := PhaseAfter(l, front).since;
    var m: nat :| ClosedSince(l, front, m) && since == Outcomes(front[m..]);
    OutcomesAppend(front, c, m);
    NoStreakInCalls(l, front, m);
    assert since[..|since|] == since;
    if !c.fn.Fails? {
      OnlyFailuresCompleteStreaks(since, c.fn, l.failureThreshold);
    }
    assert TripRule(l, front, c, m);
  }

  /** What a HalfOpen breaker does with the next call, given which call probed first. */
  ghost predicate ProbeRule(l: Limits, front: seq<Call>, c: Call, m: nat) {
    && HalfOpenSince(l, front, m)
    && AllSucceed(Outcomes(front[m..]))
    && var next := PhaseAfter(l, front + [c]);
       && (if c.fn.Fails? then next == InOpen(c.stampTime) else !next.InOpen?)
       && (next.InClosed? <==>
             c.fn.Succeeds? && |Counted(Outcomes((front + [c])[m..]))| == l.successThreshold)
  }

  /** A HalfOpen breaker closes at a call exactly when that call is the
      SuccessThreshold-th successful probe, all earlier counted probes of the same
      stretch having succeeded; it reopens exactly on a failed probe. */
  lemma {:induction false} ClosesExactlyOnThreshold(l: Limits, front: seq<Call>, c: Call)
    requires ValidLimits(l) && PhaseAfter(l, front).InHalfOpen?
    ensures exists m: nat :: ProbeRule(l, front, c, m)
  {
    PhasesMeanWhatTheySay(l, front);
    PhaseAppend(l, front, c);
    var probes := PhaseAfter(l, front).since;
    var m: nat :| HalfOpenSince(l, front, m) && probes == Outcomes(front[m..]);
    OutcomesAppend(front, c, m);
    CountedAppend(probes, c.fn);
    assert ProbeRule(l, front, c, m);
  }

  /** What an Open breaker does with the next call, given which call opened it. */
  ghost predicate OpenRule(l: Limits, front: seq<Call>, c: Call, m: nat) {
    && 0 < m <= |front|
    && var at := front[m - 1].stampTime;
       && OpenSince(l, front, m, at)
       && var next := PhaseAfter(l, front + [c]);
          if c.checkTime - at < l.openTimeout then next == InOpen(at)
          else match c.fn
               case Fails => next == InOpen(c.stampTime)
               case Succeeds => if l.successThreshold == 1 then next == InClosed([]) else next == InHalfOpen([c.fn])
               case Panics => next == InHalfOpen([c.fn])
  }

  /** An Open breaker refuses a call exactly when it comes within OpenTimeout of the stamp
      of the failed call that opened it; the first later one is its probe. */
  lemma {:induction false} OpensExactlyForTheTimeout(l: Limits, front: seq<Call>, c: Call)
    requires ValidLimits(l) && PhaseAfter(l, front).InOpen?
    ensures exists m: nat :: OpenRule(l, front, c, m)
    ensures forall m: nat :: OpenRule(l, front, c, m) ==>
              (Rejects(l, PhaseAfter(l, front), c) <==> c.checkTime - front[m - 1].stampTime < l.openTimeout)
  {
    PhasesMeanWhatTheySay(l, front);
    PhaseAppend(l, front, c);
    var at := PhaseAfter(l, front).at;
    var m: nat :| OpenSince(l, front, m, at);
    CountedAppend([], c.fn);
    assert [] + [c.fn] == [c.fn];
    assert OpenRule(l, front, c, m);
    forall n: nat | OpenRule(l, front, c, n)
      ensures Rejects(l, PhaseAfter(l, front), c) <==> c.checkTime - front[n - 1].stampTime < l.openTimeout
    {
      assert PhaseAt(l, front, |front|) == InOpen(front[n - 1].stampTime);
    }
  }

  /** The transitions a breaker can make. */
  predicate IsTransition(edge: (CBState, CBState)) {
    edge == (Closed, Open) || edge == (Open, HalfOpen) || edge == (HalfOpen, Open) || edge == (HalfOpen, Closed)
  }

  /** edges lead from one state to the other, each starting where the last one ended. */
  ghost predicate LeadsFromTo(edges: seq<(CBState, CBState)>, from: CBState, to: CBState)
    decreases |edges|
  {
    if edges == [] then from == to
    else IsTransition(edges[0]) && edges[0].0 == from && LeadsFromTo(edges[1..], edges[0].1, to)
  }

  /** What a call reports is a path of transitions from the state before it to the state
      after it; only a call that ends the timeout takes two, first to HalfOpen; and only a
      call that leaves the phase reports any. */
  lemma {:induction false} CrossingsAreThePath(l: Limits, p: Phase, c: Call)
    ensures LeadsFromTo(Crossings(l, p, c), StateOf(p), StateOf(NextPhase(l, p, c)))
    ensures Crossings(l, p, c) == [] <==>
            Rejects(l, p, c) || (!p.InOpen? && StateOf(NextPhase(l, p, c)) == StateOf(p))
    ensures |Crossings(l, p, c)| <= if p.InOpen? then 2 else 1
  {
    var edges := Crossings(l, p, c);
    if edges != [] {
      assert edges == [edges[0]] + edges[1..];
      assert LeadsFromTo(edges[1..], edges[0].1, StateOf(NextPhase(l, p, c)));
    }
  }
}
