/** The invariant of the whole fan-out, and what follows from it for every run. */
module FanOutTheorems {
  import opened Domain
  import opened Collector
  import opened Eligibility
  import opened FanOut
  import opened FanOutSafety
  import opened FanOutResults
  import opened FanOutProgress

  ghost predicate ClockInv(cfg: Config, s: State) {
    s.clock >= cfg.deadline ==> s.requestDone
  }

  ghost predicate Inv(cfg: Config, s: State)
    requires cfg.Valid()
  {
    && LaunchInv(cfg, s) && CloseInv(s) && CountInv(s) && HedgeInv(cfg, s) && OutcomeInv(cfg, s)
    && CallInv(cfg, s) && ChannelInv(s) && HedgeResultInv(cfg, s) && CollectInv(s)
    && DropInv(s) && ClockInv(cfg, s)
  }

  lemma {:induction false} NothingSentYet(ps: seq<PrimaryState>)
    requires forall i :: 0 <= i < |ps| ==> ps[i].delivered.None?
    ensures Sent(ps) == 0
    ensures forall q :: TimesSent(ps, q) == 0
  {
    if ps != [] {
      NothingSentYet(ps[..|ps| - 1]);
    }
  }

  lemma {:induction false} InitInv(cfg: Config, clock: int)
    requires cfg.Valid()
    ensures Inv(cfg, Init(cfg, clock))
  {
    var s := Init(cfg, clock);
    assert forall i :: 0 <= i < |s.primaries| ==> s.primaries[i] == PrimaryState(Unstarted, [], 0, 0, None);
    NothingSentYet(s.primaries);
    assert s.arrivals + s.buffer == [];
  }

  // ---- one step of each goroutine ----

  lemma {:induction false} PrimaryKeepsInv(cfg: Config, s: State, i: nat, step: PrimaryStep)
    requires cfg.Valid() && PrimaryEnabled(cfg, s, i, step) && Inv(cfg, s)
    ensures Inv(cfg, ApplyPrimary(cfg, s, i, step))
  {
    PrimaryKeepsOrder(cfg, s, i, step);
    PrimaryKeepsCount(cfg, s, i, step);
    PrimaryKeepsOutcomes(cfg, s, i, step);
    PrimaryKeepsCalls(cfg, s, i, step);
    PrimaryKeepsChannel(cfg, s, i, step);
    PrimaryKeepsDrops(cfg, s, i, step);
    var t := ApplyPrimary(cfg, s, i, step);
    SameHedgesKeepInv(cfg, s, t);
    assert t.hedges == s.hedges && t.arrivals == s.arrivals && t.collected == s.collected && t.main == s.main;
  }

  lemma {:induction false} MonitorKeepsInv(cfg: Config, s: State, step: MonitorStep)
    requires cfg.Valid() && MonitorEnabled(cfg, s, step) && Inv(cfg, s)
    ensures Inv(cfg, ApplyMonitor(cfg, s, step))
  {
    MonitorKeepsOrder(cfg, s, step);
    MonitorKeepsCount(cfg, s, step);
    MonitorKeepsHedges(cfg, s, step);
    MonitorKeepsResults(cfg, s, step);
    MonitorKeepsChannel(cfg, s, step);
  }

  lemma {:induction false} HedgeKeepsInv(cfg: Config, s: State, j: nat, step: HedgeStep)
    requires cfg.Valid() && HedgeEnabled(cfg, s, j, step) && Inv(cfg, s)
    ensures Inv(cfg, ApplyHedge(cfg, s, j, step))
  {
    HedgeKeepsOrder(cfg, s, j, step);
    HedgeKeepsCount(cfg, s, j, step);
    HedgeKeepsHedges(cfg, s, j, step);
    HedgeKeepsCalls(cfg, s, j, step);
    HedgeKeepsResults(cfg, s, j, step);
    HedgeKeepsChannel(cfg, s, j, step);
    var t := ApplyHedge(cfg, s, j, step);
    assert t.primaries == s.primaries && t.arrivals == s.arrivals && t.collected == s.collected && t.main == s.main;
  }

  lemma {:induction false} CloserKeepsInv(cfg: Config, s: State, step: CloserStep)
    requires cfg.Valid() && CloserEnabled(s, step) && Inv(cfg, s)
    ensures Inv(cfg, ApplyCloser(s, step))
  {
    CloserKeepsOrder(cfg, s, step);
    var t := ApplyCloser(s, step);
    SameHedgesKeepInv(cfg, s, t);
  }

  lemma {:induction false} MainKeepsInv(cfg: Config, s: State, step: MainStep)
    requires cfg.Valid() && MainEnabled(cfg, s, step) && Inv(cfg, s)
    ensures Inv(cfg, ApplyMain(cfg, s, step))
  {
    MainKeepsOrder(cfg, s, step);
    MainKeepsCount(cfg, s, step);
    MainKeepsOutcomes(cfg, s, step);
    MainKeepsChannel(cfg, s, step);
    MainKeepsCollected(cfg, s, step);
    SameHedgesKeepInv(cfg, s, ApplyMain(cfg, s, step));
  }

  lemma {:induction false} ClockKeepsInv(cfg: Config, s: State, step: ClockStep)
    requires cfg.Valid() && ClockEnabled(cfg, s, step) && Inv(cfg, s)
    ensures Inv(cfg, ApplyClock(cfg, s, step))
  {
    var t := ApplyClock(cfg, s, step);
    assert t == s.(clock := t.clock, tick := t.tick, requestDone := t.requestDone);
    SameHedgesKeepInv(cfg, s, t);
  }

  lemma {:induction false} StepKeepsInv(cfg: Config, s: State, step: Step)
    requires cfg.Valid() && Enabled(cfg, s, step) && Inv(cfg, s)
    ensures Inv(cfg, Apply(cfg, s, step))
  {
    match step
    case Primary(i, p) => PrimaryKeepsInv(cfg, s, i, p);
    case Monitor(m) => MonitorKeepsInv(cfg, s, m);
    case Hedger(j, h) => HedgeKeepsInv(cfg, s, j, h);
    case Closer(c) => CloserKeepsInv(cfg, s, c);
    case Main(n) => MainKeepsInv(cfg, s, n);
    case Clock(k) => ClockKeepsInv(cfg, s, k);
  }

  /** Along every run the invariant holds and the measure pays for every step. */
  lemma {:induction false} RunKeepsInv(cfg: Config, s: State, run: seq<Step>)
    requires cfg.Valid() && Inv(cfg, s) && ValidRun(cfg, s, run)
    ensures Inv(cfg, Exec(cfg, s, run))
    ensures |run| + Measure(cfg, Exec(cfg, s, run)) <= Measure(cfg, s)
    decreases |run|
  {
    if run != [] {
      StepKeepsInv(cfg, s, run[0]);
      StepDecreases(cfg, s, run[0]);
      RunKeepsInv(cfg, Apply(cfg, s, run[0]), run[1..]);
    }
  }

  lemma {:induction false} ReachableInv(cfg: Config, s: State)
    requires cfg.Valid() && Reachable(cfg, s)
    ensures Inv(cfg, s)
  {
    var clock, run :| ValidRun(cfg, Init(cfg, clock), run) && s == Exec(cfg, Init(cfg, clock), run);
    InitInv(cfg, clock);
    RunKeepsInv(cfg, Init(cfg, clock), run);
  }

  // ---- the channel is safe ----

  lemma {:induction false} RoomToSend(cfg: Config, s: State)
    requires cfg.Valid() && Inv(cfg, s)
    ensures |s.hedges| <= |s.hedged| <= |cfg.eligible|
    ensures |s.arrivals| + |s.buffer| <= cfg.Capacity()
    ensures (exists i :: 0 <= i < |s.primaries| && s.primaries[i].pc.Sending?) ==> HasRoom(cfg, s)
    ensures (exists j :: 0 <= j < |s.hedges| && s.hedges[j].pc.HSending?) ==> HasRoom(cfg, s)
  {
    PendingKeys(cfg.eligible, cfg.starts, cfg.Thresholds());
    assert |cfg.Pending().Keys| == |cfg.Pending()|;
    SubsetIsSmaller(s.hedged, cfg.Pending().Keys);
    SentAtMost(s.primaries);
    HedgeSentAtMost(s.hedges);
    if i :| 0 <= i < |s.primaries| && s.primaries[i].pc.Sending? {
      assert s.primaries[i].delivered.None?;
    }
    if j :| 0 <= j < |s.hedges| && s.hedges[j].pc.HSending? {
      assert s.hedges[j].delivered.None?;
    }
  }

  /** In every interleaving the results channel is closed at most once, exactly once
      by the time the fan-out returns, and nothing is ever sent on it afterwards: no
      goroutine panics, and none is left at a send once the channel is closed. */
  lemma {:induction false} ChannelIsClosedOnceAndLast(cfg: Config, s: State)
    requires cfg.Valid() && Reachable(cfg, s)
    ensures !s.panicked
    ensures s.closes == (if s.closed then 1 else 0)
    ensures s.main.Returned? ==> s.closed && s.closes == 1
    ensures s.closed ==> AllExited(s) && AllHedgesExited(s) && s.monitor.Stopped?
  {
    ReachableInv(cfg, s);
  }

  /** The buffer of two places per eligible carrier is never full when somebody wants
      to send, so a send never waits: while its context is live, a primary or hedge at
      its select can only deliver. */
  lemma {:induction false} SendsNeverBlock(cfg: Config, s: State)
    requires cfg.Valid() && Reachable(cfg, s)
    ensures |s.arrivals| + |s.buffer| <= cfg.Capacity() == 2 * |cfg.eligible|
    ensures forall i: nat :: i < |s.primaries| && s.primaries[i].pc.Sending? ==>
              Enabled(cfg, s, Primary(i, Send)) && !s.closed
              && (Enabled(cfg, s, Primary(i, Drop)) <==> GroupCtxDone(s))
    ensures forall j: nat :: j < |s.hedges| && s.hedges[j].pc.HSending? ==>
              Enabled(cfg, s, Hedger(j, HedgeSend)) && !s.closed
              && (Enabled(cfg, s, Hedger(j, HedgeDrop)) <==> HedgeCtxDone(s))
  {
    ReachableInv(cfg, s);
    RoomToSend(cfg, s);
    forall i: nat | i < |s.primaries| && s.primaries[i].pc.Sending?
      ensures Enabled(cfg, s, Primary(i, Send)) && !s.closed
      ensures Enabled(cfg, s, Primary(i, Drop)) <==> GroupCtxDone(s)
    {
      PrimarySendReady(cfg, s, i);
    }
    forall j: nat | j < |s.hedges| && s.hedges[j].pc.HSending?
      ensures Enabled(cfg, s, Hedger(j, HedgeSend)) && !s.closed
      ensures Enabled(cfg, s, Hedger(j, HedgeDrop)) <==> HedgeCtxDone(s)
    {
      HedgeSendReady(cfg, s, j);
    }
  }

  lemma {:induction false} PrimarySendReady(cfg: Config, s: State, i: nat)
    requires cfg.Valid() && LaunchInv(cfg, s) && CloseInv(s) && HasRoom(cfg, s)
    requires i < |s.primaries| && s.primaries[i].pc.Sending?
    ensures Enabled(cfg, s, Primary(i, Send)) && !s.closed
    ensures Enabled(cfg, s, Primary(i, Drop)) <==> GroupCtxDone(s)
  {
    assert !s.primaries[i].pc.Exited?;
  }

  lemma {:induction false} HedgeSendReady(cfg: Config, s: State, j: nat)
    requires cfg.Valid() && CloseInv(s) && HedgeResultInv(cfg, s) && HasRoom(cfg, s)
    requires j < |s.hedges| && s.hedges[j].pc.HSending?
    ensures Enabled(cfg, s, Hedger(j, HedgeSend)) && !s.closed
    ensures Enabled(cfg, s, Hedger(j, HedgeDrop)) <==> HedgeCtxDone(s)
  {
    assert HedgeResultOk(cfg, s.hedges[j]);
  }

  // ---- the fan-out finishes ----

  /** No run is longer than the measure of its first state. */
  lemma {:induction false} EveryRunIsFinite(cfg: Config, clock: int, run: seq<Step>)
    requires cfg.Valid() && ValidRun(cfg, Init(cfg, clock), run)
    ensures |run| <= Measure(cfg, Init(cfg, clock))
  {
    InitInv(cfg, clock);
    RunKeepsInv(cfg, Init(cfg, clock), run);
  }

  /** How breakers and limiters decide, by any rule whatever: whether the breaker of
      primary i admits its call, whether the breaker of hedge target j reads Open for a
      slot, and whether the limiter has a token for a hedge of the slot. */
  datatype Deciders = Deciders(
    admits: (State, nat) -> bool,
    readsOpen: (State, string, nat) -> bool,
    grants: (State, string) -> bool)

  /** Steps nobody can withhold: goroutines move when they can, time passes, adapters and
      waiting limiters give up once their context is done, and breakers and limiters that
      are asked answer as they decide. A token that is waited for, a result or a
      cancellation, by contrast, may never come. */
  ghost predicate Guaranteed(cfg: Config, d: Deciders, s: State, step: Step)
    requires cfg.Valid()
  {
    match step
    case Primary(_, GetToken) => false
    case Primary(_, TokenRefused) => GroupCtxDone(s)
    case Primary(i, Reject) => !d.admits(s, i)
    case Primary(i, Admit) => d.admits(s, i)
    case Primary(_, AdapterFails(_)) => GroupCtxDone(s)
    case Primary(_, AdapterReturns(_, _)) => false
    case Hedger(_, HedgeFails) => HedgeCtxDone(s)
    case Hedger(_, HedgeReturns(_)) => false
    case Monitor(Scan(slot, openReads, granted)) =>
      openReads == Readings(cfg, d, s, slot) && granted == d.grants(s, slot)
    case Clock(CancelRequest) => false
    case _ => true
  }

  ghost function Readings(cfg: Config, d: Deciders, s: State, slot: string): seq<bool>
    requires cfg.Valid()
  {
    seq(|cfg.Hedgeable()|, j requires 0 <= j < |cfg.Hedgeable()| => d.readsOpen(s, slot, j))
  }

  ghost predicate CanMove(cfg: Config, d: Deciders, s: State)
    requires cfg.Valid()
  {
    exists step :: Enabled(cfg, s, step) && Guaranteed(cfg, d, s, step)
  }

  lemma {:induction false} Witness(cfg: Config, d: Deciders, s: State, step: Step)
    requires cfg.Valid() && Enabled(cfg, s, step) && Guaranteed(cfg, d, s, step)
    ensures CanMove(cfg, d, s)
  {
  }

  lemma {:induction false} PrimaryCanMove(cfg: Config, d: Deciders, s: State, i: nat)
    requires cfg.Valid() && Inv(cfg, s) && GroupCtxDone(s) && !s.main.Launching?
    requires i < |s.primaries| && !s.primaries[i].pc.Exited?
    ensures CanMove(cfg, d, s)
  {
    assert !s.primaries[i].pc.Unstarted?;
    var step := match s.primaries[i].pc
      case Looking => LookUp
      case AwaitToken => TokenRefused
      case AtBreaker => if d.admits(s, i) then Admit else Reject
      case InAdapter => AdapterFails(CallError(false, false, true, false))
      case Observing(_) => Observe
      case Reporting(_) => Report
      case Sending(_) => Drop
      case _ => ReportFailure;
    Witness(cfg, d, s, Primary(i, step));
  }

  lemma {:induction false} HedgeCanMove(cfg: Config, d: Deciders, s: State, j: nat)
    requires cfg.Valid() && Inv(cfg, s) && HedgeCtxDone(s)
    requires j < |s.hedges| && !s.hedges[j].pc.HExited?
    ensures CanMove(cfg, d, s)
  {
    assert HedgeResultOk(cfg, s.hedges[j]);
    var step := match s.hedges[j].pc
      case HStarting => HedgeCall
      case HInAdapter => HedgeFails
      case _ => HedgeDrop;
    Witness(cfg, d, s, Hedger(j, step));
  }

  lemma {:induction false} MonitorCanMove(cfg: Config, d: Deciders, s: State)
    requires cfg.Valid() && Inv(cfg, s) && HedgeCtxDone(s) && !s.monitor.Stopped?
    ensures CanMove(cfg, d, s)
  {
    match s.monitor
    case Polling => Witness(cfg, d, s, Monitor(Quit));
    case Scanning(_, todo, _) =>
      if todo == {} {
        Witness(cfg, d, s, Monitor(EndScan));
      } else {
        var slot :| slot in todo;
        Witness(cfg, d, s, Monitor(Scan(slot, Readings(cfg, d, s, slot), d.grants(s, slot))));
      }
    case Firing(stage, _, _, trigger, target, openReads) =>
      assert Justified(cfg, trigger, target, s.monitor.at, openReads);
      var step := match stage case TokenTaken => Mark case Marked => RecordHedge case Recorded => Spawn;
      Witness(cfg, d, s, Monitor(step));
    case Draining =>
      if AllHedgesExited(s) {
        Witness(cfg, d, s, Monitor(Drained));
      } else {
        var j: nat :| j < |s.hedges| && !s.hedges[j].pc.HExited?;
        HedgeCanMove(cfg, d, s, j);
      }
    case Signalling => Witness(cfg, d, s, Monitor(Signal));
  }

  lemma {:induction false} EndCanMove(cfg: Config, d: Deciders, s: State)
    requires cfg.Valid() && Inv(cfg, s) && s.main.Collecting? && AllExited(s)
    ensures CanMove(cfg, d, s)
  {
    match s.closer
    case AwaitGroup => Witness(cfg, d, s, Closer(GroupFinished));
    case CancelHedges => Witness(cfg, d, s, Closer(CancelHedging));
    case AwaitMonitor =>
      if s.monitor.Stopped? {
        Witness(cfg, d, s, Closer(MonitorFinished));
      } else {
        MonitorCanMove(cfg, d, s);
      }
    case Closing => Witness(cfg, d, s, Closer(Close));
    case Finished =>
      if s.buffer != [] {
        Witness(cfg, d, s, Main(Receive));
      } else {
        SortQuotesSorts(s.collected);
        Witness(cfg, d, s, Main(Return(SortQuotes(s.collected))));
      }
  }

  lemma {:induction false} InvCanMove(cfg: Config, d: Deciders, s: State)
    requires cfg.Valid() && Inv(cfg, s) && !s.main.Returned?
    ensures CanMove(cfg, d, s)
  {
    if s.main.Launching? {
      Witness(cfg, d, s, Main(Launch));
    } else if AllExited(s) {
      EndCanMove(cfg, d, s);
    } else if GroupCtxDone(s) {
      var i: nat :| i < |s.primaries| && !s.primaries[i].pc.Exited?;
      PrimaryCanMove(cfg, d, s, i);
    } else {
      Witness(cfg, d, s, Clock(Advance(false)));
    }
  }

  /** No deadlock: until the fan-out has returned, some step is enabled that nobody
      can withhold, however breakers and limiters decide. */
  lemma {:induction false} NoDeadlock(cfg: Config, d: Deciders, s: State)
    requires cfg.Valid() && Reachable(cfg, s) && !s.main.Returned?
    ensures CanMove(cfg, d, s)
  {
    ReachableInv(cfg, s);
    InvCanMove(cfg, d, s);
  }

  ghost predicate GuaranteedRun(cfg: Config, d: Deciders, s: State, run: seq<Step>)
    requires cfg.Valid() && ValidRun(cfg, s, run)
    decreases |run|
  {
    run == [] || (Guaranteed(cfg, d, s, run[0]) && GuaranteedRun(cfg, d, Apply(cfg, s, run[0]), run[1..]))
  }

  lemma {:induction false} CanReturn(cfg: Config, d: Deciders, s: State) returns (run: seq<Step>)
    requires cfg.Valid() && Inv(cfg, s)
    ensures ValidRun(cfg, s, run) && GuaranteedRun(cfg, d, s, run)
    ensures Exec(cfg, s, run).main.Returned?
    decreases Measure(cfg, s)
  {
    if s.main.Returned? {
      run := [];
    } else {
      InvCanMove(cfg, d, s);
      var step :| Enabled(cfg, s, step) && Guaranteed(cfg, d, s, step);
      StepKeepsInv(cfg, s, step);
      StepDecreases(cfg, s, step);
      var rest := CanReturn(cfg, d, Apply(cfg, s, step));
      run := [step] + rest;
      assert run[1..] == rest;
    }
  }

  /** From every reachable state the fan-out can return on guaranteed steps alone, even if
      no primary is granted another token and no adapter ever answers, and however
      breakers and limiters decide. */
  lemma {:induction false} ReturnsWithoutAnyFavour(cfg: Config, d: Deciders, s: State) returns (run: seq<Step>)
    requires cfg.Valid() && Reachable(cfg, s)
    ensures ValidRun(cfg, s, run) && GuaranteedRun(cfg, d, s, run)
    ensures Exec(cfg, s, run).main.Returned?
  {
    ReachableInv(cfg, s);
    run := CanReturn(cfg, d, s);
  }

  /** Once it has returned nothing is left running: every goroutine has ended. */
  lemma {:induction false} NothingRunsAfterReturn(cfg: Config, s: State, step: Step)
    requires cfg.Valid() && Reachable(cfg, s) && s.main.Returned?
    ensures AllExited(s) && AllHedgesExited(s) && s.monitor.Stopped? && s.closer.Finished?
    ensures !Enabled(cfg, s, step)
  {
    ReachableInv(cfg, s);
    EndedMeansStuck(cfg, s, step);
  }

  lemma {:induction false} EndedMeansStuck(cfg: Config, s: State, step: Step)
    requires cfg.Valid() && s.main.Returned?
    requires AllExited(s) && AllHedgesExited(s) && s.monitor.Stopped? && s.closer.Finished?
    ensures !Enabled(cfg, s, step)
  {
    match step
    case Primary(_, _) =>
    case Monitor(_) =>
    case Hedger(_, _) =>
    case Closer(_) =>
    case Main(_) =>
    case Clock(_) =>
  }

  // ---- what it returns ----

  /** The list returned is the one answer determined by what arrived: cheapest
      first, ties by carrier ID in dictionary order, one quote per carrier, the first arrivals and nothing
      else; and every quote had arrived exactly as often as it was sent. */
  lemma {:induction false} ReturnsTheAnswer(cfg: Config, s: State)
    requires cfg.Valid() && Reachable(cfg, s) && s.main.Returned?
    ensures s.main.answer == Answer(s.arrivals)
    ensures CheapestFirst(s.main.answer) && DistinctIds(s.main.answer)
    ensures forall q :: q in s.main.answer <==> IsFirstArrival(s.arrivals, q)
    ensures forall q :: multiset(s.arrivals)[q] == TimesSent(s.primaries, q) + HedgeTimesSent(s.hedges, q)
    ensures forall q :: q in s.arrivals <==> FromPrimary(s, q) || FromHedge(s, q)
    ensures |s.arrivals| == Sent(s.primaries) + HedgeSent(s.hedges)
  {
    ReachableInv(cfg, s);
    AnswerIsDetermined(s.arrivals, s.main.answer);
    assert s.arrivals + s.buffer == s.arrivals;
    forall q ensures q in s.arrivals <==> FromPrimary(s, q) || FromHedge(s, q) {
      ChannelMembers(s, q);
    }
  }

  /** Every delivery of a primary shows up under its carrier. */
  lemma {:induction false} DeliveryIsAnswered(cfg: Config, s: State, i: nat)
    requires cfg.Valid() && Inv(cfg, s) && s.main.Returned?
    requires i < |s.primaries| && s.primaries[i].delivered.Some?
    ensures i < |cfg.eligible| && s.primaries[i].delivered.value.carrierID in IdsOf(s.main.answer)
    ensures cfg.adaptersStamp ==> s.primaries[i].delivered.value.carrierID == cfg.eligible[i].id
  {
    var q := s.primaries[i].delivered.value;
    AnswerIsDetermined(s.arrivals, s.main.answer);
    ChannelMembers(s, q);
    assert s.arrivals + s.buffer == s.arrivals;
    assert PrimaryOk(cfg, i, s.primaries[i]);
    assert FromPrimary(s, q);
  }

  /** Adapters that stamp their own ID make every returned ID an eligible carrier's. */
  lemma {:induction false} AnswersAreEligible(cfg: Config, s: State)
    requires cfg.Valid() && Reachable(cfg, s) && s.main.Returned? && cfg.adaptersStamp
    ensures IdsOf(s.main.answer) <= CarrierIds(cfg.eligible)
  {
    ReachableInv(cfg, s);
    AnswerIsDetermined(s.arrivals, s.main.answer);
    forall id | id in IdsOf(s.main.answer) ensures id in CarrierIds(cfg.eligible) {
      var q :| q in s.arrivals && q.carrierID == id;
      ArrivalIsStamped(cfg, s, q);
    }
  }

  /** Adapters that stamp their own ID make every delivery of a primary show up under its
      carrier, whether or not the request was still live. */
  lemma {:induction false} DeliveredCarriersAreAnswered(cfg: Config, s: State, i: nat)
    requires cfg.Valid() && Reachable(cfg, s) && s.main.Returned? && cfg.adaptersStamp
    requires i < |s.primaries| && s.primaries[i].delivered.Some?
    ensures i < |cfg.eligible| && cfg.eligible[i].id in IdsOf(s.main.answer)
    ensures IdsOf(s.main.answer) <= CarrierIds(cfg.eligible)
  {
    ReachableInv(cfg, s);
    DeliveryIsAnswered(cfg, s, i);
    AnswersAreEligible(cfg, s);
  }

  /** A primary that has ended never changes again. */
  lemma {:induction false} EndedStays(cfg: Config, s: State, step: Step, i: nat)
    requires cfg.Valid() && Enabled(cfg, s, step) && LaunchInv(cfg, s)
    requires i < |s.primaries| && s.primaries[i].pc.Exited?
    ensures |Apply(cfg, s, step).primaries| == |s.primaries|
    ensures Apply(cfg, s, step).primaries[i] == s.primaries[i]
  {
    match step
    case Primary(k, p) => PrimaryOffers(cfg, s, k, p);
    case Main(n) =>
      if n.Receive? {
        ReceiveLocal(cfg, s);
      }
    case _ =>
  }

  lemma {:induction false} EndedStaysForever(cfg: Config, s: State, run: seq<Step>, i: nat)
    requires cfg.Valid() && Inv(cfg, s) && ValidRun(cfg, s, run)
    requires i < |s.primaries| && s.primaries[i].pc.Exited?
    ensures |Exec(cfg, s, run).primaries| == |s.primaries|
    ensures Exec(cfg, s, run).primaries[i] == s.primaries[i]
    decreases |run|
  {
    if run != [] {
      EndedStays(cfg, s, run[0], i);
      StepKeepsInv(cfg, s, run[0]);
      EndedStaysForever(cfg, Apply(cfg, s, run[0]), run[1..], i);
    }
  }

  /** A carrier that succeeds while the request is live is in the answer, whatever
      happens afterwards: a carrier can be missing only if its primary did not succeed,
      or the request was done before its result could be sent. */
  lemma {:induction false} LiveSuccessesAreAnswered(cfg: Config, s: State, i: nat, run: seq<Step>)
    requires cfg.Valid() && Reachable(cfg, s) && !s.requestDone
    requires i < |s.primaries| && s.primaries[i].pc.Exited? && s.primaries[i].statuses == [Success]
    requires ValidRun(cfg, s, run) && Exec(cfg, s, run).main.Returned?
    ensures var t := Exec(cfg, s, run);
            && i < |t.primaries| && i < |cfg.eligible|
            && t.primaries[i].delivered.Some?
            && t.primaries[i].delivered.value.carrierID in IdsOf(t.main.answer)
            && (cfg.adaptersStamp ==> cfg.eligible[i].id in IdsOf(t.main.answer))
  {
    ReachableInv(cfg, s);
    assert PrimaryOk(cfg, i, s.primaries[i]);
    assert s.primaries[i].offered > 0;
    EndedStaysForever(cfg, s, run, i);
    RunKeepsInv(cfg, s, run);
    DeliveryIsAnswered(cfg, Exec(cfg, s, run), i);
  }

  /** Every returned quote is either a primary's, filed under this request's ID, or a
      hedge's, marked as such. */
  lemma {:induction false} AnswersAreLabelled(cfg: Config, s: State, q: Quote)
    requires cfg.Valid() && Reachable(cfg, s) && s.main.Returned? && q in s.main.answer
    ensures (FromPrimary(s, q) && q.requestID == cfg.requestID) || (FromHedge(s, q) && q.isHedged)
  {
    ReachableInv(cfg, s);
    ReturnsTheAnswer(cfg, s);
    assert IsFirstArrival(s.arrivals, q);
    assert q in s.arrivals + s.buffer;
    ChannelMembers(s, q);
    SendersLabel(cfg, s, q);
  }

  lemma {:induction false} SendersLabel(cfg: Config, s: State, q: Quote)
    requires cfg.Valid() && OutcomeInv(cfg, s) && HedgeResultInv(cfg, s)
    ensures FromPrimary(s, q) ==> q.requestID == cfg.requestID
    ensures FromHedge(s, q) ==> q.isHedged
  {
    if i :| 0 <= i < |s.primaries| && s.primaries[i].delivered == Some(q) {
      assert PrimaryOk(cfg, i, s.primaries[i]);
    }
    if j :| 0 <= j < |s.hedges| && s.hedges[j].delivered == Some(q) {
      assert HedgeResultOk(cfg, s.hedges[j]);
    }
  }

  lemma {:induction false} ArrivalIsStamped(cfg: Config, s: State, q: Quote)
    requires cfg.Valid() && Inv(cfg, s) && cfg.adaptersStamp && q in s.arrivals
    ensures q.carrierID in CarrierIds(cfg.eligible)
  {
    assert q in s.arrivals + s.buffer;
    ChannelMembers(s, q);
    if FromPrimary(s, q) {
      var i :| 0 <= i < |s.primaries| && s.primaries[i].delivered == Some(q);
      assert PrimaryOk(cfg, i, s.primaries[i]);
      assert cfg.eligible[i] in cfg.eligible;
    } else {
      var j :| 0 <= j < |s.hedges| && s.hedges[j].delivered == Some(q);
      assert HedgeResultOk(cfg, s.hedges[j]);
      TargetIsEligible(cfg, s.hedges[j].target);
    }
  }

  // ---- what it records ----

  /** A finished fan-out recorded exactly one status for every eligible carrier with an
      adapter and none for the others; a carrier's success, its tracker observation
      and its offered result come together or not at all. */
  lemma {:induction false} OutcomesAreAccounted(cfg: Config, s: State, i: nat)
    requires cfg.Valid() && Reachable(cfg, s) && s.main.Returned? && i < |s.primaries|
    ensures i < |cfg.eligible|
    ensures |s.primaries[i].statuses| == if cfg.eligible[i].id in cfg.adapters then 1 else 0
    ensures s.primaries[i].statuses == [Success] <==> s.primaries[i].observed == 1
    ensures s.primaries[i].observed == s.primaries[i].offered <= 1
    ensures s.primaries[i].delivered.Some? ==> s.primaries[i].statuses == [Success]
  {
    ReachableInv(cfg, s);
    assert PrimaryOk(cfg, i, s.primaries[i]);
    assert s.primaries[i].pc.Exited?;
    var st := s.primaries[i].statuses;
    assert st == [Success] <==> |st| == 1 && st[0] == Success;
  }

  /** Once the fan-out has returned, hedges recorded, limiter tokens taken for hedges,
      hedge goroutines started and slots hedged are the same number; no slot was
      hedged twice; and the records name each hedge's target and trigger. */
  lemma {:induction false} HedgesAreAccounted(cfg: Config, s: State)
    requires cfg.Valid() && Reachable(cfg, s) && s.main.Returned?
    ensures s.tokens == |s.hedgeRecords| == |s.hedges| == |s.hedged| <= |cfg.eligible|
    ensures forall j, k :: 0 <= j < k < |s.hedges| ==> s.hedges[j].trigger != s.hedges[k].trigger
    ensures forall j :: 0 <= j < |s.hedges| ==>
              && s.hedges[j].target < |cfg.Hedgeable()|
              && s.hedgeRecords[j] == (cfg.Hedgeable()[s.hedges[j].target].carrier.id, s.hedges[j].trigger)
  {
    ReachableInv(cfg, s);
    RoomToSend(cfg, s);
  }

  /** Every hedge, at any point of any run: the clock reading had passed the threshold
      that the slot's carrier had when the fan-out began, that carrier was out of
      warm-up, and the hedge went to the best of all eligible carriers that have an
      adapter and another ID and did not read Open. */
  lemma {:induction false} EveryHedgeIsDue(cfg: Config, s: State, j: nat) returns (i: nat, at: seq<nat>)
    requires cfg.Valid() && Reachable(cfg, s) && j < |s.hedges|
    ensures i < |cfg.eligible| && cfg.eligible[i].id == s.hedges[j].trigger
    ensures forall k :: i < k < |cfg.eligible| ==> cfg.eligible[k].id != s.hedges[j].trigger
    ensures cfg.trackers[i].state.observations >= cfg.trackers[i].warmup
    ensures (s.hedges[j].firedAt - cfg.starts[i]) as real / NANOS_PER_MILLI as real
            >= cfg.trackers[i].state.p95 * cfg.trackers[i].multiplier
    ensures ListsHedgeable(cfg.eligible, cfg.adapters, cfg.averages, cfg.Hedgeable(), at)
    ensures |s.hedges[j].openReads| == |at| && s.hedges[j].target < |at|
    ensures IsBestEligible(
              s.hedges[j].trigger, cfg.eligible, cfg.averages, at, s.hedges[j].openReads, at[s.hedges[j].target])
  {
    ReachableInv(cfg, s);
    var h := s.hedges[j];
    assert Justified(cfg, h.trigger, h.target, h.firedAt, h.openReads);
    i := JustifiedMeans(cfg, h.trigger, h.target, h.firedAt, h.openReads);
    at := SelectsTheBestEligible(h.trigger, cfg.eligible, cfg.adapters, cfg.averages, h.openReads);
  }

  lemma {:induction false} JustifiedMeans(
    cfg: Config, trigger: string, target: nat, at: int, openReads: seq<bool>) returns (i: nat)
    requires cfg.Valid() && Justified(cfg, trigger, target, at, openReads)
    ensures i < |cfg.eligible| && cfg.eligible[i].id == trigger
    ensures forall k :: i < k < |cfg.eligible| ==> cfg.eligible[k].id != trigger
    ensures cfg.trackers[i].state.observations >= cfg.trackers[i].warmup
    ensures (at - cfg.starts[i]) as real / NANOS_PER_MILLI as real
            >= cfg.trackers[i].state.p95 * cfg.trackers[i].multiplier
  {
    i := PendingSlot(cfg.eligible, cfg.starts, cfg.Thresholds(), trigger);
  }

  /** A carrier whose breaker read Open in the filter is called by nobody in this
      fan-out, primary or hedge. */
  lemma {:induction false} OpenCarriersAreNotCalled(
    cfg: Config, s: State, carriers: seq<Carrier>, readsOpen: seq<bool>, lines: seq<string>, id: string)
    requires cfg.Valid() && Reachable(cfg, s)
    requires |readsOpen| == |carriers| && IsFiltered(carriers, readsOpen, lines, cfg.eligible)
    requires forall k :: 0 <= k < |carriers| && carriers[k].id == id ==> readsOpen[k]
    ensures id !in s.calls
  {
    ReachableInv(cfg, s);
    OpenCarriersAreFilteredOut(carriers, readsOpen, lines, cfg.eligible, id);
  }
}
