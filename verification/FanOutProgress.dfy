/** Every run of the fan-out is finite, and it can only stop where it should. */
module FanOutProgress {
  import opened FanOut
  import opened FanOutSafety

  // ---- the measure ----

  function PrimaryRank(pc: PrimaryPc): nat {
    match pc
    case Unstarted => 11
    case Looking => 10
    case AwaitToken => 9
    case AtBreaker => 8
    case InAdapter => 7
    case Observing(_) => 6
    case Reporting(_) => 5
    case Sending(_) => 4
    case Failing(_) => 1
    case Exited => 0
  }

  function HedgeRank(pc: HedgePc): nat {
    match pc
    case HStarting => 4
    case HInAdapter => 3
    case HSending(_) => 2
    case HExited => 0
  }

  /** A slot still to scan may cost a token, a mark, a record and a hedge goroutine. */
  function MonitorRank(m: MonitorPc): nat {
    match m
    case Polling => 3
    case Scanning(_, todo, _) => 4 + 10 * |todo|
    case Firing(stage, _, rest, _, _, _) =>
      4 + 10 * |rest| + (match stage case TokenTaken => 8 case Marked => 7 case Recorded => 6)
    case Draining => 2
    case Signalling => 1
    case Stopped => 0
  }

  function CloserRank(c: CloserPc): nat {
    match c
    case Unlaunched => 5
    case AwaitGroup => 4
    case CancelHedges => 3
    case AwaitMonitor => 2
    case Closing => 1
    case Finished => 0
  }

  function PrimariesRank(ps: seq<PrimaryState>): nat {
    if ps == [] then 0 else PrimariesRank(ps[..|ps| - 1]) + PrimaryRank(ps[|ps| - 1].pc)
  }

  function HedgesRank(hs: seq<Hedge>): nat {
    if hs == [] then 0 else HedgesRank(hs[..|hs| - 1]) + HedgeRank(hs[|hs| - 1].pc)
  }

  lemma {:induction false} PrimariesRankUpdate(ps: seq<PrimaryState>, i: nat, p: PrimaryState)
    requires i < |ps|
    ensures PrimariesRank(ps[i := p]) == PrimariesRank(ps) - PrimaryRank(ps[i].pc) + PrimaryRank(p.pc)
    decreases |ps|
  {
    var n := |ps| - 1;
    if i == n {
      assert ps[i := p][..n] == ps[..n];
    } else {
      assert ps[i := p][..n] == ps[..n][i := p];
      PrimariesRankUpdate(ps[..n], i, p);
    }
  }

  lemma {:induction false} HedgesRankUpdate(hs: seq<Hedge>, j: nat, h: Hedge)
    requires j < |hs|
    ensures HedgesRank(hs[j := h]) == HedgesRank(hs) - HedgeRank(hs[j].pc) + HedgeRank(h.pc)
    decreases |hs|
  {
    var n := |hs| - 1;
    if j == n {
      assert hs[j := h][..n] == hs[..n];
    } else {
      assert hs[j := h][..n] == hs[..n][j := h];
      HedgesRankUpdate(hs[..n], j, h);
    }
  }

  /** What one tick of the poll ticker may cost: a scan of every slot. */
  function TickWork(cfg: Config): nat
    requires cfg.Valid()
  {
    10 * |cfg.Pending()| + 2
  }

  function TimeLeft(cfg: Config, s: State): nat {
    if s.clock < cfg.deadline then cfg.deadline - s.clock else 0
  }

  /** Work that is left without any further tick. */
  function WorkLeft(s: State): nat {
    PrimariesRank(s.primaries) + HedgesRank(s.hedges) + MonitorRank(s.monitor) + CloserRank(s.closer)
    + |s.buffer| + (if s.main.Returned? then 0 else 1)
    + (if s.requestDone then 0 else 1) + (if s.panicked then 0 else 1)
  }

  function Measure(cfg: Config, s: State): nat
    requires cfg.Valid()
  {
    WorkLeft(s) + (if s.tick then TickWork(cfg) else 0) + TimeLeft(cfg, s) * (TickWork(cfg) + 1)
  }

  lemma {:induction false} SetMinusOne<T>(s: set<T>, x: T)
    requires x in s
    ensures |s - {x}| == |s| - 1
  {
  }

  lemma {:induction false} PrimaryMovesOn(cfg: Config, s: State, i: nat, step: PrimaryStep)
    requires PrimaryEnabled(cfg, s, i, step)
    ensures PrimaryRank(PrimaryNext(cfg, s, i, step).pc) + (if step.Send? then 1 else 0)
            < PrimaryRank(s.primaries[i].pc)
  {
  }

  lemma {:induction false} PrimaryWorks(cfg: Config, s: State, i: nat, step: PrimaryStep)
    requires PrimaryEnabled(cfg, s, i, step) && !s.panicked
    ensures var t := ApplyPrimary(cfg, s, i, step);
            t.tick == s.tick && t.clock == s.clock && WorkLeft(t) < WorkLeft(s)
  {
    var p := PrimaryNext(cfg, s, i, step);
    PrimaryMovesOn(cfg, s, i, step);
    PrimariesRankUpdate(s.primaries, i, p);
    assert !(step.Send? && s.closed) ==>
      PrimariesRank(ApplyPrimary(cfg, s, i, step).primaries) == PrimariesRank(s.primaries[i := p]);
  }

  lemma {:induction false} HedgeMovesOn(cfg: Config, s: State, j: nat, step: HedgeStep)
    requires cfg.Valid() && HedgeEnabled(cfg, s, j, step)
    ensures HedgeRank(HedgeNext(cfg, s, j, step).pc) + (if step.HedgeSend? then 1 else 0) < HedgeRank(s.hedges[j].pc)
  {
  }

  lemma {:induction false} HedgeKeepsRest(cfg: Config, s: State, j: nat, step: HedgeStep)
    requires cfg.Valid() && HedgeEnabled(cfg, s, j, step)
    ensures var t := ApplyHedge(cfg, s, j, step);
            if step.HedgeSend? && s.closed then
              t == s.(panicked := true)
            else
              t.hedges == s.hedges[j := HedgeNext(cfg, s, j, step)]
              && t == s.(hedges := t.hedges, buffer := t.buffer, calls := t.calls)
              && |t.buffer| <= |s.buffer| + (if step.HedgeSend? then 1 else 0)
  {
  }

  lemma {:induction false} HedgeWorks(cfg: Config, s: State, j: nat, step: HedgeStep)
    requires cfg.Valid() && HedgeEnabled(cfg, s, j, step) && !s.panicked
    ensures var t := ApplyHedge(cfg, s, j, step);
            t.tick == s.tick && t.clock == s.clock && WorkLeft(t) < WorkLeft(s)
  {
    HedgeKeepsRest(cfg, s, j, step);
    HedgeMovesOn(cfg, s, j, step);
    HedgesRankUpdate(s.hedges, j, HedgeNext(cfg, s, j, step));
  }

  lemma {:induction false} CloserWorks(s: State, step: CloserStep)
    requires CloserEnabled(s, step) && !s.panicked
    ensures var t := ApplyCloser(s, step);
            t.tick == s.tick && t.clock == s.clock && WorkLeft(t) < WorkLeft(s)
  {
  }

  lemma {:induction false} LaunchWorks(cfg: Config, s: State)
    requires MainEnabled(cfg, s, Launch) && LaunchInv(cfg, s)
    ensures var t := ApplyMain(cfg, s, Launch);
            t.tick == s.tick && t.clock == s.clock && WorkLeft(t) < WorkLeft(s)
  {
    if s.main.next < |cfg.eligible| {
      PrimariesRankUpdate(s.primaries, s.main.next, s.primaries[s.main.next].(pc := Looking));
    }
  }

  lemma {:induction false} MainWorks(cfg: Config, s: State, step: MainStep)
    requires MainEnabled(cfg, s, step) && LaunchInv(cfg, s)
    ensures var t := ApplyMain(cfg, s, step);
            t.tick == s.tick && t.clock == s.clock && WorkLeft(t) < WorkLeft(s)
  {
    match step
    case Launch => LaunchWorks(cfg, s);
    case Receive => ReceiveLocal(cfg, s);
    case Return(_) =>
  }

  lemma {:induction false} ScanWorks(cfg: Config, s: State, slot: string, openReads: seq<bool>, granted: bool)
    requires cfg.Valid() && s.monitor.Scanning? && slot in s.monitor.todo
    requires slot in cfg.Pending() && |openReads| == |cfg.Hedgeable()|
    ensures var t := ScanSlot(cfg, s, slot, openReads, granted);
            MonitorRank(t) < MonitorRank(s.monitor)
  {
    SetMinusOne(s.monitor.todo, slot);
  }

  lemma {:induction false} SpawnWorks(cfg: Config, s: State)
    requires cfg.Valid() && MonitorEnabled(cfg, s, Spawn)
    ensures var t := ApplyMonitor(cfg, s, Spawn);
            t.clock == s.clock && t.tick == s.tick && WorkLeft(t) < WorkLeft(s)
  {
    assert ApplyMonitor(cfg, s, Spawn).hedges[..|s.hedges|] == s.hedges;
  }

  lemma {:induction false} TickCosts(cfg: Config, s: State, now: int)
    requires cfg.Valid() && MonitorEnabled(cfg, s, TakeTick(now))
    ensures var t := ApplyMonitor(cfg, s, TakeTick(now));
            t.clock == s.clock && s.tick && !t.tick && WorkLeft(t) < WorkLeft(s) + TickWork(cfg)
  {
    assert |cfg.Pending().Keys| == |cfg.Pending()|;
  }

  lemma {:induction false} MonitorWorks(cfg: Config, s: State, step: MonitorStep)
    requires cfg.Valid() && MonitorEnabled(cfg, s, step) && !step.TakeTick?
    ensures var t := ApplyMonitor(cfg, s, step);
            t.clock == s.clock && t.tick == s.tick && WorkLeft(t) < WorkLeft(s)
  {
    match step
    case Scan(slot, openReads, granted) => ScanWorks(cfg, s, slot, openReads, granted);
    case Spawn => SpawnWorks(cfg, s);
    case _ => MonitorStepWorks(cfg, s, step);
  }

  lemma {:induction false} MonitorStepWorks(cfg: Config, s: State, step: MonitorStep)
    requires cfg.Valid() && MonitorEnabled(cfg, s, step) && !step.TakeTick? && !step.Scan? && !step.Spawn?
    ensures var t := ApplyMonitor(cfg, s, step);
            MonitorRank(t.monitor) < MonitorRank(s.monitor)
  {
  }

  lemma {:induction false} TimeIsWorth(left: nat, unit: nat)
    requires left > 0
    ensures left * unit == (left - 1) * unit + unit
  {
  }

  lemma {:induction false} ClockWorks(cfg: Config, s: State, step: ClockStep)
    requires cfg.Valid() && ClockEnabled(cfg, s, step)
    ensures Measure(cfg, ApplyClock(cfg, s, step)) < Measure(cfg, s)
  {
    if step.Advance? {
      TimeIsWorth(TimeLeft(cfg, s), TickWork(cfg) + 1);
    }
  }

  /** Every step, whoever takes it, brings the fan-out closer to its end. */
  lemma {:induction false} StepDecreases(cfg: Config, s: State, step: Step)
    requires cfg.Valid() && Enabled(cfg, s, step) && LaunchInv(cfg, s)
    ensures Measure(cfg, Apply(cfg, s, step)) < Measure(cfg, s)
  {
    match step
    case Primary(i, p) => PrimaryWorks(cfg, s, i, p);
    case Monitor(m) =>
      if m.TakeTick? {
        TickCosts(cfg, s, m.now);
      } else {
        MonitorWorks(cfg, s, m);
      }
    case Hedger(j, h) => HedgeWorks(cfg, s, j, h);
    case Closer(c) => CloserWorks(s, c);
    case Main(n) => MainWorks(cfg, s, n);
    case Clock(k) => ClockWorks(cfg, s, k);
  }
}
