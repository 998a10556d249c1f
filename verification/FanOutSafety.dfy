/** What every step of the fan-out keeps. */
module FanOutSafety {
  import opened Domain
  import opened Eligibility
  import opened FanOut

  // ---- launch order and close order ----

  predicate PastGroup(c: CloserPc) { c.CancelHedges? || c.AwaitMonitor? || c.Closing? || c.Finished? }

  ghost predicate LaunchInv(cfg: Config, s: State) {
    && |s.primaries| == |cfg.eligible|
    && (s.main.Launching? <==> s.closer.Unlaunched?)
    && (s.main.Launching? ==> s.main.next <= |s.primaries|)
    && (forall i :: 0 <= i < |s.primaries| ==>
          (s.primaries[i].pc.Unstarted? <==> s.main.Launching? && i >= s.main.next))
  }

  ghost predicate CloseInv(s: State) {
    && !s.panicked
    && (s.groupDone <==> PastGroup(s.closer))
    && (s.hedgeCancelled <==> PastGroup(s.closer) && !s.closer.CancelHedges?)
    && (s.groupDone ==> AllExited(s))
    && (s.closer.Closing? || s.closer.Finished? ==> s.monitor.Stopped?)
    && (s.monitor.Signalling? || s.monitor.Stopped? ==> AllHedgesExited(s))
    && (s.closed <==> s.closer.Finished?)
    && s.closes == (if s.closed then 1 else 0)
    && (s.main.Returned? ==> s.closed && s.buffer == [])
  }

  lemma {:induction false} PrimaryLocal(cfg: Config, s: State, i: nat, step: PrimaryStep)
    requires PrimaryEnabled(cfg, s, i, step)
    ensures var p, p' := s.primaries[i], PrimaryNext(cfg, s, i, step);
            && !p.pc.Unstarted? && !p'.pc.Unstarted? && !p.pc.Exited?
            && (step.Send? ==> p.pc.Sending? && p'.pc.Exited?)
            && p'.delivered == (if step.Send? then Some(p.pc.q) else p.delivered)
  {
  }

  lemma {:induction false} PrimaryKeepsOrder(cfg: Config, s: State, i: nat, step: PrimaryStep)
    requires cfg.Valid() && PrimaryEnabled(cfg, s, i, step) && LaunchInv(cfg, s) && CloseInv(s)
    ensures LaunchInv(cfg, ApplyPrimary(cfg, s, i, step)) && CloseInv(ApplyPrimary(cfg, s, i, step))
  {
    PrimaryLocal(cfg, s, i, step);
  }

  lemma {:induction false} MonitorKeepsOrder(cfg: Config, s: State, step: MonitorStep)
    requires cfg.Valid() && MonitorEnabled(cfg, s, step) && LaunchInv(cfg, s) && CloseInv(s)
    ensures LaunchInv(cfg, ApplyMonitor(cfg, s, step)) && CloseInv(ApplyMonitor(cfg, s, step))
  {
  }

  lemma {:induction false} HedgeKeepsOrder(cfg: Config, s: State, j: nat, step: HedgeStep)
    requires cfg.Valid() && HedgeEnabled(cfg, s, j, step) && LaunchInv(cfg, s) && CloseInv(s)
    ensures LaunchInv(cfg, ApplyHedge(cfg, s, j, step)) && CloseInv(ApplyHedge(cfg, s, j, step))
  {
  }

  lemma {:induction false} ClockKeepsOrder(cfg: Config, s: State, step: ClockStep)
    requires ClockEnabled(cfg, s, step) && LaunchInv(cfg, s) && CloseInv(s)
    ensures LaunchInv(cfg, ApplyClock(cfg, s, step)) && CloseInv(ApplyClock(cfg, s, step))
  {
  }

  lemma {:induction false} CloserKeepsOrder(cfg: Config, s: State, step: CloserStep)
    requires CloserEnabled(s, step) && LaunchInv(cfg, s) && CloseInv(s)
    ensures LaunchInv(cfg, ApplyCloser(s, step)) && CloseInv(ApplyCloser(s, step))
  {
  }

  lemma {:induction false} MainKeepsOrder(cfg: Config, s: State, step: MainStep)
    requires MainEnabled(cfg, s, step) && LaunchInv(cfg, s) && CloseInv(s)
    ensures LaunchInv(cfg, ApplyMain(cfg, s, step)) && CloseInv(ApplyMain(cfg, s, step))
  {
  }

  /** Every step keeps the order of launches, the wait order of the closer, and one
      close with no send after it. */
  lemma {:induction false} StepsKeepOrder(cfg: Config, s: State, step: Step)
    requires cfg.Valid() && Enabled(cfg, s, step) && LaunchInv(cfg, s) && CloseInv(s)
    ensures LaunchInv(cfg, Apply(cfg, s, step)) && CloseInv(Apply(cfg, s, step))
  {
    match step
    case Primary(i, p) => PrimaryKeepsOrder(cfg, s, i, p);
    case Monitor(m) => MonitorKeepsOrder(cfg, s, m);
    case Hedger(j, h) => HedgeKeepsOrder(cfg, s, j, h);
    case Closer(c) => CloserKeepsOrder(cfg, s, c);
    case Main(n) => MainKeepsOrder(cfg, s, n);
    case Clock(k) => ClockKeepsOrder(cfg, s, k);
  }

  // ---- how much is sent ----

  function Sent(ps: seq<PrimaryState>): nat {
    if ps == [] then 0 else Sent(ps[..|ps| - 1]) + if ps[|ps| - 1].delivered.Some? then 1 else 0
  }

  function HedgeSent(hs: seq<Hedge>): nat {
    if hs == [] then 0 else HedgeSent(hs[..|hs| - 1]) + if hs[|hs| - 1].delivered.Some? then 1 else 0
  }

  ghost predicate CountInv(s: State) {
    && |s.arrivals| + |s.buffer| == Sent(s.primaries) + HedgeSent(s.hedges)
    && (forall i :: 0 <= i < |s.primaries| && s.primaries[i].delivered.Some? ==> s.primaries[i].pc.Exited?)
    && (forall j :: 0 <= j < |s.hedges| && s.hedges[j].delivered.Some? ==> s.hedges[j].pc.HExited?)
  }

  lemma {:induction false} SentUpdate(ps: seq<PrimaryState>, i: nat, p: PrimaryState)
    requires i < |ps|
    ensures Sent(ps[i := p]) ==
            Sent(ps) - (if ps[i].delivered.Some? then 1 else 0) + (if p.delivered.Some? then 1 else 0)
    decreases |ps|
  {
    var n := |ps| - 1;
    if i == n {
      assert ps[i := p][..n] == ps[..n];
    } else {
      assert ps[i := p][..n] == ps[..n][i := p];
      SentUpdate(ps[..n], i, p);
    }
  }

  lemma {:induction false} HedgeSentUpdate(hs: seq<Hedge>, j: nat, h: Hedge)
    requires j < |hs|
    ensures HedgeSent(hs[j := h]) ==
            HedgeSent(hs) - (if hs[j].delivered.Some? then 1 else 0) + (if h.delivered.Some? then 1 else 0)
    decreases |hs|
  {
    var n := |hs| - 1;
    if j == n {
      assert hs[j := h][..n] == hs[..n];
    } else {
      assert hs[j := h][..n] == hs[..n][j := h];
      HedgeSentUpdate(hs[..n], j, h);
    }
  }

  lemma {:induction false} SentAtMost(ps: seq<PrimaryState>)
    ensures Sent(ps) <= |ps|
    ensures (exists i :: 0 <= i < |ps| && ps[i].delivered.None?) ==> Sent(ps) < |ps|
  {
    if ps != [] {
      SentAtMost(ps[..|ps| - 1]);
      if i :| 0 <= i < |ps| && ps[i].delivered.None? {
        assert i < |ps| - 1 ==> ps[..|ps| - 1][i].delivered.None?;
      }
    }
  }

  lemma {:induction false} HedgeSentAtMost(hs: seq<Hedge>)
    ensures HedgeSent(hs) <= |hs|
    ensures (exists j :: 0 <= j < |hs| && hs[j].delivered.None?) ==> HedgeSent(hs) < |hs|
  {
    if hs != [] {
      HedgeSentAtMost(hs[..|hs| - 1]);
      if j :| 0 <= j < |hs| && hs[j].delivered.None? {
        assert j < |hs| - 1 ==> hs[..|hs| - 1][j].delivered.None?;
      }
    }
  }

  lemma {:induction false} PrimaryKeepsCount(cfg: Config, s: State, i: nat, step: PrimaryStep)
    requires PrimaryEnabled(cfg, s, i, step) && CountInv(s)
    ensures CountInv(ApplyPrimary(cfg, s, i, step))
  {
    PrimaryLocal(cfg, s, i, step);
    SentUpdate(s.primaries, i, PrimaryNext(cfg, s, i, step));
  }

  lemma {:induction false} HedgeLocal(cfg: Config, s: State, j: nat, step: HedgeStep)
    requires cfg.Valid() && HedgeEnabled(cfg, s, j, step)
    ensures var h, h' := s.hedges[j], HedgeNext(cfg, s, j, step);
            && !h.pc.HExited?
            && (step.HedgeSend? ==> h.pc.HSending? && h'.pc.HExited?)
            && h'.delivered == (if step.HedgeSend? then Some(h.pc.q) else h.delivered)
            && h' == h.(pc := h'.pc, delivered := h'.delivered)
  {
  }

  lemma {:induction false} HedgeKeepsCount(cfg: Config, s: State, j: nat, step: HedgeStep)
    requires cfg.Valid() && HedgeEnabled(cfg, s, j, step) && CountInv(s)
    ensures CountInv(ApplyHedge(cfg, s, j, step))
  {
    HedgeLocal(cfg, s, j, step);
    HedgeSentUpdate(s.hedges, j, HedgeNext(cfg, s, j, step));
  }

  lemma {:induction false} MonitorKeepsCount(cfg: Config, s: State, step: MonitorStep)
    requires cfg.Valid() && MonitorEnabled(cfg, s, step) && CountInv(s)
    ensures CountInv(ApplyMonitor(cfg, s, step))
  {
    var t := ApplyMonitor(cfg, s, step);
    assert step.Spawn? ==> t.hedges[..|s.hedges|] == s.hedges;
  }

  lemma {:induction false} SameDelivered(before: seq<PrimaryState>, after: seq<PrimaryState>)
    requires |after| == |before|
    requires forall i :: 0 <= i < |before| ==> after[i].delivered == before[i].delivered
    ensures Sent(after) == Sent(before)
  {
    if before != [] {
      SameDelivered(before[..|before| - 1], after[..|after| - 1]);
    }
  }

  lemma {:induction false} LaunchKeepsCount(cfg: Config, s: State)
    requires MainEnabled(cfg, s, Launch) && LaunchInv(cfg, s) && CountInv(s)
    ensures CountInv(ApplyMain(cfg, s, Launch))
  {
    SameDelivered(s.primaries, ApplyMain(cfg, s, Launch).primaries);
  }

  lemma {:induction false} ReceiveKeepsCount(cfg: Config, s: State)
    requires MainEnabled(cfg, s, Receive) && CountInv(s)
    ensures CountInv(ApplyMain(cfg, s, Receive))
  {
    ReceiveLocal(cfg, s);
    SameCount(s, ApplyMain(cfg, s, Receive));
  }

  /** Receiving moves the head of the channel to the arrivals. */
  lemma {:induction false} ReceiveLocal(cfg: Config, s: State)
    requires MainEnabled(cfg, s, Receive)
    ensures var t := ApplyMain(cfg, s, Receive);
            && t.primaries == s.primaries && t.hedges == s.hedges && t.main == s.main
            && t.arrivals == s.arrivals + [s.buffer[0]] && t.buffer == s.buffer[1..]
            && t.arrivals + t.buffer == s.arrivals + s.buffer
            && (if s.buffer[0].carrierID in s.seen then t.seen == s.seen && t.collected == s.collected
                else t.seen == s.seen + {s.buffer[0].carrierID} && t.collected == s.collected + [s.buffer[0]])
  {
  }

  lemma {:induction false} SameCount(s: State, t: State)
    requires CountInv(s) && t.primaries == s.primaries && t.hedges == s.hedges
    requires t.arrivals + t.buffer == s.arrivals + s.buffer
    ensures CountInv(t)
  {
    assert |t.arrivals| + |t.buffer| == |t.arrivals + t.buffer| == |s.arrivals + s.buffer|;
  }

  lemma {:induction false} MainKeepsCount(cfg: Config, s: State, step: MainStep)
    requires MainEnabled(cfg, s, step) && LaunchInv(cfg, s) && CountInv(s)
    ensures CountInv(ApplyMain(cfg, s, step))
  {
    match step
    case Launch => LaunchKeepsCount(cfg, s);
    case Receive => ReceiveKeepsCount(cfg, s);
    case Return(_) =>
  }

  // ---- hedges ----

  /** The firing that is under way, or has just become a hedge goroutine. */
  ghost predicate Justified(cfg: Config, trigger: string, target: nat, at: int, openReads: seq<bool>)
    requires cfg.Valid()
  {
    && trigger in cfg.Pending()
    && Due(cfg.Pending()[trigger], at)
    && |openReads| == |cfg.Hedgeable()|
    && SelectAmong(trigger, cfg.Hedgeable(), openReads) == Some(target)
  }

  ghost predicate MonitorOk(cfg: Config, s: State)
    requires cfg.Valid()
  {
    match s.monitor
    case Scanning(_, todo, _) => todo <= cfg.Pending().Keys
    case Firing(stage, at, rest, trigger, target, openReads) =>
      && rest <= cfg.Pending().Keys
      && Justified(cfg, trigger, target, at, openReads)
      && (stage.TokenTaken? <==> trigger !in s.hedged)
      && (forall j :: 0 <= j < |s.hedges| ==> s.hedges[j].trigger != trigger)
    case _ => true
  }

  /** 1 while the monitor has marked a slot but not yet started its goroutine. */
  function MarkedOnly(m: MonitorPc): nat {
    if m.Firing? && !m.stage.TokenTaken? then 1 else 0
  }

  function Unrecorded(m: MonitorPc): nat {
    if m.Firing? && !m.stage.Recorded? then 1 else 0
  }

  function Unspawned(m: MonitorPc): nat {
    if m.Firing? && m.stage.Recorded? then 1 else 0
  }

  ghost predicate HedgesOk(cfg: Config, s: State)
    requires cfg.Valid()
  {
    && s.hedged <= cfg.Pending().Keys
    && |s.hedges| + MarkedOnly(s.monitor) == |s.hedged|
    && (forall j :: 0 <= j < |s.hedges| ==> s.hedges[j].trigger in s.hedged)
    && (forall j, k :: 0 <= j < k < |s.hedges| ==> s.hedges[j].trigger != s.hedges[k].trigger)
    && (forall j :: 0 <= j < |s.hedges| ==>
          Justified(cfg, s.hedges[j].trigger, s.hedges[j].target, s.hedges[j].firedAt, s.hedges[j].openReads))
  }

  ghost predicate RecordsOk(cfg: Config, s: State)
    requires cfg.Valid()
  {
    && s.tokens == |s.hedgeRecords| + Unrecorded(s.monitor)
    && |s.hedgeRecords| == |s.hedges| + Unspawned(s.monitor)
    && (s.monitor.Firing? && s.monitor.stage.Recorded? ==>
          s.hedgeRecords[|s.hedges|] == RecordOf(cfg, s.monitor.target, s.monitor.trigger))
    && (forall j :: 0 <= j < |s.hedges| ==>
          s.hedgeRecords[j] == RecordOf(cfg, s.hedges[j].target, s.hedges[j].trigger))
  }

  ghost function RecordOf(cfg: Config, target: nat, trigger: string): (string, string)
    requires cfg.Valid()
  {
    if target < |cfg.Hedgeable()| then (cfg.Hedgeable()[target].carrier.id, trigger) else ("", trigger)
  }

  ghost predicate HedgeInv(cfg: Config, s: State)
    requires cfg.Valid()
  {
    MonitorOk(cfg, s) && HedgesOk(cfg, s) && RecordsOk(cfg, s)
  }

  /** Scanning a slot either moves on or takes a token for a justified hedge. */
  lemma {:induction false} ScanLocal(cfg: Config, s: State, slot: string, openReads: seq<bool>, granted: bool)
    requires cfg.Valid() && s.monitor.Scanning?
    requires slot in cfg.Pending() && |openReads| == |cfg.Hedgeable()|
    ensures ScanOutcome(cfg, s, slot, openReads, ScanSlot(cfg, s, slot, openReads, granted))
  {
  }

  ghost predicate ScanOutcome(cfg: Config, s: State, slot: string, openReads: seq<bool>, next: MonitorPc)
    requires cfg.Valid() && s.monitor.Scanning?
  {
    var now, rest := s.monitor.now, s.monitor.todo - {slot};
    match next
    case Scanning(later, todo, _) => todo == rest && later == now
    case Firing(stage, at, todo, trigger, target, read) =>
      && slot !in s.hedged
      && stage.TokenTaken? && at == now && todo == rest && trigger == slot && read == openReads
      && Justified(cfg, slot, target, now, openReads)
    case _ => false
  }

  lemma {:induction false} ScanKeepsHedges(cfg: Config, s: State, step: MonitorStep)
    requires cfg.Valid() && MonitorEnabled(cfg, s, step) && step.Scan? && HedgeInv(cfg, s)
    ensures HedgeInv(cfg, ApplyMonitor(cfg, s, step))
  {
    ScanLocal(cfg, s, step.slot, step.openReads, step.granted);
    ScannedStaysOk(cfg, s, step.slot, step.openReads, ApplyMonitor(cfg, s, step));
  }

  lemma {:induction false} ScannedStaysOk(cfg: Config, s: State, slot: string, openReads: seq<bool>, t: State)
    requires cfg.Valid() && s.monitor.Scanning? && HedgeInv(cfg, s)
    requires t.hedged == s.hedged && t.hedges == s.hedges && t.hedgeRecords == s.hedgeRecords
    requires t.tokens == s.tokens + if t.monitor.Firing? then 1 else 0
    requires ScanOutcome(cfg, s, slot, openReads, t.monitor)
    ensures HedgeInv(cfg, t)
  {
  }

  lemma {:induction false} FireKeepsHedges(cfg: Config, s: State, step: MonitorStep)
    requires cfg.Valid() && MonitorEnabled(cfg, s, step) && (step.Mark? || step.RecordHedge?) && HedgeInv(cfg, s)
    ensures HedgeInv(cfg, ApplyMonitor(cfg, s, step))
  {
  }

  /** The marked slot's goroutine joins the others, none of which has its trigger. */
  lemma {:induction false} SpawnKeepsHedgesOk(cfg: Config, s: State)
    requires cfg.Valid() && MonitorEnabled(cfg, s, Spawn) && MonitorOk(cfg, s) && HedgesOk(cfg, s)
    ensures HedgesOk(cfg, ApplyMonitor(cfg, s, Spawn))
  {
    var t := ApplyMonitor(cfg, s, Spawn);
    var n := |s.hedges|;
    assert t.hedges[n] == Started(s.monitor) && t.hedges[..n] == s.hedges;
    assert forall j :: 0 <= j < n ==> t.hedges[j] == s.hedges[j];
  }

  lemma {:induction false} SpawnKeepsRecords(cfg: Config, s: State)
    requires cfg.Valid() && MonitorEnabled(cfg, s, Spawn) && RecordsOk(cfg, s)
    ensures RecordsOk(cfg, ApplyMonitor(cfg, s, Spawn))
  {
    var t := ApplyMonitor(cfg, s, Spawn);
    assert t.hedges[|s.hedges|] == Started(s.monitor) && t.hedges[..|s.hedges|] == s.hedges;
  }

  lemma {:induction false} SpawnKeepsHedges(cfg: Config, s: State, step: MonitorStep)
    requires cfg.Valid() && MonitorEnabled(cfg, s, step) && step.Spawn? && HedgeInv(cfg, s)
    ensures HedgeInv(cfg, ApplyMonitor(cfg, s, step))
  {
    SpawnKeepsHedgesOk(cfg, s);
    SpawnKeepsRecords(cfg, s);
  }

  lemma {:induction false} MonitorKeepsHedges(cfg: Config, s: State, step: MonitorStep)
    requires cfg.Valid() && MonitorEnabled(cfg, s, step) && HedgeInv(cfg, s)
    ensures HedgeInv(cfg, ApplyMonitor(cfg, s, step))
  {
    match step
    case Scan(_, _, _) => ScanKeepsHedges(cfg, s, step);
    case Mark => FireKeepsHedges(cfg, s, step);
    case RecordHedge => FireKeepsHedges(cfg, s, step);
    case Spawn => SpawnKeepsHedges(cfg, s, step);
    case _ =>
  }

  /** A hedge goroutine keeps its trigger, target, time and readings. */
  ghost predicate SameHedges(before: seq<Hedge>, after: seq<Hedge>) {
    && |after| == |before|
    && forall j :: 0 <= j < |before| ==>
         && after[j].trigger == before[j].trigger && after[j].target == before[j].target
         && after[j].firedAt == before[j].firedAt && after[j].openReads == before[j].openReads
  }

  lemma {:induction false} SameHedgesKeepInv(cfg: Config, s: State, t: State)
    requires cfg.Valid() && HedgeInv(cfg, s) && SameHedges(s.hedges, t.hedges)
    requires t.monitor == s.monitor && t.hedged == s.hedged && t.tokens == s.tokens && t.hedgeRecords == s.hedgeRecords
    ensures HedgeInv(cfg, t)
  {
  }

  lemma {:induction false} HedgeKeepsHedges(cfg: Config, s: State, j: nat, step: HedgeStep)
    requires cfg.Valid() && HedgeEnabled(cfg, s, j, step) && HedgeInv(cfg, s)
    ensures HedgeInv(cfg, ApplyHedge(cfg, s, j, step))
  {
    HedgeLocal(cfg, s, j, step);
    SameHedgesKeepInv(cfg, s, ApplyHedge(cfg, s, j, step));
  }
}
