/** What the goroutines of a fan-out record, call, send and collect. */
module FanOutResults {
  import opened Domain
  import opened Collector
  import opened Eligibility
  import opened FanOut
  import opened FanOutSafety

  // ---- outcomes of one primary ----

  ghost predicate HasAdapter(cfg: Config, i: nat)
    requires i < |cfg.eligible|
  {
    cfg.eligible[i].id in cfg.adapters
  }

  ghost predicate Untouched(p: PrimaryState) {
    p.statuses == [] && p.observed == 0 && p.offered == 0 && p.delivered.None?
  }

  /** q could be a result of primary i. */
  ghost predicate Stamped(cfg: Config, i: nat, q: Quote)
    requires i < |cfg.eligible|
  {
    q.requestID == cfg.requestID && (cfg.adaptersStamp ==> q.carrierID == cfg.eligible[i].id)
  }

  ghost predicate PrimaryOk(cfg: Config, i: nat, p: PrimaryState)
    requires i < |cfg.eligible|
  {
    match p.pc
    case Unstarted => Untouched(p)
    case Looking => Untouched(p)
    case AwaitToken => Untouched(p) && HasAdapter(cfg, i)
    case AtBreaker => Untouched(p) && HasAdapter(cfg, i)
    case InAdapter => Untouched(p) && HasAdapter(cfg, i)
    case Observing(q) => Untouched(p) && HasAdapter(cfg, i) && Stamped(cfg, i, q)
    case Reporting(q) =>
      p.statuses == [] && p.observed == 1 && p.offered == 0 && p.delivered.None?
      && HasAdapter(cfg, i) && Stamped(cfg, i, q)
    case Sending(q) =>
      p.statuses == [Success] && p.observed == 1 && p.offered == 0 && p.delivered.None?
      && HasAdapter(cfg, i) && Stamped(cfg, i, q)
    case Failing(_) => Untouched(p) && HasAdapter(cfg, i)
    case Exited => FinishedOk(cfg, i, p)
  }

  /** A finished primary recorded one status if its carrier has an adapter and none
      otherwise; it observed a latency and offered a result exactly on success. */
  ghost predicate FinishedOk(cfg: Config, i: nat, p: PrimaryState)
    requires i < |cfg.eligible|
  {
    && |p.statuses| == (if HasAdapter(cfg, i) then 1 else 0)
    && p.observed == p.offered == (if p.statuses != [] && p.statuses[0] == Success then 1 else 0)
    && (p.delivered.Some? ==> p.offered == 1 && Stamped(cfg, i, p.delivered.value))
  }

  ghost predicate OutcomeInv(cfg: Config, s: State) {
    && |s.primaries| == |cfg.eligible|
    && forall i :: 0 <= i < |s.primaries| ==> PrimaryOk(cfg, i, s.primaries[i])
  }

  lemma {:induction false} PrimaryNextOk(cfg: Config, s: State, i: nat, step: PrimaryStep)
    requires PrimaryEnabled(cfg, s, i, step) && PrimaryOk(cfg, i, s.primaries[i])
    ensures PrimaryOk(cfg, i, PrimaryNext(cfg, s, i, step))
  {
  }

  lemma {:induction false} PrimaryKeepsOutcomes(cfg: Config, s: State, i: nat, step: PrimaryStep)
    requires PrimaryEnabled(cfg, s, i, step) && OutcomeInv(cfg, s)
    ensures OutcomeInv(cfg, ApplyPrimary(cfg, s, i, step))
  {
    PrimaryNextOk(cfg, s, i, step);
  }

  lemma {:induction false} MainKeepsOutcomes(cfg: Config, s: State, step: MainStep)
    requires MainEnabled(cfg, s, step) && LaunchInv(cfg, s) && OutcomeInv(cfg, s)
    ensures OutcomeInv(cfg, ApplyMain(cfg, s, step))
  {
    if step.Receive? {
      ReceiveLocal(cfg, s);
    }
  }

  // ---- adapter calls ----

  /** Every adapter call went to an eligible carrier that has an adapter. */
  ghost predicate CallInv(cfg: Config, s: State) {
    forall k :: 0 <= k < |s.calls| ==> s.calls[k] in CarrierIds(cfg.eligible) && s.calls[k] in cfg.adapters
  }

  lemma {:induction false} PrimaryKeepsCalls(cfg: Config, s: State, i: nat, step: PrimaryStep)
    requires PrimaryEnabled(cfg, s, i, step) && OutcomeInv(cfg, s) && CallInv(cfg, s)
    ensures CallInv(cfg, ApplyPrimary(cfg, s, i, step))
  {
    assert cfg.eligible[i] in cfg.eligible;
    assert PrimaryOk(cfg, i, s.primaries[i]);
  }

  lemma {:induction false} HedgeKeepsCalls(cfg: Config, s: State, j: nat, step: HedgeStep)
    requires cfg.Valid() && HedgeEnabled(cfg, s, j, step) && CallInv(cfg, s)
    ensures CallInv(cfg, ApplyHedge(cfg, s, j, step))
  {
    TargetIsEligible(cfg, s.hedges[j].target);
  }

  lemma {:induction false} TargetIsEligible(cfg: Config, target: nat)
    requires cfg.Valid() && target < |cfg.Hedgeable()|
    ensures cfg.Hedgeable()[target].carrier.id in CarrierIds(cfg.eligible)
    ensures cfg.Hedgeable()[target].carrier.id in cfg.adapters
  {
    var at := HedgeableMembers(cfg.eligible, cfg.adapters, cfg.averages);
    assert at[target] in at && cfg.eligible[at[target]] in cfg.eligible;
  }

  // ---- what travels through the channel ----

  ghost predicate FromPrimary(s: State, q: Quote) {
    exists i :: 0 <= i < |s.primaries| && s.primaries[i].delivered == Some(q)
  }

  ghost predicate FromHedge(s: State, q: Quote) {
    exists j :: 0 <= j < |s.hedges| && s.hedges[j].delivered == Some(q)
  }

  function Once(delivered: Option<Quote>, q: Quote): nat {
    if delivered == Some(q) then 1 else 0
  }

  /** How many primaries sent q. */
  function TimesSent(ps: seq<PrimaryState>, q: Quote): nat {
    if ps == [] then 0 else TimesSent(ps[..|ps| - 1], q) + Once(ps[|ps| - 1].delivered, q)
  }

  /** How many hedges sent q; two hedges of one carrier may send equal quotes. */
  function HedgeTimesSent(hs: seq<Hedge>, q: Quote): nat {
    if hs == [] then 0 else HedgeTimesSent(hs[..|hs| - 1], q) + Once(hs[|hs| - 1].delivered, q)
  }

  /** Every quote was received, or is still in the channel, as often as it was sent:
      none is lost and none is doubled. */
  ghost predicate ChannelInv(s: State) {
    forall q :: multiset(s.arrivals + s.buffer)[q] == TimesSent(s.primaries, q) + HedgeTimesSent(s.hedges, q)
  }

  ghost predicate HedgeResultOk(cfg: Config, h: Hedge)
    requires cfg.Valid()
  {
    && h.target < |cfg.Hedgeable()|
    && (h.pc.HSending? ==> HedgeStamped(cfg, h, h.pc.q) && h.delivered.None?)
    && (h.delivered.Some? ==> h.pc.HExited? && HedgeStamped(cfg, h, h.delivered.value))
  }

  ghost predicate HedgeStamped(cfg: Config, h: Hedge, q: Quote)
    requires cfg.Valid() && h.target < |cfg.Hedgeable()|
  {
    q.isHedged && (cfg.adaptersStamp ==> q.carrierID == cfg.Hedgeable()[h.target].carrier.id)
  }

  ghost predicate HedgeResultInv(cfg: Config, s: State)
    requires cfg.Valid()
  {
    forall j :: 0 <= j < |s.hedges| ==> HedgeResultOk(cfg, s.hedges[j])
  }

  lemma {:induction false} HedgeKeepsResults(cfg: Config, s: State, j: nat, step: HedgeStep)
    requires cfg.Valid() && HedgeEnabled(cfg, s, j, step) && HedgeResultInv(cfg, s)
    ensures HedgeResultInv(cfg, ApplyHedge(cfg, s, j, step))
  {
    var h := s.hedges[j];
    assert HedgeResultOk(cfg, h);
    HedgeNextOk(cfg, s, j, step);
  }

  lemma {:induction false} HedgeNextOk(cfg: Config, s: State, j: nat, step: HedgeStep)
    requires cfg.Valid() && HedgeEnabled(cfg, s, j, step) && HedgeResultOk(cfg, s.hedges[j])
    ensures HedgeResultOk(cfg, HedgeNext(cfg, s, j, step))
  {
  }

  lemma {:induction false} MonitorKeepsResults(cfg: Config, s: State, step: MonitorStep)
    requires cfg.Valid() && MonitorEnabled(cfg, s, step) && MonitorOk(cfg, s) && HedgeResultInv(cfg, s)
    ensures HedgeResultInv(cfg, ApplyMonitor(cfg, s, step))
  {
    if step.Spawn? {
      assert Justified(cfg, s.monitor.trigger, s.monitor.target, s.monitor.at, s.monitor.openReads);
    }
  }

  lemma {:induction false} TimesSentUpdate(ps: seq<PrimaryState>, i: nat, p: PrimaryState, q: Quote)
    requires i < |ps|
    ensures TimesSent(ps[i := p], q) == TimesSent(ps, q) - Once(ps[i].delivered, q) + Once(p.delivered, q)
    decreases |ps|
  {
    var n := |ps| - 1;
    if i == n {
      assert ps[i := p][..n] == ps[..n];
    } else {
      assert ps[i := p][..n] == ps[..n][i := p];
      TimesSentUpdate(ps[..n], i, p, q);
    }
  }

  lemma {:induction false} HedgeTimesSentUpdate(hs: seq<Hedge>, j: nat, h: Hedge, q: Quote)
    requires j < |hs|
    ensures HedgeTimesSent(hs[j := h], q) == HedgeTimesSent(hs, q) - Once(hs[j].delivered, q) + Once(h.delivered, q)
    decreases |hs|
  {
    var n := |hs| - 1;
    if j == n {
      assert hs[j := h][..n] == hs[..n];
    } else {
      assert hs[j := h][..n] == hs[..n][j := h];
      HedgeTimesSentUpdate(hs[..n], j, h, q);
    }
  }

  lemma {:induction false} SentBySomebody(ps: seq<PrimaryState>, q: Quote)
    ensures TimesSent(ps, q) > 0 <==> exists i :: 0 <= i < |ps| && ps[i].delivered == Some(q)
  {
    if ps != [] {
      var n := |ps| - 1;
      SentBySomebody(ps[..n], q);
      if i :| 0 <= i < |ps| && ps[i].delivered == Some(q) {
        assert i < n ==> ps[..n][i].delivered == Some(q);
      }
    }
  }

  lemma {:induction false} HedgeSentBySomebody(hs: seq<Hedge>, q: Quote)
    ensures HedgeTimesSent(hs, q) > 0 <==> exists j :: 0 <= j < |hs| && hs[j].delivered == Some(q)
  {
    if hs != [] {
      var n := |hs| - 1;
      HedgeSentBySomebody(hs[..n], q);
      if j :| 0 <= j < |hs| && hs[j].delivered == Some(q) {
        assert j < n ==> hs[..n][j].delivered == Some(q);
      }
    }
  }

  /** What is in the channel or received came from somebody, and the other way round. */
  lemma {:induction false} ChannelMembers(s: State, q: Quote)
    requires ChannelInv(s)
    ensures q in s.arrivals + s.buffer <==> FromPrimary(s, q) || FromHedge(s, q)
  {
    SentBySomebody(s.primaries, q);
    HedgeSentBySomebody(s.hedges, q);
    assert q in s.arrivals + s.buffer <==> multiset(s.arrivals + s.buffer)[q] > 0;
  }

  lemma {:induction false} OneMoreInMultiset(quotes: seq<Quote>, sent: Quote, q: Quote)
    ensures multiset(quotes + [sent])[q] == multiset(quotes)[q] + (if sent == q then 1 else 0)
  {
  }

  lemma {:induction false} SentReachesChannel(s: State, t: State, sent: Quote)
    requires ChannelInv(s)
    requires t.arrivals == s.arrivals && t.buffer == s.buffer + [sent]
    requires forall q :: TimesSent(t.primaries, q) + HedgeTimesSent(t.hedges, q)
                      == TimesSent(s.primaries, q) + HedgeTimesSent(s.hedges, q) + if sent == q then 1 else 0
    ensures ChannelInv(t)
  {
    assert t.arrivals + t.buffer == (s.arrivals + s.buffer) + [sent];
    forall q
      ensures multiset(t.arrivals + t.buffer)[q] == TimesSent(t.primaries, q) + HedgeTimesSent(t.hedges, q)
    {
      OneMoreInMultiset(s.arrivals + s.buffer, sent, q);
    }
  }

  lemma {:induction false} NothingSent(s: State, t: State)
    requires ChannelInv(s) && t.arrivals + t.buffer == s.arrivals + s.buffer
    requires forall q :: TimesSent(t.primaries, q) == TimesSent(s.primaries, q)
    requires forall q :: HedgeTimesSent(t.hedges, q) == HedgeTimesSent(s.hedges, q)
    ensures ChannelInv(t)
  {
  }

  lemma {:induction false} PrimaryKeepsChannel(cfg: Config, s: State, i: nat, step: PrimaryStep)
    requires PrimaryEnabled(cfg, s, i, step) && CountInv(s) && ChannelInv(s)
    ensures ChannelInv(ApplyPrimary(cfg, s, i, step))
  {
    var t, p := ApplyPrimary(cfg, s, i, step), PrimaryNext(cfg, s, i, step);
    PrimaryLocal(cfg, s, i, step);
    if step.Send? && s.closed {
      assert t == s.(panicked := true);
    } else {
      PrimaryDelivery(s, t, i, p, if step.Send? then Some(s.primaries[i].pc.q) else None);
    }
  }

  lemma {:induction false} PrimaryDelivery(s: State, t: State, i: nat, p: PrimaryState, sent: Option<Quote>)
    requires ChannelInv(s) && i < |s.primaries|
    requires t.primaries == s.primaries[i := p] && t.hedges == s.hedges && t.arrivals == s.arrivals
    requires if sent.Some?
             then t.buffer == s.buffer + [sent.value] && s.primaries[i].delivered.None? && p.delivered == sent
             else t.buffer == s.buffer && p.delivered == s.primaries[i].delivered
    ensures ChannelInv(t)
  {
    forall q ensures TimesSent(t.primaries, q) == TimesSent(s.primaries, q) + Once(sent, q) {
      TimesSentUpdate(s.primaries, i, p, q);
    }
    if sent.Some? {
      SentReachesChannel(s, t, sent.value);
    } else {
      NothingSent(s, t);
    }
  }

  lemma {:induction false} HedgeKeepsChannel(cfg: Config, s: State, j: nat, step: HedgeStep)
    requires cfg.Valid() && HedgeEnabled(cfg, s, j, step) && CountInv(s) && ChannelInv(s)
    ensures ChannelInv(ApplyHedge(cfg, s, j, step))
  {
    var t, h := ApplyHedge(cfg, s, j, step), HedgeNext(cfg, s, j, step);
    HedgeLocal(cfg, s, j, step);
    if step.HedgeSend? && s.closed {
      assert t == s.(panicked := true);
    } else {
      HedgeDelivery(s, t, j, h, if step.HedgeSend? then Some(s.hedges[j].pc.q) else None);
    }
  }

  lemma {:induction false} HedgeDelivery(s: State, t: State, j: nat, h: Hedge, sent: Option<Quote>)
    requires ChannelInv(s) && j < |s.hedges|
    requires t.hedges == s.hedges[j := h] && t.primaries == s.primaries && t.arrivals == s.arrivals
    requires if sent.Some?
             then t.buffer == s.buffer + [sent.value] && s.hedges[j].delivered.None? && h.delivered == sent
             else t.buffer == s.buffer && h.delivered == s.hedges[j].delivered
    ensures ChannelInv(t)
  {
    forall q ensures HedgeTimesSent(t.hedges, q) == HedgeTimesSent(s.hedges, q) + Once(sent, q) {
      HedgeTimesSentUpdate(s.hedges, j, h, q);
    }
    if sent.Some? {
      SentReachesChannel(s, t, sent.value);
    } else {
      NothingSent(s, t);
    }
  }

  lemma {:induction false} MonitorKeepsChannel(cfg: Config, s: State, step: MonitorStep)
    requires cfg.Valid() && MonitorEnabled(cfg, s, step) && ChannelInv(s)
    ensures ChannelInv(ApplyMonitor(cfg, s, step))
  {
    var t := ApplyMonitor(cfg, s, step);
    assert step.Spawn? ==> t.hedges[..|s.hedges|] == s.hedges;
    NothingSent(s, t);
  }

  lemma {:induction false} LaunchKeepsChannel(cfg: Config, s: State)
    requires MainEnabled(cfg, s, Launch) && ChannelInv(s)
    ensures ChannelInv(ApplyMain(cfg, s, Launch))
  {
    var t := ApplyMain(cfg, s, Launch);
    if s.main.next < |cfg.eligible| {
      PrimaryDelivery(s, t, s.main.next, s.primaries[s.main.next].(pc := Looking), None);
    } else {
      NothingSent(s, t);
    }
  }

  lemma {:induction false} MainKeepsChannel(cfg: Config, s: State, step: MainStep)
    requires MainEnabled(cfg, s, step) && ChannelInv(s)
    ensures ChannelInv(ApplyMain(cfg, s, step))
  {
    match step
    case Launch => LaunchKeepsChannel(cfg, s);
    case Receive =>
      ReceiveLocal(cfg, s);
      NothingSent(s, ApplyMain(cfg, s, step));
    case Return(_) => NothingSent(s, ApplyMain(cfg, s, step));
  }

  // ---- offers that were dropped ----

  /** A result that was offered and not sent was dropped because the request was done. */
  ghost predicate DropInv(s: State) {
    forall i :: 0 <= i < |s.primaries| && s.primaries[i].offered > 0 && s.primaries[i].delivered.None? ==>
      s.requestDone
  }

  lemma {:induction false} PrimaryOffers(cfg: Config, s: State, i: nat, step: PrimaryStep)
    requires PrimaryEnabled(cfg, s, i, step)
    ensures var p, p' := s.primaries[i], PrimaryNext(cfg, s, i, step);
            && !p.pc.Exited?
            && (!step.Send? && !step.Drop? ==> p'.offered == p.offered && p'.delivered == p.delivered)
            && (step.Send? ==> p'.delivered.Some?)
            && (step.Drop? ==> GroupCtxDone(s))
  {
  }

  lemma {:induction false} PrimaryKeepsDrops(cfg: Config, s: State, i: nat, step: PrimaryStep)
    requires PrimaryEnabled(cfg, s, i, step) && CloseInv(s) && DropInv(s)
    ensures DropInv(ApplyPrimary(cfg, s, i, step))
  {
    PrimaryOffers(cfg, s, i, step);
  }

  // ---- the collector ----

  ghost predicate CollectInv(s: State) {
    && s.collected == FirstArrivals(s.arrivals)
    && s.seen == IdsOf(s.arrivals)
    && (s.main.Returned? ==> IsSortOf(s.main.answer, s.collected))
  }

  lemma {:induction false} MainKeepsCollected(cfg: Config, s: State, step: MainStep)
    requires MainEnabled(cfg, s, step) && CollectInv(s)
    ensures CollectInv(ApplyMain(cfg, s, step))
  {
    if step.Receive? {
      ReceiveLocal(cfg, s);
      FirstArrivalsAppend(s.arrivals, s.buffer[0]);
    }
  }
}
