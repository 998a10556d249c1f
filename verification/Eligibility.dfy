/** Which carriers a fan-out calls, what the hedge monitor may watch, and whom it picks. */
module Eligibility {
  import opened Domain
  import opened EmaTracker

  // ---- the capability and breaker filter ----

  ghost predicate Matches(c: Carrier, lines: seq<string>) {
    exists i, j :: 0 <= i < |c.capabilities| && 0 <= j < |lines| && c.capabilities[i] == lines[j]
  }

  ghost predicate StrictlyIncreasing(ks: seq<nat>) {
    forall i, j :: 0 <= i < j < |ks| ==> ks[i] < ks[j]
  }

  /** kept are the positions, in order, of the carriers that match and whose breaker did
      not read Open. */
  ghost predicate AreKept(carriers: seq<Carrier>, readsOpen: seq<bool>, lines: seq<string>, kept: seq<nat>)
    requires |readsOpen| == |carriers|
  {
    && StrictlyIncreasing(kept)
    && forall k: nat :: k in kept <==> k < |carriers| && !readsOpen[k] && Matches(carriers[k], lines)
  }

  ghost predicate ListsAt(eligible: seq<Carrier>, carriers: seq<Carrier>, kept: seq<nat>) {
    |eligible| == |kept| && forall i :: 0 <= i < |kept| ==> kept[i] < |carriers| && eligible[i] == carriers[kept[i]]
  }

  /** eligible lists, in configuration order and once each, exactly the carriers that
      match and whose breaker did not read Open. */
  ghost predicate IsFiltered(carriers: seq<Carrier>, readsOpen: seq<bool>, lines: seq<string>, eligible: seq<Carrier>)
    requires |readsOpen| == |carriers|
  {
    exists kept: seq<nat> :: AreKept(carriers, readsOpen, lines, kept) && ListsAt(eligible, carriers, kept)
  }

  /** readsOpen[i] is what the breaker of carrier i answers when the filter asks. */
  method FilterEligibleCarriers(carriers: seq<Carrier>, readsOpen: seq<bool>, lines: seq<string>)
    returns (eligible: seq<Carrier>)
    requires |readsOpen| == |carriers|
    ensures IsFiltered(carriers, readsOpen, lines, eligible)
  {
    var requested: set<string> := {};
    for i := 0 to |lines|
      invariant requested == set j | 0 <= j < i :: lines[j]
    {
      requested := requested + {lines[i]};
    }
    eligible := [];
    ghost var kept: seq<nat> := [];
    for k := 0 to |carriers|
      invariant StrictlyIncreasing(kept)
      invariant forall i: nat :: i in kept <==> i < k && !readsOpen[i] && Matches(carriers[i], lines)
      invariant forall i :: 0 <= i < |kept| ==> kept[i] < k
      invariant ListsAt(eligible, carriers, kept)
    {
      if readsOpen[k] {
        continue;
      }
      var found := false;
      for i := 0 to |carriers[k].capabilities|
        invariant found == exists p, q ::
          0 <= p < i && 0 <= q < |lines| && carriers[k].capabilities[p] == lines[q]
      {
        if carriers[k].capabilities[i] in requested {
          found := true;
          break;
        }
      }
      if found {
        eligible := eligible + [carriers[k]];
        kept := kept + [k];
      }
    }
    assert AreKept(carriers, readsOpen, lines, kept);
  }

  /** The specification leaves the filter no choice. */
  lemma {:induction false} FilterIsDetermined(
    carriers: seq<Carrier>, readsOpen: seq<bool>, lines: seq<string>,
    one: seq<Carrier>, other: seq<Carrier>)
    requires |readsOpen| == |carriers|
    requires IsFiltered(carriers, readsOpen, lines, one) && IsFiltered(carriers, readsOpen, lines, other)
    ensures one == other
  {
    var ks: seq<nat> :| AreKept(carriers, readsOpen, lines, ks) && ListsAt(one, carriers, ks);
    var ls: seq<nat> :| AreKept(carriers, readsOpen, lines, ls) && ListsAt(other, carriers, ls);
    forall k: nat ensures k in ks <==> k in ls {
    }
    IncreasingWithSameMembers(ks, ls);
  }

  lemma {:induction false} IncreasingWithSameMembers(a: seq<nat>, b: seq<nat>)
    requires StrictlyIncreasing(a) && StrictlyIncreasing(b)
    requires forall k: nat :: k in a <==> k in b
    ensures a == b
    decreases |a|
  {
    assert a == [] || a[|a| - 1] in b;
    assert b == [] || b[|b| - 1] in a;
    if a != [] {
      var x, y := a[|a| - 1], b[|b| - 1];
      assert x == y;
      var c, d := a[..|a| - 1], b[..|b| - 1];
      assert a == c + [x] && b == d + [x];
      forall k: nat ensures k in c <==> k in d {
        assert k in a <==> k in c || k == x;
        assert k in b <==> k in d || k == x;
      }
      IncreasingWithSameMembers(c, d);
    }
  }

  function CarrierIds(carriers: seq<Carrier>): set<string> {
    set c | c in carriers :: c.id
  }

  /** An ID whose every breaker read was Open is not among the eligible IDs. */
  lemma {:induction false} OpenCarriersAreFilteredOut(
    carriers: seq<Carrier>, readsOpen: seq<bool>, lines: seq<string>, eligible: seq<Carrier>, id: string)
    requires |readsOpen| == |carriers| && IsFiltered(carriers, readsOpen, lines, eligible)
    requires forall i :: 0 <= i < |carriers| && carriers[i].id == id ==> readsOpen[i]
    ensures id !in CarrierIds(eligible)
  {
    var kept: seq<nat> :| AreKept(carriers, readsOpen, lines, kept) && ListsAt(eligible, carriers, kept);
    forall i | 0 <= i < |eligible| ensures eligible[i].id != id {
      assert kept[i] in kept;
    }
  }

  // ---- what the monitor is given ----

  datatype HedgeCarrier = HedgeCarrier(carrier: Carrier, p95Ms: real)

  datatype PendingCarrier = PendingCarrier(startTime: int, hedgeThreshold: Threshold)

  /** Eligible carriers with an adapter, with the average read for each. */
  function HedgeableOf(eligible: seq<Carrier>, adapters: set<string>, averages: seq<real>): seq<HedgeCarrier>
    requires |averages| == |eligible|
  {
    if eligible == [] then []
    else
      var n := |eligible| - 1;
      HedgeableOf(eligible[..n], adapters, averages[..n]) +
      if eligible[n].id in adapters then [HedgeCarrier(eligible[n], averages[n])] else []
  }

  /** One slot per carrier ID. */
  function PendingOf(eligible: seq<Carrier>, starts: seq<int>, thresholds: seq<Threshold>): map<string, PendingCarrier>
    requires |starts| == |thresholds| == |eligible|
  {
    if eligible == [] then map[]
    else
      var n := |eligible| - 1;
      PendingOf(eligible[..n], starts[..n], thresholds[..n])
        [eligible[n].id := PendingCarrier(starts[n], thresholds[n])]
  }

  method PrepareHedging(
    eligible: seq<Carrier>, adapters: set<string>, averages: seq<real>, starts: seq<int>, thresholds: seq<Threshold>)
    returns (hedgeable: seq<HedgeCarrier>, pending: map<string, PendingCarrier>)
    requires |averages| == |starts| == |thresholds| == |eligible|
    ensures hedgeable == HedgeableOf(eligible, adapters, averages)
    ensures pending == PendingOf(eligible, starts, thresholds)
  {
    hedgeable := [];
    for i := 0 to |eligible|
      invariant hedgeable == HedgeableOf(eligible[..i], adapters, averages[..i])
    {
      assert eligible[..i + 1][..i] == eligible[..i] && averages[..i + 1][..i] == averages[..i];
      if eligible[i].id !in adapters {
        continue;
      }
      hedgeable := hedgeable + [HedgeCarrier(eligible[i], averages[i])];
    }
    pending := map[];
    for i := 0 to |eligible|
      invariant pending == PendingOf(eligible[..i], starts[..i], thresholds[..i])
    {
      assert eligible[..i + 1][..i] == eligible[..i] && starts[..i + 1][..i] == starts[..i]
             && thresholds[..i + 1][..i] == thresholds[..i];
      pending := pending[eligible[i].id := PendingCarrier(starts[i], thresholds[i])];
    }
    assert eligible[..|eligible|] == eligible && averages[..|eligible|] == averages
           && starts[..|eligible|] == starts && thresholds[..|eligible|] == thresholds;
  }

  /** hedgeable lists, in order and once each, exactly the eligible carriers with an
      adapter, each with its own average; at are their positions. */
  ghost predicate ListsHedgeable(
    eligible: seq<Carrier>, adapters: set<string>, averages: seq<real>, hedgeable: seq<HedgeCarrier>, at: seq<nat>)
    requires |averages| == |eligible|
  {
    && StrictlyIncreasing(at)
    && (forall k: nat :: k in at <==> k < |eligible| && eligible[k].id in adapters)
    && |hedgeable| == |at|
    && forall j :: 0 <= j < |at| ==>
         at[j] < |eligible| && hedgeable[j] == HedgeCarrier(eligible[at[j]], averages[at[j]])
  }

  lemma {:induction false} HedgeableMembers(eligible: seq<Carrier>, adapters: set<string>, averages: seq<real>)
    returns (at: seq<nat>)
    requires |averages| == |eligible|
    ensures ListsHedgeable(eligible, adapters, averages, HedgeableOf(eligible, adapters, averages), at)
  {
    at := [];
    if eligible != [] {
      var n := |eligible| - 1;
      var before := HedgeableMembers(eligible[..n], adapters, averages[..n]);
      at := if eligible[n].id in adapters then before + [n] else before;
      OneMoreHedgeable(eligible, adapters, averages, HedgeableOf(eligible[..n], adapters, averages[..n]), before);
    }
  }

  lemma {:induction false} OneMoreHedgeable(
    eligible: seq<Carrier>, adapters: set<string>, averages: seq<real>, hedgeable: seq<HedgeCarrier>, at: seq<nat>)
    requires |averages| == |eligible| > 0
    requires var n := |eligible| - 1; ListsHedgeable(eligible[..n], adapters, averages[..n], hedgeable, at)
    ensures var n := |eligible| - 1;
            var last := HedgeCarrier(eligible[n], averages[n]);
            if eligible[n].id in adapters
            then ListsHedgeable(eligible, adapters, averages, hedgeable + [last], at + [n])
            else ListsHedgeable(eligible, adapters, averages, hedgeable, at)
  {
    var n := |eligible| - 1;
    var more := at + [n];
    assert forall k: nat :: k in more <==> k in at || k == n;
    assert forall k :: 0 <= k < n ==> eligible[..n][k] == eligible[k] && averages[..n][k] == averages[k];
  }

  /** There is one slot per distinct eligible ID, so no more slots than carriers. */
  lemma {:induction false} PendingKeys(eligible: seq<Carrier>, starts: seq<int>, thresholds: seq<Threshold>)
    requires |starts| == |thresholds| == |eligible|
    ensures var p := PendingOf(eligible, starts, thresholds);
            p.Keys == CarrierIds(eligible) && |p| <= |eligible|
  {
    if eligible != [] {
      var n := |eligible| - 1;
      PendingKeys(eligible[..n], starts[..n], thresholds[..n]);
      var q := PendingOf(eligible[..n], starts[..n], thresholds[..n]);
      var p := PendingOf(eligible, starts, thresholds);
      assert eligible == eligible[..n] + [eligible[n]];
      assert p.Keys == q.Keys + {eligible[n].id};
      assert |p| <= |q| + 1;
    }
  }

  ghost predicate IsSlotOf(
    eligible: seq<Carrier>, starts: seq<int>, thresholds: seq<Threshold>, id: string, slot: PendingCarrier, i: nat)
    requires |starts| == |thresholds| == |eligible|
  {
    && i < |eligible| && eligible[i].id == id && slot == PendingCarrier(starts[i], thresholds[i])
    && forall k :: i < k < |eligible| ==> eligible[k].id != id
  }

  /** Each slot carries the start and threshold read for the last carrier with that ID. */
  lemma {:induction false} PendingSlot(
    eligible: seq<Carrier>, starts: seq<int>, thresholds: seq<Threshold>, id: string) returns (i: nat)
    requires |starts| == |thresholds| == |eligible|
    requires id in PendingOf(eligible, starts, thresholds)
    ensures IsSlotOf(eligible, starts, thresholds, id, PendingOf(eligible, starts, thresholds)[id], i)
  {
    var n := |eligible| - 1;
    if id == eligible[n].id {
      i := n;
    } else {
      i := PendingSlot(eligible[..n], starts[..n], thresholds[..n], id);
    }
  }

  // ---- whom to hedge with ----

  predicate Candidate(exclude: string, h: HedgeCarrier, readsOpen: bool) {
    h.carrier.id != exclude && !readsOpen
  }

  /** Lower average wins; priority breaks ties. */
  predicate Better(a: HedgeCarrier, b: HedgeCarrier) {
    a.p95Ms < b.p95Ms || (a.p95Ms == b.p95Ms && a.carrier.priority < b.carrier.priority)
  }

  function SelectAmong(exclude: string, hedgeable: seq<HedgeCarrier>, readsOpen: seq<bool>): (best: Option<nat>)
    requires |readsOpen| == |hedgeable|
    ensures best.Some? ==> best.value < |hedgeable|
  {
    if hedgeable == [] then None
    else
      var n := |hedgeable| - 1;
      var before := SelectAmong(exclude, hedgeable[..n], readsOpen[..n]);
      if !Candidate(exclude, hedgeable[n], readsOpen[n]) then before
      else if before.None? || Better(hedgeable[n], hedgeable[before.value]) then Some(n)
      else before
  }

  /** The scan for the best candidate; readsOpen[i] is what breaker i answers when asked. */
  method SelectHedgeCandidate(exclude: string, hedgeable: seq<HedgeCarrier>, readsOpen: seq<bool>)
    returns (best: Option<nat>)
    requires |readsOpen| == |hedgeable|
    ensures best == SelectAmong(exclude, hedgeable, readsOpen)
  {
    best := None;
    for i := 0 to |hedgeable|
      invariant best == SelectAmong(exclude, hedgeable[..i], readsOpen[..i])
    {
      assert hedgeable[..i + 1][..i] == hedgeable[..i] && readsOpen[..i + 1][..i] == readsOpen[..i];
      if hedgeable[i].carrier.id == exclude {
        continue;
      }
      if readsOpen[i] {
        continue;
      }
      if best == None {
        best := Some(i);
        continue;
      }
      if hedgeable[i].p95Ms < hedgeable[best.value].p95Ms {
        best := Some(i);
      } else if hedgeable[i].p95Ms == hedgeable[best.value].p95Ms
                && hedgeable[i].carrier.priority < hedgeable[best.value].carrier.priority {
        best := Some(i);
      }
    }
    assert hedgeable[..|hedgeable|] == hedgeable && readsOpen[..|hedgeable|] == readsOpen;
  }

  /** k is the candidate with the lowest average; among those with that average, one with
      the lowest priority value; and among those, the first. */
  ghost predicate IsBest(exclude: string, hedgeable: seq<HedgeCarrier>, readsOpen: seq<bool>, k: nat)
    requires |readsOpen| == |hedgeable|
  {
    && k < |hedgeable|
    && hedgeable[k].carrier.id != exclude && !readsOpen[k]
    && forall j :: 0 <= j < |hedgeable| && hedgeable[j].carrier.id != exclude && !readsOpen[j] ==>
         && hedgeable[k].p95Ms <= hedgeable[j].p95Ms
         && (hedgeable[k].p95Ms == hedgeable[j].p95Ms ==>
               && hedgeable[k].carrier.priority <= hedgeable[j].carrier.priority
               && (hedgeable[k].carrier.priority == hedgeable[j].carrier.priority ==> k <= j))
  }

  /** The scan finds the best candidate, and finds none exactly when there is none. */
  lemma {:induction false} SelectFindsTheBest(exclude: string, hedgeable: seq<HedgeCarrier>, readsOpen: seq<bool>)
    requires |readsOpen| == |hedgeable|
    ensures var best := SelectAmong(exclude, hedgeable, readsOpen);
            && (best.Some? ==> IsBest(exclude, hedgeable, readsOpen, best.value))
            && (best.None? <==> forall j :: 0 <= j < |hedgeable| ==>
                  hedgeable[j].carrier.id == exclude || readsOpen[j])
  {
    if hedgeable != [] {
      var n := |hedgeable| - 1;
      var hs, rs := hedgeable[..n], readsOpen[..n];
      SelectFindsTheBest(exclude, hs, rs);
      assert forall j :: 0 <= j < n ==> hs[j] == hedgeable[j] && rs[j] == readsOpen[j];
      var best, before := SelectAmong(exclude, hedgeable, readsOpen), SelectAmong(exclude, hs, rs);
      if before.Some? && best.Some? && best != before {
        assert Better(hedgeable[n], hedgeable[before.value]);
      }
    }
  }

  lemma {:induction false} BestIsUnique(
    exclude: string, hedgeable: seq<HedgeCarrier>, readsOpen: seq<bool>, k: nat, m: nat)
    requires |readsOpen| == |hedgeable|
    requires IsBest(exclude, hedgeable, readsOpen, k) && IsBest(exclude, hedgeable, readsOpen, m)
    ensures k == m
  {
  }

  // ---- the choice among the eligible carriers ----

  /** Eligible carrier k may take a hedge for exclude: it has an adapter and another ID,
      and its breaker did not read Open while the monitor was selecting. */
  ghost predicate MayTakeHedge(exclude: string, eligible: seq<Carrier>, at: seq<nat>, readsOpen: seq<bool>, k: nat)
    requires |readsOpen| == |at|
  {
    k < |eligible| && eligible[k].id != exclude && exists j :: 0 <= j < |at| && at[j] == k && !readsOpen[j]
  }

  /** Of the eligible carriers that may take the hedge, k has the lowest average; among
      those with that average, the lowest priority value; and among those it is first. */
  ghost predicate IsBestEligible(
    exclude: string, eligible: seq<Carrier>, averages: seq<real>, at: seq<nat>, readsOpen: seq<bool>, k: nat)
    requires |readsOpen| == |at| && |averages| == |eligible|
  {
    && MayTakeHedge(exclude, eligible, at, readsOpen, k)
    && forall i: nat :: MayTakeHedge(exclude, eligible, at, readsOpen, i) ==>
         && averages[k] <= averages[i]
         && (averages[k] == averages[i] ==>
               && eligible[k].priority <= eligible[i].priority
               && (eligible[k].priority == eligible[i].priority ==> k <= i))
  }

  lemma {:induction false} BestOfAllEligible(
    exclude: string, eligible: seq<Carrier>, adapters: set<string>, averages: seq<real>,
    hedgeable: seq<HedgeCarrier>, at: seq<nat>, readsOpen: seq<bool>, k: nat)
    requires |averages| == |eligible| && |readsOpen| == |hedgeable|
    requires ListsHedgeable(eligible, adapters, averages, hedgeable, at)
    requires IsBest(exclude, hedgeable, readsOpen, k)
    ensures IsBestEligible(exclude, eligible, averages, at, readsOpen, at[k])
  {
    forall i: nat | MayTakeHedge(exclude, eligible, at, readsOpen, i)
      ensures averages[at[k]] <= averages[i]
      ensures averages[at[k]] == averages[i] ==>
                && eligible[at[k]].priority <= eligible[i].priority
                && (eligible[at[k]].priority == eligible[i].priority ==> at[k] <= i)
    {
      var j :| 0 <= j < |at| && at[j] == i && !readsOpen[j];
      assert hedgeable[j].carrier.id != exclude && hedgeable[j].p95Ms == averages[i];
      assert k < j ==> at[k] < at[j];
    }
  }

  /** Of all eligible carriers, the selection takes the best that may take the hedge, and
      takes none exactly when there is none. */
  lemma {:induction false} SelectsTheBestEligible(
    exclude: string, eligible: seq<Carrier>, adapters: set<string>, averages: seq<real>, readsOpen: seq<bool>)
    returns (at: seq<nat>)
    requires |averages| == |eligible| && |readsOpen| == |HedgeableOf(eligible, adapters, averages)|
    ensures ListsHedgeable(eligible, adapters, averages, HedgeableOf(eligible, adapters, averages), at)
    ensures var best := SelectAmong(exclude, HedgeableOf(eligible, adapters, averages), readsOpen);
            && (best.Some? ==> IsBestEligible(exclude, eligible, averages, at, readsOpen, at[best.value]))
            && (best.None? <==> forall k: nat :: !MayTakeHedge(exclude, eligible, at, readsOpen, k))
  {
    var hedgeable := HedgeableOf(eligible, adapters, averages);
    var best := SelectAmong(exclude, hedgeable, readsOpen);
    at := HedgeableMembers(eligible, adapters, averages);
    SelectFindsTheBest(exclude, hedgeable, readsOpen);
    if best.Some? {
      BestOfAllEligible(exclude, eligible, adapters, averages, hedgeable, at, readsOpen, best.value);
    } else {
      forall k: nat ensures !MayTakeHedge(exclude, eligible, at, readsOpen, k) {
        assert forall j :: 0 <= j < |at| ==> hedgeable[j].carrier.id == exclude || readsOpen[j];
      }
    }
  }
}
