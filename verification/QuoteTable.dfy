/** The Quotes table: upserts, expiry-filtered lookups, and a background deleter. */
module QuoteTable {
  import opened Domain

  datatype Key = Key(requestID: string, carrierID: string)

  datatype Row = Row(
    premiumCents: int, currency: string, expiresAt: int, isHedged: bool,
    latencyMs: int, carrierRef: string, createdAt: int)

  type Table = map<Key, Row>

  /** A row as the query returns it, with the carrier column of its key. */
  datatype Found = Found(carrierID: string, row: Row)

  datatype Lookup = Hit(quotes: seq<Quote>) | Miss | Failed

  function RowOf(q: Quote, commitTime: int): Row {
    Row(q.premium.amount, q.premium.currency, q.expiresAt, q.isHedged,
        Milliseconds(q.latency), q.carrierRef, commitTime)
  }

  function QuoteOf(requestID: string, f: Found): Quote {
    Quote(requestID, f.carrierID, Money(f.row.premiumCents, f.row.currency), f.row.expiresAt,
          f.row.carrierRef, f.row.latencyMs * NANOS_PER_MILLI, f.row.isHedged)
  }

  /** One mutation batch applied in order: a later row for a key replaces an earlier. */
  function Upserted(t: Table, requestID: string, quotes: seq<Quote>, commitTime: int): Table {
    if quotes == [] then t
    else
      var n := |quotes| - 1;
      Upserted(t, requestID, quotes[..n], commitTime)
        [Key(requestID, quotes[n].carrierID) := RowOf(quotes[n], commitTime)]
  }

  predicate Live(r: Row, now: int) { r.expiresAt > now }

  ghost predicate IsLiveRow(t: Table, requestID: string, now: int, f: Found) {
    var k := Key(requestID, f.carrierID);
    k in t && t[k] == f.row && Live(f.row, now)
  }

  /** What the database may answer to the lookup query: the live rows of the request,
      once each, by ascending premium. Ties may come in any order. */
  ghost predicate IsQueryAnswer(t: Table, requestID: string, now: int, answer: seq<Found>) {
    && (forall f :: f in answer <==> IsLiveRow(t, requestID, now, f))
    && (forall i, j :: 0 <= i < j < |answer| ==> answer[i].carrierID != answer[j].carrierID)
    && (forall i, j :: 0 <= i < j < |answer| ==> answer[i].row.premiumCents <= answer[j].row.premiumCents)
  }

  /** Rows a delete pass removes when it gets through to the keys in reach only. */
  function Purged(t: Table, now: int, reach: set<Key>): Table {
    map k | k in t && !(k in reach && !Live(t[k], now)) :: t[k]
  }

  class QuoteRepo {
    var rows: Table

    constructor ()
      ensures rows == map[]
    {
      rows := map[];
    }

    /** commit is what the database does with the batch: a commit time, or an error,
        in which case nothing of the batch is applied. */
    method Save(requestID: string, results: seq<Quote>, commit: Result<int, string>) returns (ok: bool)
      modifies this
      ensures ok == commit.Ok?
      ensures rows == if commit.Ok? then Upserted(old(rows), requestID, results, commit.value) else old(rows)
    {
      var mutations: seq<(Key, Quote)> := [];
      for i := 0 to |results|
        invariant |mutations| == i
        invariant forall k :: 0 <= k < i ==> mutations[k] == (Key(requestID, results[k].carrierID), results[k])
      {
        mutations := mutations + [(Key(requestID, results[i].carrierID), results[i])];
      }
      if commit.Err? {
        return false;
      }
      for i := 0 to |mutations|
        invariant rows == Upserted(old(rows), requestID, results[..i], commit.value)
      {
        rows := rows[mutations[i].0 := RowOf(mutations[i].1, commit.value)];
        assert results[..i + 1][..i] == results[..i];
      }
      assert results[..|results|] == results;
      return true;
    }

    /** The row callback of the lookup: convert and append, row by row. */
    method FindByRequestID(requestID: string, now: int, response: Result<seq<Found>, string>)
      returns (lookup: Lookup)
      requires response.Ok? ==> IsQueryAnswer(rows, requestID, now, response.value)
      ensures lookup == Failed <==> response.Err?
      ensures lookup == Miss <==> response.Ok? && forall f :: !IsLiveRow(rows, requestID, now, f)
      ensures lookup.Hit? ==> IsReplay(rows, requestID, now, lookup.quotes)
    {
      if response.Err? {
        return Failed;
      }
      var answer := response.value;
      var results: seq<Quote> := [];
      for i := 0 to |answer|
        invariant |results| == i
        invariant forall k :: 0 <= k < i ==> results[k] == QuoteOf(requestID, answer[k])
      {
        results := results + [QuoteOf(requestID, answer[i])];
      }
      if |results| == 0 {
        return Miss;
      }
      assert IsLiveRow(rows, requestID, now, answer[0]);
      assert results == Converted(requestID, answer);
      return Hit(results);
    }

    /** A partitioned delete visits the keys in reach only, all of them or fewer. If it
        fails part way, failure says so: what it deleted stays deleted, and no number
        is returned. */
    method DeleteExpired(now: int, reach: set<Key>, failure: Option<string>) returns (deleted: Result<nat, string>)
      modifies this
      ensures rows == Purged(old(rows), now, reach)
      ensures deleted.Err? <==> failure.Some?
      ensures deleted.Ok? ==> deleted.value == |old(rows)| - |rows|
    {
      var kept := Purged(rows, now, reach);
      assert kept.Keys <= rows.Keys;
      SubsetIsSmaller(kept.Keys, rows.Keys);
      var count := |rows| - |kept|;
      rows := kept;
      if failure.Some? {
        return Err(failure.value);
      }
      return Ok(count);
    }
  }

  ghost function Converted(requestID: string, answer: seq<Found>): seq<Quote> {
    seq(|answer|, i requires 0 <= i < |answer| => QuoteOf(requestID, answer[i]))
  }

  /** quotes is the conversion of some answer the database may give. */
  ghost predicate IsReplay(t: Table, requestID: string, now: int, quotes: seq<Quote>) {
    exists answer :: IsQueryAnswer(t, requestID, now, answer) && quotes == Converted(requestID, answer)
  }

  // ---- background cleanup is invisible ----

  datatype Op =
    | SaveOp(now: int, requestID: string, quotes: seq<Quote>)
    | PurgeOp(now: int, reach: set<Key>)

  /** The table after an operation. */
  function After(t: Table, op: Op): Table {
    match op
    case SaveOp(now, requestID, quotes) => Upserted(t, requestID, quotes, now)
    case PurgeOp(now, reach) => Purged(t, now, reach)
  }

  function AfterAll(t: Table, ops: seq<Op>): Table {
    if ops == [] then t else After(AfterAll(t, ops[..|ops| - 1]), ops[|ops| - 1])
  }

  /** The same operations with the deleter switched off. */
  function AfterSavesOnly(t: Table, ops: seq<Op>): Table {
    if ops == [] then t
    else
      var before := AfterSavesOnly(t, ops[..|ops| - 1]);
      var op := ops[|ops| - 1];
      if op.PurgeOp? then before else After(before, op)
  }

  ghost predicate ClockNeverGoesBack(ops: seq<Op>) {
    forall i, j :: 0 <= i < j < |ops| ==> ops[i].now <= ops[j].now
  }

  /** The purged table lacks only rows that expired by now. */
  ghost predicate LacksOnlyExpired(purged: Table, full: Table, now: int) {
    && purged.Keys <= full.Keys
    && (forall k :: k in purged ==> purged[k] == full[k])
    && (forall k :: k in full && k !in purged ==> !Live(full[k], now))
  }

  lemma {:induction false} SaveKeepsAgreement(
    purged: Table, full: Table, now: int, requestID: string, quotes: seq<Quote>, at: int)
    requires LacksOnlyExpired(purged, full, now)
    ensures LacksOnlyExpired(Upserted(purged, requestID, quotes, at), Upserted(full, requestID, quotes, at), now)
  {
    if quotes != [] {
      SaveKeepsAgreement(purged, full, now, requestID, quotes[..|quotes| - 1], at);
    }
  }

  lemma {:induction false} TablesAgreeOnLiveRows(t: Table, ops: seq<Op>, now: int)
    requires ClockNeverGoesBack(ops)
    requires forall op :: op in ops ==> op.now <= now
    ensures LacksOnlyExpired(AfterAll(t, ops), AfterSavesOnly(t, ops), now)
  {
    if ops != [] {
      var n := |ops| - 1;
      var op := ops[n];
      forall o | o in ops[..n] ensures o.now <= op.now {
        var i :| 0 <= i < n && ops[i] == o;
      }
      TablesAgreeOnLiveRows(t, ops[..n], op.now);
      var purged, full := AfterAll(t, ops[..n]), AfterSavesOnly(t, ops[..n]);
      match op {
        case SaveOp(at, requestID, quotes) =>
          SaveKeepsAgreement(purged, full, op.now, requestID, quotes, at);
        case PurgeOp(_, _) =>
      }
      assert op in ops;
    }
  }

  /** Whatever the deleter removes, in whatever pieces, no lookup can tell: the two
      tables have the same live rows, so the database may answer the same lists. */
  lemma {:induction false} CleanupIsInvisible(t: Table, ops: seq<Op>, now: int, requestID: string, answer: seq<Found>)
    requires ClockNeverGoesBack(ops)
    requires forall op :: op in ops ==> op.now <= now
    ensures IsQueryAnswer(AfterAll(t, ops), requestID, now, answer) <==>
            IsQueryAnswer(AfterSavesOnly(t, ops), requestID, now, answer)
  {
    TablesAgreeOnLiveRows(t, ops, now);
    var purged, full := AfterAll(t, ops), AfterSavesOnly(t, ops);
    forall f ensures IsLiveRow(purged, requestID, now, f) <==> IsLiveRow(full, requestID, now, f) {
      var k := Key(requestID, f.carrierID);
      assert k in full && k !in purged ==> !Live(full[k], now);
    }
  }

  /** A pass removes exactly the rows in reach that have expired, and keeps the others as
      they are. */
  lemma {:induction false} PurgedRows(t: Table, now: int, reach: set<Key>)
    ensures var p := Purged(t, now, reach);
            && (forall k :: k in p <==> k in t && (k !in reach || t[k].expiresAt > now))
            && (forall k :: k in p ==> p[k] == t[k])
  {
  }

  /** Deletions only, none of them before a time. */
  ghost predicate OnlyPurges(ops: seq<Op>, from: int) {
    forall op :: op in ops ==> op.PurgeOp? && op.now >= from
  }

  function Reach(ops: seq<Op>): set<Key> {
    if ops == [] then {}
    else Reach(ops[..|ops| - 1]) + if ops[|ops| - 1].PurgeOp? then ops[|ops| - 1].reach else {}
  }

  /** A delete pass may come in parts, at different times: what they reach together holds
      no row that had expired when the first part began. */
  lemma {:induction false} PartsTogetherDelete(t: Table, parts: seq<Op>, from: int)
    requires OnlyPurges(parts, from)
    ensures var p := AfterAll(t, parts);
            && (forall k :: k in p && k in Reach(parts) ==> p[k].expiresAt > from)
            && (forall k :: k in p ==> k in t && p[k] == t[k])
  {
    if parts != [] {
      var n := |parts| - 1;
      assert parts[n] in parts;
      forall op | op in parts[..n] ensures op in parts {
      }
      PartsTogetherDelete(t, parts[..n], from);
      PurgedRows(AfterAll(t, parts[..n]), parts[n].now, parts[n].reach);
    }
  }

  /** A complete pass leaves exactly the live rows, and a second one finds nothing. */
  lemma {:induction false} FullPassLeavesLiveRows(t: Table, now: int)
    ensures var p := Purged(t, now, t.Keys);
            && (forall k :: k in p <==> k in t && t[k].expiresAt > now)
            && (forall k :: k in p ==> p[k] == t[k])
            && Purged(p, now, p.Keys) == p
  {
  }

  // ---- save, then look up ----

  /** Distinct carriers never overwrite each other: every quote is stored under its
      own key, and other keys keep what they had. */
  lemma {:induction false} UpsertedRows(t: Table, requestID: string, quotes: seq<Quote>, at: int)
    requires DistinctIds(quotes)
    ensures var u := Upserted(t, requestID, quotes, at);
            && (forall i :: 0 <= i < |quotes| ==>
                  var k := Key(requestID, quotes[i].carrierID);
                  k in u && u[k] == RowOf(quotes[i], at) && u[k].createdAt == at)
            && (forall k: Key :: !(k.requestID == requestID && k.carrierID in IdsOf(quotes)) ==>
                  (k in u <==> k in t) && (k in u ==> u[k] == t[k]))
  {
    if quotes != [] {
      var n := |quotes| - 1;
      UpsertedRows(t, requestID, quotes[..n], at);
      assert quotes == quotes[..n] + [quotes[n]];
      assert IdsOf(quotes) == IdsOf(quotes[..n]) + {quotes[n].carrierID};
    }
  }

  /** What a stored quote reads back as: filed under the cache key it was saved
      with, its latency cut to whole milliseconds. */
  function Stored(requestID: string, q: Quote): Quote {
    q.(requestID := requestID, latency := Milliseconds(q.latency) * NANOS_PER_MILLI)
  }

  /** replayed is what a lookup at a given time should return for saved quotes. */
  ghost predicate IsFaithfulReplay(quotes: seq<Quote>, requestID: string, now: int, replayed: seq<Quote>) {
    && (forall r :: r in replayed <==> exists q :: q in quotes && q.expiresAt > now && r == Stored(requestID, q))
    && DistinctIds(replayed)
    && (forall i, j :: 0 <= i < j < |replayed| ==> replayed[i].premium.amount <= replayed[j].premium.amount)
  }

  /** The request's own rows are all the live ones under its key. */
  ghost predicate NoOtherLiveRows(t: Table, requestID: string, quotes: seq<Quote>, now: int) {
    forall k :: k in t && k.requestID == requestID && Live(t[k], now) ==> k.carrierID in IdsOf(quotes)
  }

  lemma {:induction false} SaveThenFind(
    t: Table, requestID: string, quotes: seq<Quote>, at: int, now: int, replayed: seq<Quote>)
    requires DistinctIds(quotes)
    requires NoOtherLiveRows(t, requestID, quotes, now)
    requires IsReplay(Upserted(t, requestID, quotes, at), requestID, now, replayed)
    ensures IsFaithfulReplay(quotes, requestID, now, replayed)
  {
    var u := Upserted(t, requestID, quotes, at);
    UpsertedRows(t, requestID, quotes, at);
    RowsReadBack(u, requestID, quotes, at, now, replayed);
  }

  /** As SaveThenFind, for any table that holds the saved rows and no other live
      row of the request. */
  lemma {:induction false} RowsReadBack(
    u: Table, requestID: string, quotes: seq<Quote>, at: int, now: int, replayed: seq<Quote>)
    requires DistinctIds(quotes)
    requires forall i :: 0 <= i < |quotes| && quotes[i].expiresAt > now ==>
               var k := Key(requestID, quotes[i].carrierID); k in u && u[k] == RowOf(quotes[i], at)
    requires forall k :: k in u && k.requestID == requestID && Live(u[k], now) ==>
               exists i :: 0 <= i < |quotes| && quotes[i].carrierID == k.carrierID && u[k] == RowOf(quotes[i], at)
    requires IsReplay(u, requestID, now, replayed)
    ensures IsFaithfulReplay(quotes, requestID, now, replayed)
  {
    var answer :| IsQueryAnswer(u, requestID, now, answer) && replayed == Converted(requestID, answer);
    forall r ensures r in replayed <==> exists q :: q in quotes && q.expiresAt > now && r == Stored(requestID, q) {
      if r in replayed {
        var i :| 0 <= i < |replayed| && replayed[i] == r;
        var f := answer[i];
        assert f in answer && IsLiveRow(u, requestID, now, f);
        var k := Key(requestID, f.carrierID);
        var j :| 0 <= j < |quotes| && quotes[j].carrierID == k.carrierID && u[k] == RowOf(quotes[j], at);
        assert quotes[j] in quotes && r == Stored(requestID, quotes[j]);
      }
      if q :| q in quotes && q.expiresAt > now && r == Stored(requestID, q) {
        var j :| 0 <= j < |quotes| && quotes[j] == q;
        var f := Found(q.carrierID, RowOf(q, at));
        assert IsLiveRow(u, requestID, now, f);
        var i :| 0 <= i < |answer| && answer[i] == f;
        assert replayed[i] == r;
      }
    }
  }

  /** Deletions, and saves of other requests, leave the live rows of one request alone. */
  lemma {:induction false} LiveRowsSurvive(u: Table, requestID: string, later: seq<Op>, now: int)
    requires forall op :: op in later ==> op.now <= now && (op.SaveOp? ==> op.requestID != requestID)
    ensures var v := AfterAll(u, later);
            forall k: Key :: k.requestID == requestID ==>
              && (k in v ==> k in u && v[k] == u[k])
              && (k in u && Live(u[k], now) ==> k in v)
  {
    if later != [] {
      var n := |later| - 1;
      assert later[n] in later;
      forall op | op in later[..n] ensures op in later {
      }
      LiveRowsSurvive(u, requestID, later[..n], now);
      match later[n] {
        case SaveOp(at, other, quotes) =>
          OtherRequestsUntouched(AfterAll(u, later[..n]), other, quotes, at, requestID);
        case PurgeOp(_, _) =>
      }
    }
  }

  lemma {:induction false} OtherRequestsUntouched(
    t: Table, saved: string, quotes: seq<Quote>, at: int, requestID: string)
    requires saved != requestID
    ensures var u := Upserted(t, saved, quotes, at);
            forall k: Key :: k.requestID == requestID ==> (k in u <==> k in t) && (k in u ==> u[k] == t[k])
  {
    if quotes != [] {
      OtherRequestsUntouched(t, saved, quotes[..|quotes| - 1], at, requestID);
    }
  }

  /** The round trip with the deleter and other requests running in between. */
  lemma {:induction false} SaveThenFindLater(
    t: Table, requestID: string, quotes: seq<Quote>, at: int, later: seq<Op>, now: int, replayed: seq<Quote>)
    requires DistinctIds(quotes)
    requires NoOtherLiveRows(t, requestID, quotes, now)
    requires forall op :: op in later ==> op.now <= now && (op.SaveOp? ==> op.requestID != requestID)
    requires IsReplay(AfterAll(Upserted(t, requestID, quotes, at), later), requestID, now, replayed)
    ensures IsFaithfulReplay(quotes, requestID, now, replayed)
  {
    var u := Upserted(t, requestID, quotes, at);
    var v := AfterAll(u, later);
    UpsertedRows(t, requestID, quotes, at);
    LiveRowsSurvive(u, requestID, later, now);
    forall k | k in v && k.requestID == requestID && Live(v[k], now)
      ensures exists i :: 0 <= i < |quotes| && quotes[i].carrierID == k.carrierID && v[k] == RowOf(quotes[i], at)
    {
      assert k.carrierID in IdsOf(quotes);
      var q :| q in quotes && q.carrierID == k.carrierID;
      var i :| 0 <= i < |quotes| && quotes[i] == q;
    }
    RowsReadBack(v, requestID, quotes, at, now, replayed);
  }

  /** Saving the same answer twice changes nothing but the commit timestamps, so
      every lookup converts to the same quotes. */
  lemma {:induction false} SavingTwiceChangesNothing(
    t: Table, requestID: string, quotes: seq<Quote>, first: int, second: int)
    requires DistinctIds(quotes)
    ensures Upserted(Upserted(t, requestID, quotes, first), requestID, quotes, second)
         == Upserted(t, requestID, quotes, second)
  {
    var once := Upserted(t, requestID, quotes, first);
    var twice := Upserted(once, requestID, quotes, second);
    var direct := Upserted(t, requestID, quotes, second);
    UpsertedRows(t, requestID, quotes, first);
    UpsertedRows(once, requestID, quotes, second);
    UpsertedRows(t, requestID, quotes, second);
    forall k ensures (k in twice <==> k in direct) && (k in twice ==> twice[k] == direct[k]) {
      if k.requestID == requestID && k.carrierID in IdsOf(quotes) {
        var q :| q in quotes && q.carrierID == k.carrierID;
        var i :| 0 <= i < |quotes| && quotes[i] == q;
        assert k == Key(requestID, quotes[i].carrierID);
      }
    }
    assert twice.Keys == direct.Keys;
  }
}
