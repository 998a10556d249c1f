/** One GetQuotes call at a time, end to end: look in the table, else fan out and
    save; and what a repeated request gets. */
module GetQuotes {
  import opened Domain
  import opened QuoteTable
  import opened FanOut
  import opened FanOutTheorems

  /** Results are filed per client; requests without a client use the bare ID. */
  function ScopedKey(clientID: string, requestID: string): string {
    if clientID == "" then requestID else clientID + ":" + requestID
  }

  /** One client's requests never share a key, and no two clients share a key by
      sending the same request ID. */
  lemma {:induction false} KeysAreDistinct(clientID: string, requestID: string, client: string, request: string)
    requires clientID == client || requestID == request || |clientID| == |client|
    ensures ScopedKey(clientID, requestID) == ScopedKey(client, request) <==> clientID == client && requestID == request
  {
    var one, other := ScopedKey(clientID, requestID), ScopedKey(client, request);
    if one == other {
      assert |clientID| == |client|;
      assert clientID == one[..|clientID|] == other[..|client|] == client;
      var n := if clientID == "" then 0 else |clientID| + 1;
      assert requestID == one[n..] == other[n..] == request;
    }
  }

  /** The remaining case, exactly: the shorter client ID, with its separator, begins the
      longer one, and its request ID spells out the rest. It cannot happen when client
      IDs are not empty and hold no colon. */
  lemma {:induction false} KeysMeetExactlyIf(clientID: string, requestID: string, longer: string, request: string)
    requires |clientID| < |longer|
    ensures ScopedKey(clientID, requestID) == ScopedKey(longer, request) <==>
            if clientID == "" then requestID == longer + ":" + request
            else clientID + ":" <= longer && requestID == longer[|clientID| + 1..] + ":" + request
  {
    if clientID != "" {
      var prefix := clientID + ":";
      var key := longer + ":" + request;
      if prefix + requestID == key {
        assert prefix == key[..|prefix|] == longer[..|prefix|];
        assert requestID == key[|prefix|..] == longer[|prefix|..] + ":" + request;
      } else if prefix <= longer {
        assert key == prefix + (longer[|prefix|..] + ":" + request);
      }
    }
  }

  /** answer is what the fan-out returns if it runs, response and commit what the
      database does. A failed lookup falls through to the fan-out; a failed save is
      only logged. */
  method GetQuotes(
    repo: QuoteRepo?, clientID: string, requestID: string, now: int,
    response: Result<seq<Found>, string>, answer: seq<Quote>, commit: Result<int, string>)
    returns (quotes: seq<Quote>, fannedOut: bool)
    requires repo != null && response.Ok? ==>
               IsQueryAnswer(repo.rows, ScopedKey(clientID, requestID), now, response.value)
    modifies repo
    ensures fannedOut <==>
      repo == null || requestID == "" || response.Err?
      || Missed(old(repo.rows), ScopedKey(clientID, requestID), now)
    ensures !fannedOut ==> IsReplay(old(repo.rows), ScopedKey(clientID, requestID), now, quotes)
    ensures fannedOut ==> quotes == answer
    ensures repo != null ==>
      (repo.rows == if fannedOut && requestID != "" && answer != [] && commit.Ok?
                    then Upserted(old(repo.rows), ScopedKey(clientID, requestID), answer, commit.value)
                    else old(repo.rows))
  {
    var key := ScopedKey(clientID, requestID);
    if repo != null && requestID != "" {
      var lookup := repo.FindByRequestID(key, now, response);
      if lookup.Hit? {
        return lookup.quotes, false;
      }
    }
    if repo != null && requestID != "" && |answer| > 0 {
      var saved := repo.Save(key, answer, commit);
    }
    return answer, true;
  }

  /** The lookup at this time missed: no live row under the key. */
  ghost predicate Missed(t: Table, key: string, missedAt: int) {
    forall f :: !IsLiveRow(t, key, missedAt, f)
  }

  /** After a miss, and as long as nobody saves under the key, it has no live rows. */
  lemma {:induction false} MissedMeansNoRows(
    t: Table, key: string, missedAt: int, between: seq<Op>, now: int, quotes: seq<Quote>)
    requires Missed(t, key, missedAt) && missedAt <= now
    requires forall op :: op in between ==> op.now <= now && (op.SaveOp? ==> op.requestID != key)
    ensures NoOtherLiveRows(AfterAll(t, between), key, quotes, now)
  {
    var v := AfterAll(t, between);
    LiveRowsSurvive(t, key, between, now);
    if k :| k in v && k.requestID == key && Live(v[k], now) {
      assert k == Key(key, k.carrierID);
      assert IsLiveRow(t, key, missedAt, Found(k.carrierID, v[k]));
      assert false;
    }
  }

  /** Miss, fan-out, save, repeat: whatever the deleter and other requests did in
      between, the repeat returns exactly the unexpired quotes of the finished fan-out,
      cheapest first, filed under the key and with latency in whole milliseconds. */
  lemma {:induction false} RepeatedRequestReplaysTheAnswer(
    cfg: Config, s: State, t: Table, key: string, missedAt: int, between: seq<Op>,
    at: int, later: seq<Op>, now: int, replayed: seq<Quote>)
    requires cfg.Valid() && Reachable(cfg, s) && s.main.Returned?
    requires Missed(t, key, missedAt) && missedAt <= now
    requires forall op :: op in between + later ==> op.now <= now && (op.SaveOp? ==> op.requestID != key)
    requires IsReplay(AfterAll(Upserted(AfterAll(t, between), key, s.main.answer, at), later), key, now, replayed)
    ensures IsFaithfulReplay(s.main.answer, key, now, replayed)
  {
    ReturnsTheAnswer(cfg, s);
    MissedMeansNoRows(t, key, missedAt, between, now, s.main.answer);
    SaveThenFindLater(AfterAll(t, between), key, s.main.answer, at, later, now, replayed);
  }

  lemma {:induction false} SavedAnswerHits(
    t: Table, key: string, quotes: seq<Quote>, at: int, later: seq<Op>, now: int)
    requires DistinctIds(quotes) && NoOtherLiveRows(t, key, quotes, now)
    requires forall op :: op in later ==> op.now <= now && (op.SaveOp? ==> op.requestID != key)
    ensures Missed(AfterAll(Upserted(t, key, quotes, at), later), key, now)
       <==> forall i :: 0 <= i < |quotes| ==> quotes[i].expiresAt <= now
  {
    var u := Upserted(t, key, quotes, at);
    var v := AfterAll(u, later);
    UpsertedRows(t, key, quotes, at);
    LiveRowsSurvive(u, key, later, now);
    if f :| IsLiveRow(v, key, now, f) {
      var k := Key(key, f.carrierID);
      assert k in u && u[k] == f.row;
      assert f.carrierID in IdsOf(quotes);
      var q :| q in quotes && q.carrierID == f.carrierID;
      var i :| 0 <= i < |quotes| && quotes[i] == q;
      assert u[k] == RowOf(quotes[i], at);
    }
    if i :| 0 <= i < |quotes| && quotes[i].expiresAt > now {
      var k := Key(key, quotes[i].carrierID);
      assert k in u && Live(u[k], now);
      assert IsLiveRow(v, key, now, Found(quotes[i].carrierID, v[k]));
    }
  }

  /** Miss, fan-out, save, repeat: the repeat misses, so that carriers are asked again,
      exactly when every quote of the saved answer has expired. */
  lemma {:induction false} RepeatedRequestHits(
    cfg: Config, s: State, t: Table, key: string, missedAt: int, between: seq<Op>, at: int, later: seq<Op>, now: int)
    requires cfg.Valid() && Reachable(cfg, s) && s.main.Returned?
    requires Missed(t, key, missedAt) && missedAt <= now
    requires forall op :: op in between + later ==> op.now <= now && (op.SaveOp? ==> op.requestID != key)
    ensures Missed(AfterAll(Upserted(AfterAll(t, between), key, s.main.answer, at), later), key, now)
       <==> forall i :: 0 <= i < |s.main.answer| ==> s.main.answer[i].expiresAt <= now
  {
    ReturnsTheAnswer(cfg, s);
    MissedMeansNoRows(t, key, missedAt, between, now, s.main.answer);
    SavedAnswerHits(AfterAll(t, between), key, s.main.answer, at, later, now);
  }
}
