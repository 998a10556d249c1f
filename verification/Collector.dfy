/** The collector of a fan-out: drop duplicate carriers in arrival order, then
    sort by premium and carrier ID. */
module Collector {
  import opened Domain
  import opened Ordering

  ghost predicate SeenBefore(arrivals: seq<Quote>, n: nat, id: string)
    requires n <= |arrivals|
  {
    exists i :: 0 <= i < n && arrivals[i].carrierID == id
  }

  /** What the receive loop keeps: the first arrival of every carrier, in order. */
  ghost function FirstArrivals(arrivals: seq<Quote>): seq<Quote> {
    if arrivals == [] then []
    else
      var n := |arrivals| - 1;
      var kept := FirstArrivals(arrivals[..n]);
      if SeenBefore(arrivals, n, arrivals[n].carrierID) then kept else kept + [arrivals[n]]
  }

  /** q is a first arrival: it arrived, and nothing of its carrier came earlier. */
  ghost predicate IsFirstArrival(arrivals: seq<Quote>, q: Quote) {
    exists i :: 0 <= i < |arrivals| && arrivals[i] == q && !SeenBefore(arrivals, i, q.carrierID)
  }

  /** The receive loop over the results channel, arrival by arrival. */
  method Collect(arrivals: seq<Quote>) returns (collected: seq<Quote>)
    ensures collected == FirstArrivals(arrivals)
    ensures DistinctIds(collected)
  {
    collected := [];
    var seen: set<string> := {};
    for i := 0 to |arrivals|
      invariant collected == FirstArrivals(arrivals[..i])
      invariant seen == IdsOf(arrivals[..i])
    {
      FirstArrivalsAppend(arrivals[..i], arrivals[i]);
      assert arrivals[..i + 1] == arrivals[..i] + [arrivals[i]];
      if arrivals[i].carrierID in seen {
        continue;
      }
      seen := seen + {arrivals[i].carrierID};
      collected := collected + [arrivals[i]];
    }
    assert arrivals[..|arrivals|] == arrivals;
    FirstArrivalsIds(arrivals);
  }

  lemma {:induction false} FirstArrivalsAppend(arrivals: seq<Quote>, q: Quote)
    ensures FirstArrivals(arrivals + [q]) ==
            if q.carrierID in IdsOf(arrivals) then FirstArrivals(arrivals) else FirstArrivals(arrivals) + [q]
    ensures IdsOf(arrivals + [q]) == IdsOf(arrivals) + {q.carrierID}
  {
    var all := arrivals + [q];
    assert all[..|arrivals|] == arrivals;
    if q.carrierID in IdsOf(arrivals) {
      var r :| r in arrivals && r.carrierID == q.carrierID;
      var i :| 0 <= i < |arrivals| && arrivals[i] == r;
      assert all[i].carrierID == q.carrierID;
    } else {
      forall i | 0 <= i < |arrivals| ensures all[i].carrierID != q.carrierID {
        assert arrivals[i] in arrivals;
      }
    }
  }

  lemma {:induction false} FirstArrivalsIds(arrivals: seq<Quote>)
    ensures DistinctIds(FirstArrivals(arrivals))
    ensures IdsOf(FirstArrivals(arrivals)) == IdsOf(arrivals)
  {
    if arrivals != [] {
      var n := |arrivals| - 1;
      var last := arrivals[n];
      var kept := FirstArrivals(arrivals[..n]);
      FirstArrivalsIds(arrivals[..n]);
      assert arrivals == arrivals[..n] + [last];
      assert IdsOf(arrivals) == IdsOf(arrivals[..n]) + {last.carrierID};
      if SeenBefore(arrivals, n, last.carrierID) {
        var i :| 0 <= i < n && arrivals[i].carrierID == last.carrierID;
        assert arrivals[..n][i] in arrivals[..n];
      } else {
        forall k | 0 <= k < |kept| ensures kept[k].carrierID != last.carrierID {
          assert kept[k].carrierID in IdsOf(arrivals[..n]);
          var q :| q in arrivals[..n] && q.carrierID == kept[k].carrierID;
          var i :| 0 <= i < n && arrivals[..n][i] == q;
          assert arrivals[i] == q;
        }
        assert IdsOf(kept + [last]) == IdsOf(kept) + {last.carrierID};
      }
    }
  }

  /** The kept quotes are exactly the first arrivals. */
  lemma {:induction false} FirstArrivalsMembers(arrivals: seq<Quote>, q: Quote)
    ensures q in FirstArrivals(arrivals) <==> IsFirstArrival(arrivals, q)
  {
    if arrivals != [] {
      var n := |arrivals| - 1;
      var front := arrivals[..n];
      FirstArrivalsMembers(front, q);
      assert forall i, id :: 0 <= i <= n ==> SeenBefore(front, i, id) == SeenBefore(arrivals, i, id) by {
        forall i, id | 0 <= i <= n ensures SeenBefore(front, i, id) == SeenBefore(arrivals, i, id) {
          if SeenBefore(arrivals, i, id) {
            var k :| 0 <= k < i && arrivals[k].carrierID == id;
            assert front[k].carrierID == id;
          }
        }
      }
      assert forall i :: 0 <= i < n ==> front[i] == arrivals[i];
      if IsFirstArrival(front, q) {
        var i :| 0 <= i < n && front[i] == q && !SeenBefore(front, i, q.carrierID);
        assert arrivals[i] == q;
      }
      if IsFirstArrival(arrivals, q) {
        var i :| 0 <= i < |arrivals| && arrivals[i] == q && !SeenBefore(arrivals, i, q.carrierID);
        if i < n {
          assert front[i] == q;
        }
      }
    }
  }

  /** The kept quotes are those that arrived at these positions, in the same order. */
  ghost predicate StandAt(arrivals: seq<Quote>, kept: seq<Quote>, at: seq<nat>) {
    && |at| == |kept|
    && (forall i, j :: 0 <= i < j < |at| ==> at[i] < at[j])
    && forall i :: 0 <= i < |at| ==> at[i] < |arrivals| && kept[i] == arrivals[at[i]]
  }

  lemma {:induction false} OneMoreStands(arrivals: seq<Quote>, kept: seq<Quote>, at: seq<nat>)
    requires arrivals != [] && StandAt(arrivals[..|arrivals| - 1], kept, at)
    ensures StandAt(arrivals, kept, at)
    ensures StandAt(arrivals, kept + [arrivals[|arrivals| - 1]], at + [|arrivals| - 1])
  {
  }

  /** The kept quotes stand in the order of their arrival. */
  lemma {:induction false} FirstArrivalsInOrder(arrivals: seq<Quote>) returns (at: seq<nat>)
    ensures StandAt(arrivals, FirstArrivals(arrivals), at)
  {
    at := [];
    if arrivals != [] {
      var n := |arrivals| - 1;
      at := FirstArrivalsInOrder(arrivals[..n]);
      OneMoreStands(arrivals, FirstArrivals(arrivals[..n]), at);
      if !SeenBefore(arrivals, n, arrivals[n].carrierID) {
        at := at + [n];
      }
    }
  }

  // ---- sorting ----

  ghost predicate Sorted(quotes: seq<Quote>) {
    forall i, j :: 0 <= i < j < |quotes| ==> Compare(quotes[i], quotes[j]) <= 0
  }

  ghost predicate StrictlySorted(quotes: seq<Quote>) {
    forall i, j :: 0 <= i < j < |quotes| ==> Compare(quotes[i], quotes[j]) < 0
  }

  /** Every quote is cheaper than those after it, or as cheap with an earlier carrier ID. */
  ghost predicate CheapestFirst(quotes: seq<Quote>) {
    forall i, j :: 0 <= i < j < |quotes| ==> Cheaper(quotes[i], quotes[j])
  }

  /** What slices.SortFunc promises, and no more: some sorted permutation. The
      library sort is not stable, so equal quotes could come in either order. */
  ghost predicate IsSortOf(answer: seq<Quote>, collected: seq<Quote>) {
    Sorted(answer) && multiset(answer) == multiset(collected)
  }

  function Insert(q: Quote, quotes: seq<Quote>): seq<Quote> {
    if quotes == [] || Compare(q, quotes[0]) <= 0 then [q] + quotes
    else [quotes[0]] + Insert(q, quotes[1..])
  }

  /** One particular sort, as a reference. */
  function SortQuotes(quotes: seq<Quote>): seq<Quote> {
    if quotes == [] then [] else Insert(quotes[0], SortQuotes(quotes[1..]))
  }

  lemma {:induction false} InsertPermutes(q: Quote, quotes: seq<Quote>)
    ensures multiset(Insert(q, quotes)) == multiset{q} + multiset(quotes)
  {
    if quotes != [] && Compare(q, quotes[0]) > 0 {
      InsertPermutes(q, quotes[1..]);
      assert quotes == [quotes[0]] + quotes[1..];
    }
  }

  lemma {:induction false} InsertMembers(q: Quote, quotes: seq<Quote>, r: Quote)
    requires r in Insert(q, quotes)
    ensures r == q || r in quotes
  {
    if quotes != [] && Compare(q, quotes[0]) > 0 && r != quotes[0] {
      InsertMembers(q, quotes[1..], r);
    }
  }

  lemma {:induction false} InsertSorts(q: Quote, quotes: seq<Quote>)
    requires Sorted(quotes)
    ensures Sorted(Insert(q, quotes))
  {
    if quotes == [] {
    } else if Compare(q, quotes[0]) <= 0 {
      forall j | 0 <= j < |quotes| ensures Compare(q, quotes[j]) <= 0 {
        CompareIsTotalOrder(q, quotes[0], quotes[j]);
      }
    } else {
      var tail := Insert(q, quotes[1..]);
      InsertSorts(q, quotes[1..]);
      CompareIsTotalOrder(q, quotes[0], q);
      forall j | 0 <= j < |tail| ensures Compare(quotes[0], tail[j]) <= 0 {
        InsertMembers(q, quotes[1..], tail[j]);
      }
    }
  }

  lemma {:induction false} SortPermutes(quotes: seq<Quote>)
    ensures multiset(SortQuotes(quotes)) == multiset(quotes)
  {
    if quotes != [] {
      SortPermutes(quotes[1..]);
      InsertPermutes(quotes[0], SortQuotes(quotes[1..]));
      assert quotes == [quotes[0]] + quotes[1..];
    }
  }

  lemma {:induction false} SortSorts(quotes: seq<Quote>)
    ensures Sorted(SortQuotes(quotes))
  {
    if quotes != [] {
      SortSorts(quotes[1..]);
      InsertSorts(quotes[0], SortQuotes(quotes[1..]));
    }
  }

  /** A sorted permutation always exists. */
  lemma {:induction false} SortQuotesSorts(quotes: seq<Quote>)
    ensures IsSortOf(SortQuotes(quotes), quotes)
  {
    SortPermutes(quotes);
    SortSorts(quotes);
  }

  lemma {:induction false} DistinctIdsPermutation(a: seq<Quote>, b: seq<Quote>)
    requires DistinctIds(a) && multiset(a) == multiset(b)
    ensures DistinctIds(b)
  {
    forall i, j | 0 <= i < j < |b| ensures b[i].carrierID != b[j].carrierID {
      assert b[i] in multiset(a) && b[j] in multiset(a);
      if b[i] == b[j] {
        DistinctMultiplicity(a, b[i]);
        TwiceCountsTwo(b, i, j);
        assert false;
      }
    }
  }

  lemma {:induction false} TwiceCountsTwo(s: seq<Quote>, i: nat, j: nat)
    requires i < j < |s| && s[i] == s[j]
    ensures multiset(s)[s[i]] >= 2
  {
    assert s == s[..j] + [s[j]] + s[j + 1..];
    assert s[i] in multiset(s[..j]);
  }

  /** Distinct IDs leave no room for a repeated quote. */
  lemma {:induction false} DistinctMultiplicity(s: seq<Quote>, q: Quote)
    requires DistinctIds(s)
    ensures multiset(s)[q] == if q in s then 1 else 0
  {
    if s != [] {
      var n := |s| - 1;
      DistinctMultiplicity(s[..n], q);
      assert s == s[..n] + [s[n]];
    }
  }

  lemma {:induction false} SortedDistinctIsStrict(quotes: seq<Quote>)
    requires Sorted(quotes) && DistinctIds(quotes)
    ensures StrictlySorted(quotes)
  {
    forall i, j | 0 <= i < j < |quotes| ensures Compare(quotes[i], quotes[j]) < 0 {
      CompareIsTotalOrder(quotes[i], quotes[j], quotes[j]);
    }
  }

  lemma {:induction false} StrictlySortedIsCheapestFirst(quotes: seq<Quote>)
    requires StrictlySorted(quotes)
    ensures CheapestFirst(quotes)
  {
    forall i, j | 0 <= i < j < |quotes| ensures Cheaper(quotes[i], quotes[j]) {
      CompareMeansCheaper(quotes[i], quotes[j]);
    }
  }

  lemma {:induction false} LeastComesFirst(a: seq<Quote>, b: seq<Quote>)
    requires a != [] && b != []
    requires StrictlySorted(a) && StrictlySorted(b)
    requires forall q :: q in a <==> q in b
    ensures a[0] == b[0]
    ensures forall q :: q in a[1..] <==> q in b[1..]
  {
    assert a[0] in b && b[0] in a;
    var j :| 0 <= j < |b| && b[j] == a[0];
    var i :| 0 <= i < |a| && a[i] == b[0];
    CompareIsTotalOrder(a[0], b[0], b[0]);
    forall q ensures q in a[1..] <==> q in b[1..] {
      CompareIsTotalOrder(q, q, q);
      assert q in a <==> q == a[0] || q in a[1..];
      assert q in b <==> q == b[0] || q in b[1..];
    }
  }

  lemma {:induction false} SameMembersSameOrder(a: seq<Quote>, b: seq<Quote>)
    requires StrictlySorted(a) && StrictlySorted(b)
    requires forall q :: q in a <==> q in b
    ensures a == b
  {
    assert a == [] || a[0] in b;
    assert b == [] || b[0] in a;
    if a != [] {
      LeastComesFirst(a, b);
      SameMembersSameOrder(a[1..], b[1..]);
      assert a == [a[0]] + a[1..] && b == [b[0]] + b[1..];
    }
  }

  /** However unstable the sort, deduplicated quotes sort to one list only. */
  lemma {:induction false} SortIsUnique(a: seq<Quote>, b: seq<Quote>)
    requires DistinctIds(a) && Sorted(a) && Sorted(b) && multiset(a) == multiset(b)
    ensures a == b
  {
    DistinctIdsPermutation(a, b);
    SortedDistinctIsStrict(a);
    SortedDistinctIsStrict(b);
    forall q ensures q in a <==> q in b {
      assert q in a <==> q in multiset(a);
      assert q in b <==> q in multiset(b);
    }
    SameMembersSameOrder(a, b);
  }

  /** The list a fan-out returns for the quotes that reached its collector. */
  ghost function Answer(arrivals: seq<Quote>): seq<Quote> {
    SortQuotes(FirstArrivals(arrivals))
  }

  /** Everything a caller may rely on: any list the library sort can produce is
      the answer, it comes cheapest first, it holds one quote per carrier, and it
      holds exactly the first arrivals. */
  lemma {:induction false} AnswerIsDetermined(arrivals: seq<Quote>, sorted: seq<Quote>)
    requires IsSortOf(sorted, FirstArrivals(arrivals))
    ensures sorted == Answer(arrivals)
    ensures StrictlySorted(sorted) && CheapestFirst(sorted) && DistinctIds(sorted)
    ensures forall q :: q in sorted <==> IsFirstArrival(arrivals, q)
    ensures IdsOf(sorted) == IdsOf(arrivals)
  {
    var kept := FirstArrivals(arrivals);
    FirstArrivalsIds(arrivals);
    SortQuotesSorts(kept);
    DistinctIdsPermutation(kept, sorted);
    SortIsUnique(sorted, SortQuotes(kept));
    SortedDistinctIsStrict(sorted);
    StrictlySortedIsCheapestFirst(sorted);
    forall q ensures q in sorted <==> IsFirstArrival(arrivals, q) {
      FirstArrivalsMembers(arrivals, q);
      assert q in sorted <==> q in multiset(sorted);
      assert q in kept <==> q in multiset(kept);
    }
    assert IdsOf(sorted) == IdsOf(kept) by {
      assert forall q :: q in sorted <==> q in kept by {
        assert forall q :: q in sorted <==> q in multiset(sorted);
        assert forall q :: q in kept <==> q in multiset(kept);
      }
    }
  }

  lemma {:induction false} SameSetSameMultiset(a: seq<Quote>, b: seq<Quote>)
    requires DistinctIds(a) && DistinctIds(b)
    requires forall q :: q in a <==> q in b
    ensures multiset(a) == multiset(b)
  {
    forall q ensures multiset(a)[q] == multiset(b)[q] {
      DistinctMultiplicity(a, q);
      DistinctMultiplicity(b, q);
    }
  }

  /** The answer depends only on which quotes were first of their carrier, not
      on the order carriers answered in. */
  lemma {:induction false} AnswerIgnoresArrivalOrder(one: seq<Quote>, other: seq<Quote>)
    requires forall q :: IsFirstArrival(one, q) <==> IsFirstArrival(other, q)
    ensures Answer(one) == Answer(other)
  {
    var a, b := FirstArrivals(one), FirstArrivals(other);
    FirstArrivalsIds(one);
    FirstArrivalsIds(other);
    forall q ensures q in a <==> q in b {
      FirstArrivalsMembers(one, q);
      FirstArrivalsMembers(other, q);
    }
    SameSetSameMultiset(a, b);
    SortQuotesSorts(a);
    SortQuotesSorts(b);
    DistinctIdsPermutation(a, SortQuotes(a));
    SortIsUnique(SortQuotes(a), SortQuotes(b));
  }
}
