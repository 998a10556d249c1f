/** The comparison the fan-out sorts with: premium first, carrier ID second. */
module Ordering {
  import opened Domain

  /** cmp.Compare on strings: lexicographic, a proper prefix comes first. */
  function CompareStrings(a: string, b: string): int {
    if a == [] then (if b == [] then 0 else -1)
    else if b == [] then 1
    else if a[0] < b[0] then -1
    else if a[0] > b[0] then 1
    else CompareStrings(a[1..], b[1..])
  }

  /** The comparator given to slices.SortFunc. */
  function Compare(a: Quote, b: Quote): int {
    if a.premium.amount < b.premium.amount then -1
    else if a.premium.amount > b.premium.amount then 1
    else CompareStrings(a.carrierID, b.carrierID)
  }

  lemma {:induction false} CompareStringsZero(a: string, b: string)
    ensures CompareStrings(a, b) == 0 <==> a == b
  {
    if a != [] && b != [] && a[0] == b[0] {
      CompareStringsZero(a[1..], b[1..]);
      assert a == [a[0]] + a[1..] && b == [b[0]] + b[1..];
    }
  }

  lemma {:induction false} CompareStringsAntisymmetric(a: string, b: string)
    ensures CompareStrings(a, b) == -CompareStrings(b, a)
  {
    if a != [] && b != [] && a[0] == b[0] {
      CompareStringsAntisymmetric(a[1..], b[1..]);
    }
  }

  lemma {:induction false} CompareStringsTransitive(a: string, b: string, c: string)
    requires CompareStrings(a, b) <= 0 && CompareStrings(b, c) <= 0
    ensures CompareStrings(a, c) <= 0
  {
    if a != [] && b != [] && c != [] && a[0] == b[0] == c[0] {
      CompareStringsTransitive(a[1..], b[1..], c[1..]);
    }
  }

  /** The comparator is a total order on quotes, and it ties only quotes of one
      carrier at one premium. */
  lemma {:induction false} CompareIsTotalOrder(a: Quote, b: Quote, c: Quote)
    ensures Compare(a, b) == -Compare(b, a)
    ensures Compare(a, b) == 0 <==> a.premium.amount == b.premium.amount && a.carrierID == b.carrierID
    ensures Compare(a, b) <= 0 && Compare(b, c) <= 0 ==> Compare(a, c) <= 0
  {
    CompareStringsAntisymmetric(a.carrierID, b.carrierID);
    CompareStringsZero(a.carrierID, b.carrierID);
    if CompareStrings(a.carrierID, b.carrierID) <= 0 && CompareStrings(b.carrierID, c.carrierID) <= 0 {
      CompareStringsTransitive(a.carrierID, b.carrierID, c.carrierID);
    }
  }

  // ---- what the comparison means ----

  /** At position k, a and b first differ: there a ends, or has the smaller character. */
  predicate DiffersAt(a: string, b: string, k: nat) {
    && k <= |a| && k < |b| && a[..k] == b[..k]
    && (k == |a| || a[k] < b[k])
  }

  /** Dictionary order of strings. */
  ghost predicate Precedes(a: string, b: string) {
    exists k: nat :: DiffersAt(a, b, k)
  }

  /** a belongs before b: it is cheaper, or as cheap and of a carrier whose ID precedes. */
  ghost predicate Cheaper(a: Quote, b: Quote) {
    a.premium.amount < b.premium.amount
    || (a.premium.amount == b.premium.amount && Precedes(a.carrierID, b.carrierID))
  }

  lemma {:induction false} PrecedesNext(a: string, b: string)
    requires a != [] && b != [] && a[0] == b[0]
    ensures Precedes(a, b) <==> Precedes(a[1..], b[1..])
  {
    if k: nat :| DiffersAt(a, b, k) {
      assert k > 0;
      assert a[1..][..k - 1] == a[..k][1..] && b[1..][..k - 1] == b[..k][1..];
      assert DiffersAt(a[1..], b[1..], k - 1);
    }
    if k: nat :| DiffersAt(a[1..], b[1..], k) {
      assert a[..k + 1] == [a[0]] + a[1..][..k] && b[..k + 1] == [b[0]] + b[1..][..k];
      assert DiffersAt(a, b, k + 1);
    }
  }

  lemma {:induction false} CompareStringsIsDictionaryOrder(a: string, b: string)
    ensures CompareStrings(a, b) < 0 <==> Precedes(a, b)
  {
    if a != [] && b != [] && a[0] == b[0] {
      PrecedesNext(a, b);
      CompareStringsIsDictionaryOrder(a[1..], b[1..]);
    } else if CompareStrings(a, b) < 0 {
      assert DiffersAt(a, b, 0);
    }
  }

  /** The comparator puts the cheaper quote first, and on equal premiums the carrier
      whose ID comes first in the dictionary. */
  lemma {:induction false} CompareMeansCheaper(a: Quote, b: Quote)
    ensures Compare(a, b) < 0 <==> Cheaper(a, b)
  {
    CompareStringsIsDictionaryOrder(a.carrierID, b.carrierID);
  }
}
