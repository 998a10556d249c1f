/** Value types shared by every module: quotes, carriers, and the integer
    arithmetic of Go's time.Duration. */
module Domain {
  datatype Option<+T> = None | Some(value: T)

  datatype Result<+T, +E> = Ok(value: T) | Err(error: E)

  /** An amount in cents and an ISO 4217 currency code. */
  datatype Money = Money(amount: int, currency: string)

  /** Times and durations are integers, counted in nanoseconds. */
  datatype Quote = Quote(
    requestID: string,
    carrierID: string,
    premium: Money,
    expiresAt: int,
    carrierRef: string,
    latency: int,
    isHedged: bool)

  datatype Carrier = Carrier(id: string, capabilities: seq<string>, priority: int)

  const NANOS_PER_MILLI := 1_000_000

  /** Duration.Milliseconds: Go's integer division drops the fraction toward zero. */
  function Milliseconds(d: int): (ms: int)
    ensures d >= 0 ==> ms * NANOS_PER_MILLI <= d < (ms + 1) * NANOS_PER_MILLI
    ensures d <= 0 ==> (ms - 1) * NANOS_PER_MILLI < d <= ms * NANOS_PER_MILLI
  {
    if d >= 0 then d / NANOS_PER_MILLI else -((-d) / NANOS_PER_MILLI)
  }

  /** The carrier IDs of a list of quotes. */
  function IdsOf(quotes: seq<Quote>): set<string> {
    set q | q in quotes :: q.carrierID
  }

  ghost predicate DistinctIds(quotes: seq<Quote>) {
    forall i, j :: 0 <= i < j < |quotes| ==> quotes[i].carrierID != quotes[j].carrierID
  }

  lemma {:induction false} SubsetIsSmaller<T>(a: set<T>, b: set<T>)
    requires a <= b
    ensures |a| <= |b|
    decreases |a|
  {
    if a != {} {
      var x :| x in a;
      SubsetIsSmaller(a - {x}, b - {x});
    }
  }

  lemma {:induction false} ConcatAssociates<T>(a: seq<T>, b: seq<T>, c: seq<T>)
    ensures (a + b) + c == a + (b + c)
  {
  }
}
