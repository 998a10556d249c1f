/** The moving-average latency tracker: its arithmetic over the reals, and the
    tracker object with its compare-and-swap retry loop. */
module EmaTracker {
  import opened Domain

  /** The immutable value behind the tracker's atomic pointer. The code calls the
      average "p95", but it is a smoothed mean. */
  datatype EmaState = EmaState(p95: real, observations: nat)

  /** The part of CarrierConfig the tracker reads. */
  datatype TrackerConfig = TrackerConfig(
    emaAlpha: real, windowSize: int, multiplier: real, warmup: int)

  /** Never stands for math.MaxFloat64, which no elapsed time reaches. */
  datatype Threshold = Never | After(ms: real)

  lemma {:induction false} DividedBack(x: real, y: real)
    requires y != 0.0
    ensures (x / y) * y == x
  {
  }

  /** A window size overrides the explicit factor; whatever is left outside the
      open interval (0, 1), a window of one included, becomes one tenth. */
  function SmoothingFactor(cfg: TrackerConfig): (alpha: real)
    ensures 0.0 < alpha < 1.0
    ensures cfg.windowSize > 1 ==> alpha * (cfg.windowSize as real + 1.0) == 2.0
    ensures cfg.windowSize == 1 ==> alpha == 0.1
    ensures cfg.windowSize <= 0 ==> alpha == if 0.0 < cfg.emaAlpha < 1.0 then cfg.emaAlpha else 0.1
  {
    DividedBack(2.0, if cfg.windowSize > 0 then cfg.windowSize as real + 1.0 else 1.0);
    var alpha := if cfg.windowSize > 0 then 2.0 / (cfg.windowSize as real + 1.0) else cfg.emaAlpha;
    if alpha <= 0.0 || alpha >= 1.0 then 0.1 else alpha
  }

  /** The starting average: twice the timeout hint, in whole milliseconds. */
  function SeedMillis(timeoutHint: int): real {
    Milliseconds(timeoutHint) as real * 2.0
  }

  function LatencyMillis(latency: int): (ms: real)
    ensures ms * 1_000_000.0 == latency as real
  {
    latency as real / NANOS_PER_MILLI as real
  }

  /** One committed observation. */
  function Observe(alpha: real, s: EmaState, ms: real): EmaState {
    EmaState(alpha * ms + (1.0 - alpha) * s.p95, s.observations + 1)
  }

  /** The state after a list of committed observations, oldest first. */
  function Fold(alpha: real, s: EmaState, observed: seq<real>): EmaState {
    if observed == [] then s
    else Observe(alpha, Fold(alpha, s, observed[..|observed| - 1]), observed[|observed| - 1])
  }

  function HedgeThresholdOf(s: EmaState, warmup: int, multiplier: real): Threshold {
    if s.observations < warmup then Never else After(s.p95 * multiplier)
  }

  lemma {:induction false} FoldConcat(alpha: real, s: EmaState, a: seq<real>, b: seq<real>)
    ensures Fold(alpha, s, a + b) == Fold(alpha, Fold(alpha, s, a), b)
  {
    if b == [] {
      assert a + b == a;
    } else {
      var n := |b| - 1;
      FoldConcat(alpha, s, a, b[..n]);
      assert (a + b)[..|a + b| - 1] == a + b[..n];
    }
  }

  /** What rival goroutines commit while one Record keeps losing its swap: the
      bursts up to the first attempt nobody disturbs. */
  function LostAttempts(rivals: seq<seq<real>>): (n: nat)
    ensures n <= |rivals|
  {
    if rivals == [] || rivals[0] == [] then 0 else 1 + LostAttempts(rivals[1..])
  }

  function Concat(bursts: seq<seq<real>>): seq<real> {
    if bursts == [] then [] else Concat(bursts[..|bursts| - 1]) + bursts[|bursts| - 1]
  }

  lemma {:induction false} FoldOneMore(alpha: real, s: EmaState, observed: seq<real>, ms: real)
    ensures Fold(alpha, s, observed + [ms]) == Observe(alpha, Fold(alpha, s, observed), ms)
  {
    assert (observed + [ms])[..|observed|] == observed;
  }

  lemma {:induction false} ConcatOneMore(bursts: seq<seq<real>>, k: nat)
    requires k < |bursts|
    ensures Concat(bursts[..k + 1]) == Concat(bursts[..k]) + bursts[k]
  {
    assert bursts[..k + 1][..k] == bursts[..k];
  }

  lemma {:induction false} LostAttemptsPrefix(rivals: seq<seq<real>>, k: nat)
    requires k <= |rivals|
    requires forall i :: 0 <= i < k ==> rivals[i] != []
    ensures k <= LostAttempts(rivals)
    ensures (k == |rivals| || rivals[k] == []) ==> LostAttempts(rivals) == k
    decreases |rivals|
  {
    if rivals != [] && rivals[0] != [] {
      if k == 0 {
        LostAttemptsPrefix(rivals[1..], 0);
      } else {
        LostAttemptsPrefix(rivals[1..], k - 1);
      }
    }
  }

  /** One more lost attempt: the rivals' next burst goes on top of the earlier ones. */
  lemma {:induction false} LostOneMore(alpha: real, s: EmaState, rivals: seq<seq<real>>, k: nat)
    requires k < |rivals|
    ensures Fold(alpha, Fold(alpha, s, Concat(rivals[..k])), rivals[k]) == Fold(alpha, s, Concat(rivals[..k + 1]))
  {
    FoldConcat(alpha, s, Concat(rivals[..k]), rivals[k]);
    ConcatOneMore(rivals, k);
  }

  /** The attempt that nobody disturbs. */
  lemma {:induction false} WonAttempt(alpha: real, s: EmaState, rivals: seq<seq<real>>, k: nat, ms: real)
    requires k <= |rivals| && (forall i :: 0 <= i < k ==> rivals[i] != []) && (k == |rivals| || rivals[k] == [])
    ensures LostAttempts(rivals) == k
    ensures Observe(alpha, Fold(alpha, s, Concat(rivals[..k])), ms) == Fold(alpha, s, Concat(rivals[..k]) + [ms])
  {
    LostAttemptsPrefix(rivals, k);
    FoldOneMore(alpha, s, Concat(rivals[..k]), ms);
  }

  class EMATracker {
    const alpha: real
    const multiplier: real
    const warmup: int
    var state: EmaState    // what the atomic pointer points at
    var identity: nat      // which allocation it points at; every swap installs a new one
    var gauge: real        // last value given to SetP95Latency

    constructor (timeoutHint: int, cfg: TrackerConfig)
      ensures alpha == SmoothingFactor(cfg) && multiplier == cfg.multiplier && warmup == cfg.warmup
      ensures state == EmaState(2.0 * Milliseconds(timeoutHint) as real, 0)
    {
      alpha := SmoothingFactor(cfg);
      multiplier := cfg.multiplier;
      warmup := cfg.warmup;
      state := EmaState(SeedMillis(timeoutHint), 0);
      identity := 0;
      gauge := 0.0;
    }

    /** rivals[k] lists what other goroutines commit between the load and the swap
        of attempt k. The swap compares pointers, so any rival commit makes it fail,
        even one that leaves the average where it was. */
    method Record(latency: int, rivals: seq<seq<real>>)
      modifies this
      ensures state == Fold(alpha, old(state),
                            Concat(rivals[..LostAttempts(rivals)]) + [LatencyMillis(latency)])
      ensures gauge == state.p95
    {
      var ms := LatencyMillis(latency);
      var k := 0;
      assert rivals[..0] == [];
      while true
        invariant 0 <= k <= |rivals|
        invariant forall i :: 0 <= i < k ==> rivals[i] != []
        invariant state == Fold(alpha, old(state), Concat(rivals[..k]))
        decreases |rivals| - k
      {
        var loaded, seen := state, identity;
        var next := Observe(alpha, loaded, ms);
        if k < |rivals| {
          InterveneBy(rivals[k]);
        }
        if identity == seen {
          state, identity := next, identity + 1;
          gauge := next.p95;
          WonAttempt(alpha, old(state), rivals, k, ms);
          return;
        }
        LostOneMore(alpha, old(state), rivals, k);
        k := k + 1;
      }
    }

    /** Other goroutines commit a burst of observations. */
    method InterveneBy(burst: seq<real>)
      modifies this
      ensures state == Fold(alpha, old(state), burst)
      ensures identity == old(identity) + |burst|
    {
      state, identity := Fold(alpha, state, burst), identity + |burst|;
    }

    /** Never while fewer than warmup observations are in; the average times the
        multiplier afterwards. */
    method HedgeThreshold() returns (t: Threshold)
      ensures t == HedgeThresholdOf(state, warmup, multiplier)
      ensures t == Never <==> state.observations < warmup
      ensures state.observations >= warmup ==> t == After(state.p95 * multiplier)
    {
      var s := state;
      if s.observations < warmup {
        return Never;
      }
      return After(s.p95 * multiplier);
    }
  }

  // ---- what the recurrence means ----

  lemma {:induction false} FoldCounts(alpha: real, s: EmaState, observed: seq<real>)
    ensures Fold(alpha, s, observed).observations == s.observations + |observed|
  {
    if observed != [] {
      FoldCounts(alpha, s, observed[..|observed| - 1]);
    }
  }

  // Products of reals, one step at a time.

  lemma {:induction false} MulNonNegative(x: real, y: real)
    requires x >= 0.0 && y >= 0.0
    ensures x * y >= 0.0
  {
  }

  lemma {:induction false} MulPositive(x: real, y: real)
    requires x > 0.0 && y > 0.0
    ensures x * y > 0.0
  {
  }

  lemma {:induction false} MulAssociates(x: real, y: real, z: real)
    ensures x * (y * z) == (x * y) * z
  {
  }

  lemma {:induction false} MulDistributes(x: real, y: real, z: real)
    ensures x * (y + z) == x * y + x * z
    ensures x * (y - z) == x * y - x * z
    ensures (y + z) * x == y * x + z * x
    ensures (y - z) * x == y * x - z * x
  {
  }

  lemma {:induction false} MulMonotone(x: real, y: real, z: real)
    requires x >= 0.0 && y <= z
    ensures x * y <= x * z
  {
    MulNonNegative(x, z - y);
    MulDistributes(x, z, y);
  }

  lemma {:induction false} MixStaysBetween(alpha: real, x: real, y: real, lo: real, hi: real)
    requires 0.0 < alpha < 1.0 && lo <= x <= hi && lo <= y <= hi
    ensures lo <= alpha * x + (1.0 - alpha) * y <= hi
  {
    MixAsOffset(alpha, x, y, lo);
    MixAsOffset(alpha, x, y, hi);
    MulNonNegative(alpha, x - lo);
    MulNonNegative(1.0 - alpha, y - lo);
    MulNonNegative(alpha, hi - x);
    MulNonNegative(1.0 - alpha, hi - y);
    MulDistributes(alpha, hi, x);
    MulDistributes(alpha, x, hi);
    MulDistributes(1.0 - alpha, hi, y);
    MulDistributes(1.0 - alpha, y, hi);
  }

  /** A convex mix, measured from any point. */
  lemma {:induction false} MixAsOffset(alpha: real, x: real, y: real, from: real)
    ensures alpha * x + (1.0 - alpha) * y - from == alpha * (x - from) + (1.0 - alpha) * (y - from)
  {
  }

  /** For every configuration, the average never leaves the range spanned by twice
      the seed and the latencies observed. */
  lemma {:induction false} AverageStaysInRange(
    cfg: TrackerConfig, timeoutHint: int, observed: seq<real>, lo: real, hi: real)
    requires lo <= SeedMillis(timeoutHint) <= hi
    requires forall ms :: ms in observed ==> lo <= ms <= hi
    ensures lo <= Fold(SmoothingFactor(cfg), EmaState(SeedMillis(timeoutHint), 0), observed).p95 <= hi
  {
    if observed != [] {
      var n := |observed| - 1;
      forall ms | ms in observed[..n] ensures lo <= ms <= hi {
        assert ms in observed;
      }
      AverageStaysInRange(cfg, timeoutHint, observed[..n], lo, hi);
      var before := Fold(SmoothingFactor(cfg), EmaState(SeedMillis(timeoutHint), 0), observed[..n]);
      assert observed[n] in observed;
      MixStaysBetween(SmoothingFactor(cfg), observed[n], before.p95, lo, hi);
    }
  }

  function Pow(x: real, n: nat): real {
    if n == 0 then 1.0 else x * Pow(x, n - 1)
  }

  function Repeat(ms: real, n: nat): seq<real> {
    if n == 0 then [] else Repeat(ms, n - 1) + [ms]
  }

  function Abs(x: real): real {
    if x < 0.0 then -x else x
  }

  /** The average after n observations of one latency, from a given start. */
  function SteadyAverage(alpha: real, s: EmaState, ms: real, n: nat): real {
    Fold(alpha, s, Repeat(ms, n)).p95
  }

  lemma {:induction false} SteadyStep(alpha: real, s: EmaState, ms: real, n: nat)
    ensures SteadyAverage(alpha, s, ms, n + 1) - ms == (1.0 - alpha) * (SteadyAverage(alpha, s, ms, n) - ms)
  {
    assert Repeat(ms, n + 1)[..|Repeat(ms, n + 1)| - 1] == Repeat(ms, n);
    var y := SteadyAverage(alpha, s, ms, n);
    MulDistributes(ms, alpha, 1.0 - alpha);
    MulDistributes(1.0 - alpha, y, ms);
  }

  /** Under constant latency the distance to it shrinks geometrically. */
  lemma {:induction false} SteadyLatencyClosedForm(alpha: real, s: EmaState, ms: real, n: nat)
    ensures SteadyAverage(alpha, s, ms, n) - ms == Pow(1.0 - alpha, n) * (s.p95 - ms)
  {
    if n > 0 {
      SteadyLatencyClosedForm(alpha, s, ms, n - 1);
      SteadyStep(alpha, s, ms, n - 1);
      MulAssociates(1.0 - alpha, Pow(1.0 - alpha, n - 1), s.p95 - ms);
    }
  }

  /** Every observation brings the average strictly closer, from the same side. */
  lemma {:induction false} SteadyLatencyMonotone(cfg: TrackerConfig, s: EmaState, ms: real, n: nat)
    ensures var a := SmoothingFactor(cfg);
            var now, next := SteadyAverage(a, s, ms, n), SteadyAverage(a, s, ms, n + 1);
            && (now < ms ==> now < next < ms)
            && (now == ms ==> next == ms)
            && (now > ms ==> ms < next < now)
  {
    var a := SmoothingFactor(cfg);
    SteadyStep(a, s, ms, n);
    StepTowards(1.0 - a, SteadyAverage(a, s, ms, n), SteadyAverage(a, s, ms, n + 1), ms);
  }

  lemma {:induction false} StepTowards(beta: real, now: real, next: real, ms: real)
    requires 0.0 < beta < 1.0 && next - ms == beta * (now - ms)
    ensures now < ms ==> now < next < ms
    ensures now == ms ==> next == ms
    ensures now > ms ==> ms < next < now
  {
    Shrinks(beta, now - ms, next - ms);
  }

  lemma {:induction false} Complement(beta: real, d: real)
    ensures (1.0 - beta) * d == d - beta * d
    ensures beta * (-d) == -(beta * d)
  {
  }

  lemma {:induction false} Shrinks(beta: real, d: real, e: real)
    requires 0.0 < beta < 1.0 && e == beta * d
    ensures d > 0.0 ==> 0.0 < e < d
    ensures d < 0.0 ==> d < e < 0.0
    ensures d == 0.0 ==> e == 0.0
  {
    if d > 0.0 {
      ShrinksPositive(beta, d, e);
    } else if d < 0.0 {
      Complement(beta, d);
      ShrinksPositive(beta, -d, -e);
    }
  }

  lemma {:induction false} SplitByWeights(beta: real, gamma: real, d: real, e: real, rest: real)
    requires beta + gamma == 1.0 && e == beta * d && rest == gamma * d
    ensures e + rest == d
  {
    MulDistributes(d, beta, gamma);
  }

  lemma {:induction false} ShrinksPositive(beta: real, d: real, e: real)
    requires 0.0 < beta < 1.0 && e == beta * d && d > 0.0
    ensures 0.0 < e < d
  {
    var gamma := 1.0 - beta;
    var rest := gamma * d;
    MulPositive(beta, d);
    MulPositive(gamma, d);
    SplitByWeights(beta, gamma, d, e, rest);
  }

  lemma {:induction false} PowBound(alpha: real, n: nat)
    requires 0.0 < alpha < 1.0
    ensures 0.0 < Pow(1.0 - alpha, n)
    ensures Pow(1.0 - alpha, n) * (1.0 + n as real * alpha) <= 1.0
  {
    if n > 0 {
      PowBound(alpha, n - 1);
      var beta, p, m := 1.0 - alpha, Pow(1.0 - alpha, n - 1), (n - 1) as real * alpha;
      MulPositive(beta, p);
      MulDistributes(alpha, (n - 1) as real, 1.0);
      MulNonNegative((n - 1) as real, alpha);
      MulNonNegative(alpha, m + alpha);
      MulDistributes(1.0 + m + alpha, 1.0, alpha);
      MulDistributes(alpha, 1.0, m + alpha);
      MulMonotone(p, beta * (1.0 + m + alpha), 1.0 + m);
      MulAssociates(p, beta, 1.0 + m + alpha);
    }
  }

  /** How many observations of one latency bring the average within eps of it. */
  function ObservationsNeeded(alpha: real, distance: real, eps: real): nat
    requires 0.0 < alpha < 1.0 && distance >= 0.0 && eps > 0.0
  {
    var q := distance / (alpha * eps);
    if q < 0.0 then 1 else q.Floor + 1
  }

  /** The average converges to a constant latency, at a rate fixed in advance. */
  lemma {:induction false} SteadyLatencyConverges(cfg: TrackerConfig, s: EmaState, ms: real, eps: real, n: nat)
    requires eps > 0.0
    requires n >= ObservationsNeeded(SmoothingFactor(cfg), Abs(s.p95 - ms), eps)
    ensures Abs(SteadyAverage(SmoothingFactor(cfg), s, ms, n) - ms) < eps
  {
    var a := SmoothingFactor(cfg);
    SteadyLatencyDistance(a, s, ms, n);
    ConvergesAtRate(a, Abs(SteadyAverage(a, s, ms, n) - ms), Abs(s.p95 - ms), eps, n);
  }

  lemma {:induction false} ConvergesAtRate(alpha: real, x: real, d: real, eps: real, n: nat)
    requires 0.0 < alpha < 1.0 && eps > 0.0 && d >= 0.0
    requires x == Pow(1.0 - alpha, n) * d
    requires n >= ObservationsNeeded(alpha, d, eps)
    ensures x < eps
  {
    var p, t := Pow(1.0 - alpha, n), n as real * alpha;
    PowBound(alpha, n);
    EnoughObservations(alpha, d, eps, n);
    BoundFollows(p, d, t, eps);
  }

  lemma {:induction false} SteadyLatencyDistance(alpha: real, s: EmaState, ms: real, n: nat)
    requires 0.0 < alpha < 1.0
    ensures Abs(SteadyAverage(alpha, s, ms, n) - ms) == Pow(1.0 - alpha, n) * Abs(s.p95 - ms)
  {
    SteadyLatencyClosedForm(alpha, s, ms, n);
    PowBound(alpha, n);
    AbsOfProduct(Pow(1.0 - alpha, n), s.p95 - ms);
  }

  lemma {:induction false} AbsOfProduct(p: real, x: real)
    requires p > 0.0
    ensures Abs(p * x) == p * Abs(x)
  {
    if x >= 0.0 {
      MulNonNegative(p, x);
    } else {
      MulPositive(p, -x);
    }
  }

  lemma {:induction false} EnoughObservations(a: real, d: real, eps: real, n: nat)
    requires 0.0 < a < 1.0 && d >= 0.0 && eps > 0.0
    requires n >= ObservationsNeeded(a, d, eps)
    ensures d < (n as real * a) * eps
    ensures n as real * a >= 0.0
  {
    MulPositive(a, eps);
    var q := d / (a * eps);
    MulPositive(n as real - q, a * eps);
    MulDistributes(a * eps, n as real, q);
    MulAssociates(n as real, a, eps);
    MulNonNegative(n as real, a);
  }

  lemma {:induction false} BoundFollows(p: real, d: real, t: real, eps: real)
    requires p > 0.0 && d >= 0.0 && eps > 0.0 && t >= 0.0
    requires p * (1.0 + t) <= 1.0 && d < t * eps
    ensures p * d < eps
  {
    MulPositive(p, t * eps - d);
    MulDistributes(p, t * eps, d);
    MulAssociates(p, t, eps);
    MulDistributes(p, 1.0, t);
    MulMonotone(eps, p * t, 1.0 - p);
    MulDistributes(eps, 1.0, p);
    MulPositive(eps, p);
  }
}
