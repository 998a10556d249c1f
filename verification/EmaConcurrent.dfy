/** Any number of goroutines calling Record on one tracker, one atomic access per
    step. Pointers are indices into a heap of immutable states. */
module EmaConcurrent {
  import opened Domain
  import opened EmaTracker

  /** Where one goroutine stands inside Record. */
  datatype Pc =
    | Idle
    | Loading(ms: real)
    | Loaded(ms: real, base: nat, seen: nat)               // pointer loaded, after `seen` commits
    | Allocated(ms: real, base: nat, seen: nat, next: nat) // next state built, swap to come
    | Emitting(ms: real, p95: real)                        // swap won, gauge to come

  datatype Commit = Commit(who: nat, ms: real)

  datatype State = State(
    heap: seq<EmaState>,
    current: nat,
    pcs: seq<Pc>,
    commits: seq<Commit>,          // history: swaps won, in order
    completed: seq<seq<real>>)     // history: per goroutine, the calls that returned

  datatype Step =
    | Begin(g: nat, latency: int)
    | Load(g: nat)
    | Build(g: nat)
    | Swap(g: nat)
    | Emit(g: nat)

  function Init(seed: EmaState, goroutines: nat): State {
    State([seed], 0, seq(goroutines, i => Idle), [], seq(goroutines, i => []))
  }

  ghost predicate Enabled(s: State, step: Step) {
    && Shape(s)
    && step.g < |s.pcs|
    && match step
       case Begin(g, _) => s.pcs[g].Idle?
       case Load(g) => s.pcs[g].Loading?
       case Build(g) => s.pcs[g].Loaded?
       case Swap(g) => s.pcs[g].Allocated?
       case Emit(g) => s.pcs[g].Emitting?
  }

  /** Every pointer a goroutine holds is allocated; StepKeepsInv shows it always is. */
  ghost predicate Shape(s: State) {
    && s.current < |s.heap|
    && |s.completed| == |s.pcs|
    && forall g :: 0 <= g < |s.pcs| ==>
         match s.pcs[g]
         case Loaded(_, base, _) => base < |s.heap|
         case Allocated(_, base, _, next) => base < |s.heap| && next < |s.heap|
         case _ => true
  }

  ghost function Apply(alpha: real, s: State, step: Step): State
    requires Enabled(s, step)
  {
    var g := step.g;
    match step
    case Begin(_, latency) => s.(pcs := s.pcs[g := Loading(LatencyMillis(latency))])
    case Load(_) => s.(pcs := s.pcs[g := Loaded(s.pcs[g].ms, s.current, |s.commits|)])
    case Build(_) =>
      var Loaded(ms, base, seen) := s.pcs[g];
      s.(heap := s.heap + [Observe(alpha, s.heap[base], ms)],
         pcs := s.pcs[g := Allocated(ms, base, seen, |s.heap|)])
    case Swap(_) =>
      var Allocated(ms, base, seen, next) := s.pcs[g];
      if s.current == base then
        s.(current := next, commits := s.commits + [Commit(g, ms)],
           pcs := s.pcs[g := Emitting(ms, s.heap[next].p95)])
      else
        s.(pcs := s.pcs[g := Loading(ms)])
    case Emit(_) =>
      s.(pcs := s.pcs[g := Idle], completed := s.completed[g := s.completed[g] + [s.pcs[g].ms]])
  }

  ghost predicate ValidRun(alpha: real, s: State, run: seq<Step>)
    decreases |run|
  {
    run == [] || (Enabled(s, run[0]) && ValidRun(alpha, Apply(alpha, s, run[0]), run[1..]))
  }

  ghost function Exec(alpha: real, s: State, run: seq<Step>): State
    requires ValidRun(alpha, s, run)
    decreases |run|
  {
    if run == [] then s else Exec(alpha, Apply(alpha, s, run[0]), run[1..])
  }

  // ---- what the history says ----

  ghost function Latencies(commits: seq<Commit>): seq<real> {
    seq(|commits|, i requires 0 <= i < |commits| => commits[i].ms)
  }

  /** The commits of one goroutine, in order. */
  ghost function CommitsOf(commits: seq<Commit>, g: nat): seq<real> {
    if commits == [] then []
    else
      var n := |commits| - 1;
      CommitsOf(commits[..n], g) + (if commits[n].who == g then [commits[n].ms] else [])
  }

  ghost function InFlight(pc: Pc): seq<real> {
    if pc.Emitting? then [pc.ms] else []
  }

  /** The stored state is the fold of every commit, and every goroutine's commits are
      its returned calls plus the one whose gauge is still to be set. */
  ghost predicate NothingLost(alpha: real, seed: EmaState, s: State)
    requires Shape(s)
  {
    && s.heap[s.current] == Fold(alpha, seed, Latencies(s.commits))
    && forall g :: 0 <= g < |s.pcs| ==> CommitsOf(s.commits, g) == s.completed[g] + InFlight(s.pcs[g])
  }

  ghost predicate PcOk(alpha: real, s: State, pc: Pc)
    requires s.current < |s.heap|
  {
    match pc
    case Loaded(_, base, seen) =>
      base < |s.heap| && seen <= |s.commits| && (seen == |s.commits| ==> s.current == base)
    case Allocated(ms, base, seen, next) =>
      && base < |s.heap| && next < |s.heap| && seen <= |s.commits|
      && (seen == |s.commits| ==> s.current == base)
      && s.heap[next] == Observe(alpha, s.heap[base], ms)
    case _ => true
  }

  ghost predicate Inv(alpha: real, s: State) {
    && Shape(s)
    && s.heap != []
    && NothingLost(alpha, s.heap[0], s)
    && forall g :: 0 <= g < |s.pcs| ==> PcOk(alpha, s, s.pcs[g])
  }

  lemma {:induction false} InitInv(alpha: real, seed: EmaState, goroutines: nat)
    ensures Inv(alpha, Init(seed, goroutines))
  {
    assert Latencies([]) == [];
  }

  lemma {:induction false} CommitAppended(alpha: real, seed: EmaState, commits: seq<Commit>, c: Commit, g: nat)
    ensures Fold(alpha, seed, Latencies(commits + [c])) == Observe(alpha, Fold(alpha, seed, Latencies(commits)), c.ms)
    ensures CommitsOf(commits + [c], g) == CommitsOf(commits, g) + (if c.who == g then [c.ms] else [])
  {
    assert (commits + [c])[..|commits|] == commits;
    assert Latencies(commits + [c])[..|commits|] == Latencies(commits);
  }

  lemma {:induction false} StepKeepsInv(alpha: real, s: State, step: Step)
    requires Inv(alpha, s) && Enabled(s, step)
    ensures Inv(alpha, Apply(alpha, s, step))
    ensures Apply(alpha, s, step).heap[0] == s.heap[0]
    ensures |Apply(alpha, s, step).pcs| == |s.pcs|
  {
    if step.Swap? && s.current == s.pcs[step.g].base {
      SwapWins(alpha, s, step.g);
    } else if step.Build? {
      BuildKeepsInv(alpha, s, step.g);
    } else {
      NoCommitKeepsInv(alpha, s, step);
    }
  }

  lemma {:induction false} BuildKeepsInv(alpha: real, s: State, g: nat)
    requires Inv(alpha, s) && Enabled(s, Build(g))
    ensures Inv(alpha, Apply(alpha, s, Build(g)))
  {
    var t := Apply(alpha, s, Build(g));
    forall h | 0 <= h < |t.pcs| ensures PcOk(alpha, t, t.pcs[h]) {
      assert PcOk(alpha, s, s.pcs[h]);
    }
  }

  lemma {:induction false} NoCommitKeepsInv(alpha: real, s: State, step: Step)
    requires Inv(alpha, s) && Enabled(s, step) && !step.Build?
    requires step.Swap? ==> s.current != s.pcs[step.g].base
    ensures Inv(alpha, Apply(alpha, s, step))
  {
    var t := Apply(alpha, s, step);
    forall h | 0 <= h < |t.pcs| ensures PcOk(alpha, t, t.pcs[h]) {
      assert PcOk(alpha, s, s.pcs[h]);
    }
  }

  lemma {:induction false} SwapWins(alpha: real, s: State, g: nat)
    requires Inv(alpha, s) && Enabled(s, Swap(g)) && s.current == s.pcs[g].base
    ensures Inv(alpha, Apply(alpha, s, Swap(g)))
  {
    var t := Apply(alpha, s, Swap(g));
    var c := Commit(g, s.pcs[g].ms);
    assert PcOk(alpha, s, s.pcs[g]);
    forall h | 0 <= h < |t.pcs|
      ensures CommitsOf(t.commits, h) == t.completed[h] + InFlight(t.pcs[h])
      ensures PcOk(alpha, t, t.pcs[h])
    {
      CommitAppended(alpha, s.heap[0], s.commits, c, h);
      assert PcOk(alpha, s, s.pcs[h]);
    }
    CommitAppended(alpha, s.heap[0], s.commits, c, g);
  }

  lemma {:induction false} RunKeepsInv(alpha: real, s: State, run: seq<Step>)
    requires Inv(alpha, s) && ValidRun(alpha, s, run)
    ensures Inv(alpha, Exec(alpha, s, run))
    ensures Exec(alpha, s, run).heap[0] == s.heap[0]
    ensures |Exec(alpha, s, run).pcs| == |s.pcs|
    decreases |run|
  {
    if run != [] {
      StepKeepsInv(alpha, s, run[0]);
      RunKeepsInv(alpha, Apply(alpha, s, run[0]), run[1..]);
    }
  }

  /** The latencies, in milliseconds, that goroutine g was asked to record in a run. */
  function Asked(run: seq<Step>, g: nat): seq<real> {
    if run == [] then []
    else
      (if run[0].Begin? && run[0].g == g then [run[0].latency as real / 1_000_000.0] else []) + Asked(run[1..], g)
  }

  /** The latency a goroutine is still busy with. */
  function Busy(pc: Pc): seq<real> {
    if pc.Idle? then [] else [pc.ms]
  }

  /** What g has recorded or is busy with. */
  ghost function TakenOn(s: State, g: nat): seq<real>
    requires g < |s.pcs| == |s.completed|
  {
    s.completed[g] + Busy(s.pcs[g])
  }

  lemma {:induction false} StepAsks(alpha: real, s: State, step: Step, g: nat)
    requires Enabled(s, step) && g < |s.pcs| == |s.completed|
    ensures |Apply(alpha, s, step).pcs| == |s.pcs| == |Apply(alpha, s, step).completed|
    ensures TakenOn(Apply(alpha, s, step), g) == TakenOn(s, g) + Asked([step], g)
  {
    assert [step][1..] == [];
    assert step.g != g ==> Asked([step], g) == [];
  }

  lemma {:induction false} AskedSplit(run: seq<Step>, g: nat)
    requires run != []
    ensures Asked([run[0]], g) + Asked(run[1..], g) == Asked(run, g)
  {
    assert [run[0]][1..] == [];
  }

  lemma {:induction false} RunAsks(alpha: real, s: State, run: seq<Step>, g: nat)
    requires ValidRun(alpha, s, run) && g < |s.pcs| == |s.completed|
    ensures |Exec(alpha, s, run).pcs| == |s.pcs| == |Exec(alpha, s, run).completed|
    ensures TakenOn(Exec(alpha, s, run), g) == TakenOn(s, g) + Asked(run, g)
    decreases |run|
  {
    if run != [] {
      StepAsks(alpha, s, run[0], g);
      RunAsks(alpha, Apply(alpha, s, run[0]), run[1..], g);
      AskedSplit(run, g);
      ConcatAssociates(TakenOn(s, g), Asked([run[0]], g), Asked(run[1..], g));
    }
  }

  /** In every interleaving no observation is lost or counted twice: the published
      state is the fold of all commits in swap order from the seed, the observation
      count is the number of commits, and the commits of a goroutine that is not busy
      are exactly the latencies it was asked to record, in order. */
  lemma {:induction false} NoObservationIsLost(alpha: real, seed: EmaState, goroutines: nat, run: seq<Step>)
    requires ValidRun(alpha, Init(seed, goroutines), run)
    ensures var s := Exec(alpha, Init(seed, goroutines), run);
            && s.current < |s.heap|
            && s.heap[s.current] == Fold(alpha, seed, Latencies(s.commits))
            && s.heap[s.current].observations == seed.observations + |s.commits|
            && |s.pcs| == |s.completed| == goroutines
            && forall g :: 0 <= g < goroutines && s.pcs[g].Idle? ==> CommitsOf(s.commits, g) == Asked(run, g)
  {
    InitInv(alpha, seed, goroutines);
    RunKeepsInv(alpha, Init(seed, goroutines), run);
    var s := Exec(alpha, Init(seed, goroutines), run);
    FoldCounts(alpha, seed, Latencies(s.commits));
    forall g | 0 <= g < goroutines && s.pcs[g].Idle? ensures CommitsOf(s.commits, g) == Asked(run, g) {
      RunAsks(alpha, Init(seed, goroutines), run, g);
    }
  }

  // ---- why a swap fails ----

  predicate HasLoaded(pc: Pc) { pc.Loaded? || pc.Allocated? }

  /** A state built but not yet published is nobody's base, and a base that others have
      committed past is never current again. */
  ghost predicate FreshInv(s: State) {
    && Shape(s)
    && (forall h :: 0 <= h < |s.pcs| && s.pcs[h].Allocated? ==> s.pcs[h].next != s.current)
    && (forall g, h :: 0 <= g < |s.pcs| && 0 <= h < |s.pcs| && HasLoaded(s.pcs[g]) && s.pcs[h].Allocated? ==>
          s.pcs[g].base != s.pcs[h].next)
    && (forall g, h :: 0 <= g < h < |s.pcs| && s.pcs[g].Allocated? && s.pcs[h].Allocated? ==>
          s.pcs[g].next != s.pcs[h].next)
    && (forall g :: 0 <= g < |s.pcs| && HasLoaded(s.pcs[g]) ==>
          (s.pcs[g].base == s.current <==> s.pcs[g].seen == |s.commits|) && OnlyRivalsSince(s, g))
  }

  /** Since g loaded the pointer, only others have committed. */
  ghost predicate OnlyRivalsSince(s: State, g: nat)
    requires g < |s.pcs| && HasLoaded(s.pcs[g])
  {
    && s.pcs[g].seen <= |s.commits|
    && forall i :: s.pcs[g].seen <= i < |s.commits| ==> s.commits[i].who != g
  }

  lemma {:induction false} SwapKeepsFresh(alpha: real, s: State, step: Step)
    requires FreshInv(s) && Enabled(s, step) && step.Swap?
    ensures FreshInv(Apply(alpha, s, step))
  {
    var t := Apply(alpha, s, step);
    forall g | 0 <= g < |t.pcs| && HasLoaded(t.pcs[g])
      ensures (t.pcs[g].base == t.current <==> t.pcs[g].seen == |t.commits|) && OnlyRivalsSince(t, g)
    {
      assert g != step.g ==> t.pcs[g] == s.pcs[g] && OnlyRivalsSince(s, g);
    }
  }

  lemma {:induction false} BuildKeepsFresh(alpha: real, s: State, step: Step)
    requires FreshInv(s) && Enabled(s, step) && step.Build?
    ensures FreshInv(Apply(alpha, s, step))
  {
    var t := Apply(alpha, s, step);
    forall g | 0 <= g < |t.pcs| && HasLoaded(t.pcs[g])
      ensures (t.pcs[g].base == t.current <==> t.pcs[g].seen == |t.commits|) && OnlyRivalsSince(t, g)
    {
      assert g != step.g ==> t.pcs[g] == s.pcs[g] && OnlyRivalsSince(s, g);
    }
  }

  lemma {:induction false} OthersKeepFresh(alpha: real, s: State, step: Step)
    requires FreshInv(s) && Enabled(s, step) && !step.Swap? && !step.Build?
    ensures FreshInv(Apply(alpha, s, step))
  {
    var t := Apply(alpha, s, step);
    forall g | 0 <= g < |t.pcs| && HasLoaded(t.pcs[g])
      ensures (t.pcs[g].base == t.current <==> t.pcs[g].seen == |t.commits|) && OnlyRivalsSince(t, g)
    {
      assert g != step.g ==> t.pcs[g] == s.pcs[g] && OnlyRivalsSince(s, g);
    }
  }

  lemma {:induction false} StepKeepsFresh(alpha: real, s: State, step: Step)
    requires FreshInv(s) && Enabled(s, step)
    ensures FreshInv(Apply(alpha, s, step))
  {
    if step.Swap? {
      SwapKeepsFresh(alpha, s, step);
    } else if step.Build? {
      BuildKeepsFresh(alpha, s, step);
    } else {
      OthersKeepFresh(alpha, s, step);
    }
  }

  lemma {:induction false} RunKeepsFresh(alpha: real, s: State, run: seq<Step>)
    requires FreshInv(s) && ValidRun(alpha, s, run)
    ensures FreshInv(Exec(alpha, s, run))
    decreases |run|
  {
    if run != [] {
      StepKeepsFresh(alpha, s, run[0]);
      RunKeepsFresh(alpha, Apply(alpha, s, run[0]), run[1..]);
    }
  }

  /** Lock freedom: in every interleaving a swap fails exactly when some other goroutine
      has committed since this one loaded the pointer, so every retry is paid for by a
      rival's progress. */
  lemma {:induction false} SwapFailsExactlyToARival(
    alpha: real, seed: EmaState, goroutines: nat, run: seq<Step>, g: nat)
    requires ValidRun(alpha, Init(seed, goroutines), run)
    requires Enabled(Exec(alpha, Init(seed, goroutines), run), Swap(g))
    ensures var s := Exec(alpha, Init(seed, goroutines), run);
            && (Apply(alpha, s, Swap(g)).pcs[g].Loading? <==> s.pcs[g].seen < |s.commits|)
            && (forall i :: s.pcs[g].seen <= i < |s.commits| ==> s.commits[i].who != g)
  {
    RunKeepsFresh(alpha, Init(seed, goroutines), run);
    assert OnlyRivalsSince(Exec(alpha, Init(seed, goroutines), run), g);
  }
}
