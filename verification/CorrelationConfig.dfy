/** The cached fallback of CorrelationConfig.resolve: any number of threads race on one AtomicReference through
    updateAndGet, whose compare-and-set may fail for a changed value or spuriously. */
module CorrelationConfig {
  import opened Options

  /** Where a thread stands inside updateAndGet. */
  datatype Phase =
    | Outside
    | Read(prev: Option<string>)
    | Computed(prev: Option<string>, next: string)

  /** The shared cache, the threads, what the random supplier has produced, and what `resolve` has returned so far. */
  datatype State = State(cache: Option<string>, threads: seq<Phase>, supplied: seq<string>, returned: seq<string>)

  datatype Action =
    | Get(t: nat)
    | Apply(t: nat, random: string)
    | Swap(t: nat)
    | FailToSwap(t: nat)

  function Start(threads: nat): State {
    State(None, seq(threads, _ => Outside), [], [])
  }

  predicate Enabled(s: State, a: Action) {
    a.t < |s.threads|
    && match a
       case Get(t) => s.threads[t].Outside?
       case Apply(t, random) => s.threads[t].Read?
       case Swap(t) => s.threads[t].Computed? && s.threads[t].prev == s.cache
       case FailToSwap(t) => s.threads[t].Computed?
  }

  function Do(s: State, a: Action): State
    requires Enabled(s, a)
  {
    match a
    case Get(t) => s.(threads := s.threads[t := Read(s.cache)])
    case Apply(t, random) =>
      var prev := s.threads[t].prev;
      if prev.Some? then s.(threads := s.threads[t := Computed(prev, prev.value)])
      else s.(threads := s.threads[t := Computed(prev, random)], supplied := s.supplied + [random])
    case Swap(t) =>
      var next := s.threads[t].next;
      s.(cache := Some(next), threads := s.threads[t := Outside], returned := s.returned + [next])
    case FailToSwap(t) =>
      // A computed value is kept when the reread finds the value it was computed from.
      if s.threads[t].prev == s.cache then s else s.(threads := s.threads[t := Read(s.cache)])
  }

  predicate Feasible(s: State, run: seq<Action>)
    decreases |run|
  {
    run == [] || (Enabled(s, run[0]) && Feasible(Do(s, run[0]), run[1..]))
  }

  function After(s: State, run: seq<Action>): State
    requires Feasible(s, run)
    decreases |run|
  {
    if run == [] then s else After(Do(s, run[0]), run[1..])
  }

  ghost predicate PhaseFits(p: Phase, s: State) {
    match p
    case Outside => true
    case Read(prev) => prev.Some? ==> prev == s.cache
    case Computed(prev, next) => if prev.Some? then prev == s.cache && next == prev.value else next in s.supplied
  }

  /** Nothing is returned before the cache is set; afterwards everything returned is what the cache holds, and that is a
      value the supplier produced. */
  ghost predicate Consistent(s: State) {
    (forall t :: 0 <= t < |s.threads| ==> PhaseFits(s.threads[t], s))
    && (s.cache.None? ==> s.returned == [])
    && (s.cache.Some? ==> s.cache.value in s.supplied && forall v :: v in s.returned ==> v == s.cache.value)
  }

  lemma StepKeepsConsistency(s: State, a: Action)
    requires Consistent(s) && Enabled(s, a)
    ensures Consistent(Do(s, a))
    ensures s.cache.Some? ==> Do(s, a).cache == s.cache
    ensures s.returned <= Do(s, a).returned
  {
    assert PhaseFits(s.threads[a.t], s);
    var next := Do(s, a);
    forall t | 0 <= t < |next.threads|
      ensures PhaseFits(next.threads[t], next)
    {
      assert PhaseFits(s.threads[t], s);
    }
  }

  lemma {:induction false} RunKeepsConsistency(s: State, run: seq<Action>)
    requires Consistent(s) && Feasible(s, run)
    ensures Consistent(After(s, run))
    ensures s.cache.Some? ==> After(s, run).cache == s.cache
    ensures s.returned <= After(s, run).returned
    decreases |run|
  {
    if run == [] {
    } else {
      StepKeepsConsistency(s, run[0]);
      RunKeepsConsistency(Do(s, run[0]), run[1..]);
    }
  }

  /** Agreement: for any number of threads and any interleaving, failed swaps included, all values that `resolve`
      returns for one unset field are the same, and the supplier produced it. */
  lemma AllReturnsAgree(threads: nat, run: seq<Action>)
    requires Feasible(Start(threads), run)
    ensures var returned := After(Start(threads), run).returned;
      (forall v, w :: v in returned && w in returned ==> v == w)
      && (forall v :: v in returned ==> v in After(Start(threads), run).supplied)
  {
    RunKeepsConsistency(Start(threads), run);
  }

  lemma {:induction false} RunsCompose(s: State, run: seq<Action>, more: seq<Action>)
    requires Feasible(s, run + more)
    ensures Feasible(s, run) && Feasible(After(s, run), more)
    ensures After(s, run + more) == After(After(s, run), more)
    decreases |run|
  {
    if run == [] {
      assert run + more == more;
    } else {
      assert (run + more)[1..] == run[1..] + more;
      RunsCompose(Do(s, run[0]), run[1..], more);
    }
  }

  /** Once set, the cache never changes. */
  lemma CacheIsStable(threads: nat, run: seq<Action>, more: seq<Action>)
    requires Feasible(Start(threads), run + more)
    ensures Feasible(Start(threads), run)
    ensures After(Start(threads), run).cache.Some? ==>
      After(Start(threads), run + more).cache == After(Start(threads), run).cache
  {
    RunsCompose(Start(threads), run, more);
    RunKeepsConsistency(Start(threads), run);
    RunKeepsConsistency(After(Start(threads), run), more);
  }

  lemma Prepend(s: State, a: Action, next: State, rest: seq<Action>, end: State)
    requires Enabled(s, a) && Do(s, a) == next
    requires Feasible(next, rest) && After(next, rest) == end
    ensures Feasible(s, [a] + rest) && After(s, [a] + rest) == end
  {
    assert ([a] + rest)[1..] == rest;
  }

  /** The supplier itself may run more than once: two threads both read the empty cache, and the slower one discards its
      value and returns the other's. */
  lemma SupplierMayRunTwice(a: string, b: string) returns (run: seq<Action>)
    ensures Feasible(Start(2), run)
    ensures After(Start(2), run).supplied == [a, b] && After(Start(2), run).returned == [a, a]
  {
    var s1 := State(None, [Read(None), Outside], [], []);
    var s2 := State(None, [Read(None), Read(None)], [], []);
    var s3 := State(None, [Computed(None, a), Read(None)], [a], []);
    var s4 := State(None, [Computed(None, a), Computed(None, b)], [a, b], []);
    var s5 := State(Some(a), [Outside, Computed(None, b)], [a, b], [a]);
    var s6 := State(Some(a), [Outside, Read(Some(a))], [a, b], [a]);
    var s7 := State(Some(a), [Outside, Computed(Some(a), a)], [a, b], [a]);
    var end := State(Some(a), [Outside, Outside], [a, b], [a, a]);
    run := [];
    Prepend(s7, Swap(1), end, run, end);
    run := [Swap(1)] + run;
    Prepend(s6, Apply(1, b), s7, run, end);
    run := [Apply(1, b)] + run;
    Prepend(s5, FailToSwap(1), s6, run, end);
    run := [FailToSwap(1)] + run;
    Prepend(s4, Swap(0), s5, run, end);
    run := [Swap(0)] + run;
    Prepend(s3, Apply(1, b), s4, run, end);
    run := [Apply(1, b)] + run;
    Prepend(s2, Apply(0, a), s3, run, end);
    run := [Apply(0, a)] + run;
    Prepend(s1, Get(1), s2, run, end);
    run := [Get(1)] + run;
    Prepend(Start(2), Get(0), s1, run, end);
    run := [Get(0)] + run;
  }
}
