/** Runs of state machines. */
module Runs {
  /** A machine whose steps are functions of the state where they are enabled. */
  datatype Machine<!S, !E> = Machine(enabled: (S, E) -> bool, apply: (S, E) -> S)

  predicate CanRun<S, E>(m: Machine<S, E>, s: S, steps: seq<E>)
    decreases |steps|
  {
    steps == [] || (m.enabled(s, steps[0]) && CanRun(m, m.apply(s, steps[0]), steps[1..]))
  }

  function Run<S, E>(m: Machine<S, E>, s: S, steps: seq<E>): S
    decreases |steps|
  {
    if steps == [] then s else Run(m, m.apply(s, steps[0]), steps[1..])
  }

  lemma RunFirst<S, E>(m: Machine<S, E>, s: S, a: E, more: seq<E>)
    ensures CanRun(m, s, [a] + more) <==> m.enabled(s, a) && CanRun(m, m.apply(s, a), more)
    ensures Run(m, s, [a] + more) == Run(m, m.apply(s, a), more)
  {
    assert ([a] + more)[1..] == more;
  }

  lemma Run3<S, E>(m: Machine<S, E>, s: S, a: E, b: E, c: E)
    requires m.enabled(s, a) && m.enabled(m.apply(s, a), b) && m.enabled(m.apply(m.apply(s, a), b), c)
    ensures CanRun(m, s, [a, b, c]) && Run(m, s, [a, b, c]) == m.apply(m.apply(m.apply(s, a), b), c)
  {
    var s1 := m.apply(s, a);
    RunFirst(m, m.apply(s1, b), c, []);
    RunFirst(m, s1, b, [c] + []);
    RunFirst(m, s, a, [b] + ([c] + []));
    assert [a] + ([b] + ([c] + [])) == [a, b, c];
  }

  lemma {:induction false} RunsJoin<S, E>(m: Machine<S, E>, s: S, a: seq<E>, b: seq<E>)
    ensures CanRun(m, s, a + b) <==> CanRun(m, s, a) && CanRun(m, Run(m, s, a), b)
    ensures Run(m, s, a + b) == Run(m, Run(m, s, a), b)
    decreases |a|
  {
    if a == [] {
      assert a + b == b;
    } else {
      RunsJoin(m, m.apply(s, a[0]), a[1..], b);
      RunFirst(m, s, a[0], a[1..] + b);
      assert [a[0]] + (a[1..] + b) == a + b;
    }
  }

  /** Some step of the run is taken in a state where p holds of it. */
  predicate Occurs<S, E>(m: Machine<S, E>, s: S, steps: seq<E>, p: (S, E) -> bool)
    decreases |steps|
  {
    steps != [] && (p(s, steps[0]) || Occurs(m, m.apply(s, steps[0]), steps[1..], p))
  }

  /** i holds at the start and after every step of the run. */
  predicate Always<S, E>(m: Machine<S, E>, s: S, steps: seq<E>, i: S -> bool)
    decreases |steps|
  {
    i(s) && (steps == [] || Always(m, m.apply(s, steps[0]), steps[1..], i))
  }

  /** Every step but those of p keeps i. */
  ghost predicate KeepsUnless<S(!new), E(!new)>(m: Machine<S, E>, i: S -> bool, p: (S, E) -> bool) {
    forall s: S, e: E {:trigger m.apply(s, e)} :: i(s) && m.enabled(s, e) && !p(s, e) ==> i(m.apply(s, e))
  }

  ghost predicate Keeps<S(!new), E(!new)>(m: Machine<S, E>, i: S -> bool) {
    forall s: S, e: E {:trigger m.apply(s, e)} :: i(s) && m.enabled(s, e) ==> i(m.apply(s, e))
  }

  lemma {:induction false} InvariantUnless<S(!new), E(!new)>(m: Machine<S, E>, s: S, steps: seq<E>,
                                                             i: S -> bool, p: (S, E) -> bool)
    requires CanRun(m, s, steps) && i(s) && KeepsUnless(m, i, p) && !Occurs(m, s, steps, p)
    ensures i(Run(m, s, steps))
    decreases |steps|
  {
    if steps != [] {
      InvariantUnless(m, m.apply(s, steps[0]), steps[1..], i, p);
    }
  }

  lemma {:induction false} Invariant<S(!new), E(!new)>(m: Machine<S, E>, s: S, steps: seq<E>, i: S -> bool)
    requires CanRun(m, s, steps) && i(s) && Keeps(m, i)
    ensures i(Run(m, s, steps))
    decreases |steps|
  {
    if steps != [] {
      Invariant(m, m.apply(s, steps[0]), steps[1..], i);
    }
  }

  /** A step of p, taken while i holds, makes j true for the rest of the run. */
  lemma {:induction false} EverAfter<S(!new), E(!new)>(m: Machine<S, E>, s: S, steps: seq<E>,
                                                       i: S -> bool, p: (S, E) -> bool, j: S -> bool)
    requires CanRun(m, s, steps) && i(s) && Keeps(m, i) && Keeps(m, j) && Occurs(m, s, steps, p)
    requires forall t: S, e: E {:trigger m.apply(t, e)} :: i(t) && m.enabled(t, e) && p(t, e) ==> j(m.apply(t, e))
    ensures j(Run(m, s, steps))
    decreases |steps|
  {
    var t := m.apply(s, steps[0]);
    if p(s, steps[0]) {
      Invariant(m, t, steps[1..], j);
    } else {
      EverAfter(m, t, steps[1..], i, p, j);
    }
  }

  /** When a step from a state where i holds keeps i exactly if p does not hold of it, a run keeps i
      throughout exactly if p holds of none of its steps. */
  lemma {:induction false} AlwaysExactly<S(!new), E(!new)>(m: Machine<S, E>, s: S, steps: seq<E>,
                                                           i: S -> bool, p: (S, E) -> bool)
    requires CanRun(m, s, steps) && i(s)
    requires forall t: S, e: E {:trigger m.apply(t, e)} ::
               i(t) && m.enabled(t, e) ==> (i(m.apply(t, e)) <==> !p(t, e))
    ensures Always(m, s, steps, i) <==> !Occurs(m, s, steps, p)
    decreases |steps|
  {
    if steps != [] {
      var t := m.apply(s, steps[0]);
      if i(t) {
        AlwaysExactly(m, t, steps[1..], i, p);
      }
    }
  }

  function Times<E>(e: E, n: nat): (r: seq<E>)
    ensures |r| == n
  {
    if n == 0 then [] else [e] + Times(e, n - 1)
  }

  /** A step that changes nothing can be taken any number of times. */
  lemma {:induction false} Stutters<S, E>(m: Machine<S, E>, s: S, e: E, n: nat)
    requires m.enabled(s, e) && m.apply(s, e) == s
    ensures CanRun(m, s, Times(e, n)) && Run(m, s, Times(e, n)) == s
  {
    if n > 0 {
      Stutters(m, s, e, n - 1);
      RunFirst(m, s, e, Times(e, n - 1));
    }
  }
}
