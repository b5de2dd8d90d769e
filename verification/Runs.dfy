/** Finite runs of a step relation, and putting two of them together. */
module Runs {

  /** A step taken, and the state it led to. */
  datatype Taken<A, S> = Taken(op: A, after: S)

  type Run<A, S> = seq<Taken<A, S>>

  type Relation<!A, !S> = (S, A, S) -> bool

  /** `next` is the step relation `spec`; it is unfolded only where a step of `spec` is mentioned. */
  ghost predicate IsMachine<A(!new), S(!new)>(next: Relation<A, S>, spec: Relation<A, S>) {
    forall s, op, s' {:trigger spec(s, op, s')} :: next(s, op, s') <==> spec(s, op, s')
  }

  /** A finite run from s to s' in which every step is one of `next`. */
  ghost predicate Steps<A, S>(next: Relation<A, S>, s: S, run: Run<A, S>, s': S)
    decreases |run|
  {
    if run == [] then s' == s else next(s, run[0].op, run[0].after) && Steps(next, run[0].after, run[1..], s')
  }

  /** s' is one step away from s. */
  ghost predicate Does<A, S>(next: Relation<A, S>, s: S, op: A, s': S) {
    Steps(next, s, [Taken(op, s')], s')
  }

  lemma NextDoes<A(!new), S(!new)>(next: Relation<A, S>, spec: Relation<A, S>, s: S, op: A, s': S)
    requires IsMachine(next, spec) && spec(s, op, s')
    ensures Does(next, s, op, s')
  {}

  lemma {:induction false} StepsJoin<A, S>(
      next: Relation<A, S>, s: S, run: Run<A, S>, m: S, more: Run<A, S>, s': S)
    requires Steps(next, s, run, m) && Steps(next, m, more, s')
    ensures Steps(next, s, run + more, s')
    decreases |run|
  {
    if run == [] {
      assert run + more == more;
    } else {
      StepsJoin(next, run[0].after, run[1..], m, more, s');
      assert (run + more)[1..] == run[1..] + more;
    }
  }
}
