/**
 The reusable barrier as a step relation: the threads of a sequence are exactly the callers the barrier was
 initialised for, each may call it any number of times, and each access to the 32-bit counter is one step.
 */
module Barrier {
  import opened Cardinality
  import opened Words

  datatype Pc = Outside | Spinning(wasless: bool) | Wrapping

  /** entered[t] counts the calls thread t has made so far, the current one included: the round it is in. */
  datatype State = State(bar: nat, threads: seq<Pc>, entered: seq<nat>)

  /** One access by a thread: fetch-and-increment on entry, then the atomic wrap-around or the spin test. */
  function Apply(n: nat, bar: nat, pc: Pc): (nat, Pc) {
    match pc
    case Outside =>
      (W32(bar + 1), if bar == 2 * n - 1 then Wrapping else Spinning(bar < n))
    case Wrapping => (W32(bar - 2 * n), Outside)
    case Spinning(wasless) => (bar, if (bar < n) == wasless then pc else Outside)
  }

  ghost predicate NextBy(s: State, s': State, t: nat) {
    && t < |s.threads| == |s.entered|
    && var (bar, pc) := Apply(|s.threads|, s.bar, s.threads[t]);
       s' == State(bar, s.threads[t := pc],
                   s.entered[t := s.entered[t] + if s.threads[t].Outside? then 1 else 0])
  }

  ghost predicate Next(s: State, s': State) {
    exists t: nat :: NextBy(s, s', t)
  }

  ghost predicate Init(s: State) {
    && s.bar == 0 && |s.entered| == |s.threads| > 0
    && 2 * |s.threads| < TWO32
    && forall t | 0 <= t < |s.threads| :: s.threads[t].Outside? && s.entered[t] == 0
  }

  ghost predicate IsRun(run: seq<State>) {
    && |run| > 0 && Init(run[0])
    && forall i | 0 <= i < |run| - 1 :: Next(run[i], run[i + 1])
  }

  // ---- The invariant

  /** The threads that have entered the round after the k complete ones. */
  function Ahead(entered: seq<nat>, k: nat): set<nat> {
    set t: nat | t < |entered| && entered[t] == k + 1
  }

  function Parity(m: nat): bool {
    m % 2 == 1
  }

  /** A thread is in round k, or waits in round k + 1; the half of the cycle it entered in is the round's parity. */
  predicate InStep(pc: Pc, entered: nat, k: nat) {
    && (entered == k || entered == k + 1)
    && (pc.Outside? ==> entered == k)
    && (pc.Spinning? ==> pc.wasless == Parity(entered))
  }

  /** k rounds are complete, and no wrap-around is pending. */
  ghost predicate Counting(s: State, k: nat) {
    && s.bar == (if Parity(k) then |s.threads| else 0) + |Ahead(s.entered, k)|
    && |Ahead(s.entered, k)| < |s.threads|
    && forall t | 0 <= t < |s.threads| :: !s.threads[t].Wrapping?
  }

  /** k rounds are complete, and thread w, the last to enter, has yet to wrap the counter around. */
  ghost predicate Pending(s: State, k: nat, w: nat) {
    && s.bar == 2 * |s.threads| && !Parity(k) && |s.entered| == |s.threads|
    && w < |s.threads| && s.threads[w].Wrapping?
    && (forall t | 0 <= t < |s.threads| :: s.entered[t] == k && (t != w ==> s.threads[t].Spinning?))
  }

  ghost predicate Rounds(s: State, k: nat) {
    && 0 < |s.threads| == |s.entered| && 2 * |s.threads| < TWO32
    && (forall t | 0 <= t < |s.threads| :: InStep(s.threads[t], s.entered[t], k))
    && (Counting(s, k) || exists w: nat :: Pending(s, k, w))
  }

  ghost predicate Inv(s: State) {
    exists k: nat :: Rounds(s, k)
  }

  /** When as many threads are ahead as there are threads, all are. */
  lemma AllAhead(entered: seq<nat>, k: nat)
    requires |Ahead(entered, k)| == |entered|
    ensures forall t | 0 <= t < |entered| :: entered[t] == k + 1
  {
    var range := Range(|entered|);
    if t: nat :| t < |entered| && entered[t] != k + 1 {
      assert Ahead(entered, k) <= range - {t};
      SubsetSize(Ahead(entered, k), range - {t});
    }
  }

  lemma NoneAhead(entered: seq<nat>, k: nat)
    requires forall t | 0 <= t < |entered| :: entered[t] == k
    ensures Ahead(entered, k) == {}
  {}

  /** The entering thread read the counter (k mod 2) * N + (threads ahead), and is ahead from now on. */
  lemma EnterEffect(s: State, s': State, t: nat, k: nat)
    requires Rounds(s, k) && NextBy(s, s', t) && s.threads[t].Outside?
    ensures Counting(s, k) && s.entered[t] == k
    ensures Ahead(s'.entered, k) == Ahead(s.entered, k) + {t}
    ensures |Ahead(s'.entered, k)| == |Ahead(s.entered, k)| + 1
    ensures s'.bar == s.bar + 1
    ensures s'.threads[t] == if s.bar == 2 * |s.threads| - 1 then Wrapping else Spinning(Parity(k + 1))
  {
    assert InStep(s.threads[t], s.entered[t], k);
    assert Counting(s, k) by {
      if w: nat :| Pending(s, k, w) {
        assert false;
      }
    }
  }

  lemma EnterMore(s: State, s': State, t: nat, k: nat)
    requires Rounds(s, k) && NextBy(s, s', t) && s.threads[t].Outside?
    requires |Ahead(s.entered, k)| + 1 < |s.threads|
    ensures Rounds(s', k)
  {
    EnterEffect(s, s', t, k);
    assert Counting(s', k);
  }

  /** The last thread to enter completes the round and, in the second half of the cycle, has to wrap around. */
  lemma EnterLast(s: State, s': State, t: nat, k: nat)
    requires Rounds(s, k) && NextBy(s, s', t) && s.threads[t].Outside?
    requires |Ahead(s.entered, k)| + 1 == |s.threads|
    ensures Rounds(s', k + 1)
  {
    EnterEffect(s, s', t, k);
    AllAhead(s'.entered, k);
    NoneAhead(s'.entered, k + 1);
    forall u | 0 <= u < |s.threads| ensures InStep(s'.threads[u], s'.entered[u], k + 1) {
      assert InStep(s.threads[u], s.entered[u], k);
    }
    if Parity(k) {
      assert Pending(s', k + 1, t);
    } else {
      assert Counting(s', k + 1);
    }
  }

  lemma StaysInRound(s: State, s': State, t: nat, k: nat)
    requires Rounds(s, k) && NextBy(s, s', t) && !s.threads[t].Outside?
    ensures s'.entered == s.entered && Rounds(s', k)
  {
    assert s'.entered == s.entered;
    if s.threads[t].Wrapping? {
      NoneAhead(s.entered, k);
      assert Counting(s', k);
    } else if Counting(s, k) {
      assert Counting(s', k);
    } else {
      var w: nat :| Pending(s, k, w);
      assert Pending(s', k, w);
    }
  }

  lemma InvNext(s: State, s': State, k: nat) returns (k': nat)
    requires Rounds(s, k) && Next(s, s')
    ensures Rounds(s', k')
  {
    var t: nat :| NextBy(s, s', t);
    if s.threads[t].Outside? {
      EnterEffect(s, s', t, k);
      if |Ahead(s.entered, k)| + 1 < |s.threads| {
        EnterMore(s, s', t, k);
        k' := k;
      } else {
        EnterLast(s, s', t, k);
        k' := k + 1;
      }
    } else {
      k' := k;
      StaysInRound(s, s', t, k);
    }
  }

  lemma {:induction false} InvRun(run: seq<State>, i: nat) returns (k: nat)
    requires IsRun(run) && i < |run|
    ensures Rounds(run[i], k)
  {
    if i == 0 {
      k := 0;
      NoneAhead(run[0].entered, 0);
      assert Counting(run[0], 0);
    } else {
      k := InvRun(run, i - 1);
      assert Next(run[i - 1], run[i]);
      k := InvNext(run[i - 1], run[i], k);
    }
  }

  // ---- What holds in every reachable state

  /** The counter stays within 0..2N, and no two threads are more than one round apart. */
  lemma OneRoundApart(run: seq<State>, i: nat)
    requires IsRun(run) && i < |run|
    ensures run[i].bar <= 2 * |run[i].threads| < TWO32 && |run[i].entered| == |run[i].threads|
    ensures forall t, u | 0 <= t < |run[i].entered| && 0 <= u < |run[i].entered| ::
      run[i].entered[t] <= run[i].entered[u] + 1
  {
    var k := InvRun(run, i);
    var s := run[i];
    assert forall t | 0 <= t < |s.threads| :: InStep(s.threads[t], s.entered[t], k);
  }

  /** Round m is full: every thread has entered it. */
  ghost predicate Full(s: State, m: nat) {
    forall u | 0 <= u < |s.entered| :: s.entered[u] >= m
  }

  /** Thread t spins, and its next step takes it out. */
  predicate CanLeave(s: State, t: nat)
    requires t < |s.threads|
  {
    s.threads[t].Spinning? && Apply(|s.threads|, s.bar, s.threads[t]).1.Outside?
  }

  /** The next step of a spinning thread takes it out exactly when its round is full and no wrap-around is pending. */
  lemma LeavesWhenFull(run: seq<State>, i: nat, t: nat)
    requires IsRun(run) && i < |run| && t < |run[i].threads| && run[i].threads[t].Spinning?
    requires |run[i].entered| == |run[i].threads|
    ensures CanLeave(run[i], t) <==>
      Full(run[i], run[i].entered[t])
      && forall u | 0 <= u < |run[i].threads| :: !run[i].threads[u].Wrapping?
  {
    var k := InvRun(run, i);
    var s := run[i];
    assert forall u | 0 <= u < |s.threads| :: InStep(s.threads[u], s.entered[u], k);
    if Counting(s, k) {
      if Full(s, k + 1) {
        AllIn(s, k);
      }
    }
  }

  lemma AllIn(s: State, k: nat)
    requires |s.threads| == |s.entered| && forall u | 0 <= u < |s.threads| :: InStep(s.threads[u], s.entered[u], k)
    requires Full(s, k + 1)
    ensures |Ahead(s.entered, k)| == |s.threads|
  {
    assert Ahead(s.entered, k) == Range(|s.threads|);
  }

  /** Once a thread can leave, no step of another thread shuts it in again. */
  lemma StaysOpen(run: seq<State>, i: nat, t: nat)
    requires IsRun(run) && i + 1 < |run| && t < |run[i].threads| && CanLeave(run[i], t)
    requires t < |run[i + 1].threads| && run[i + 1].threads[t] == run[i].threads[t]
    ensures CanLeave(run[i + 1], t)
  {
    var k := InvRun(run, i);
    var s, s' := run[i], run[i + 1];
    LeavesWhenFull(run, i, t);
    assert Next(s, s');
    var u: nat :| NextBy(s, s', u);
    assert InStep(s.threads[t], s.entered[t], k);
    if s.threads[u].Outside? {
      EnterEffect(s, s', u, k);
      NotAllAhead(s, s', t, u, k);
    }
    var k' := InvRun(run, i + 1);
    LeavesWhenFull(run, i + 1, t);
  }

  /** While t has not left its full round, an entering thread is not the last of the next. */
  lemma NotAllAhead(s: State, s': State, t: nat, u: nat, k: nat)
    requires Rounds(s, k) && Counting(s, k) && NextBy(s, s', u) && s.threads[u].Outside? && t < |s.threads|
    requires s.threads[t].Spinning? && Full(s, s.entered[t])
    ensures s.entered[t] == k && !s'.threads[u].Wrapping?
  {
    assert InStep(s.threads[u], s.entered[u], k) && InStep(s.threads[t], s.entered[t], k);
    var ahead := Ahead(s.entered, k);
    SubsetSize(ahead, Range(|s.threads|) - {t, u});
    assert {t, u} <= Range(|s.threads|) && |{t, u}| == 2;
  }

  /**
   However fast the others re-enter and however often, a slow leaver can still exit: from the state on in which it
   can leave, it can leave in every later state until it does.
   */
  lemma {:induction false} SlowLeaver(run: seq<State>, i: nat, j: nat, t: nat)
    requires IsRun(run) && i <= j < |run| && t < |run[i].threads| && CanLeave(run[i], t)
    requires forall m | i <= m <= j :: t < |run[m].threads| && run[m].threads[t] == run[i].threads[t]
    ensures CanLeave(run[j], t)
  {
    if i < j {
      SlowLeaver(run, i, j - 1, t);
      StaysOpen(run, j - 1, t);
    }
  }

  /** A thread that leaves its round does so only after every thread has entered that round. */
  lemma NobodyLeavesEarly(run: seq<State>, i: nat, t: nat)
    requires IsRun(run) && i + 1 < |run|
    requires t < |run[i].threads| == |run[i + 1].threads| && |run[i].entered| == |run[i].threads|
    requires !run[i].threads[t].Outside? && run[i + 1].threads[t].Outside?
    ensures Full(run[i], run[i].entered[t])
  {
    var k := InvRun(run, i);
    assert Next(run[i], run[i + 1]);
    var u: nat :| NextBy(run[i], run[i + 1], u);
    assert u == t;
    if run[i].threads[t].Spinning? {
      LeavesWhenFull(run, i, t);
    }
  }

  // ---- Everybody gets through

  /** The state after a step of thread t. */
  ghost function Moved(s: State, t: nat): (s': State)
    requires t < |s.threads| == |s.entered|
    ensures NextBy(s, s', t)
  {
    var (bar, pc) := Apply(|s.threads|, s.bar, s.threads[t]);
    State(bar, s.threads[t := pc], s.entered[t := s.entered[t] + if s.threads[t].Outside? then 1 else 0])
  }

  /** The barrier never deadlocks: some thread has a step that changes the state. */
  lemma NeverStuck(run: seq<State>, i: nat) returns (t: nat, s': State)
    requires IsRun(run) && i < |run|
    ensures NextBy(run[i], s', t) && s' != run[i]
  {
    var k := InvRun(run, i);
    t := Mover(run[i], k, k + 1);
    s' := Moved(run[i], t);
  }

  /** The steps a thread has to take until it is outside, done with round goal. */
  function Todo(pc: Pc, entered: nat, goal: nat): nat {
    (if pc.Outside? then 0 else 1) + if entered < goal then 2 else 0
  }

  function Todos(threads: seq<Pc>, entered: seq<nat>, goal: nat, n: nat): nat
    requires n <= |threads| == |entered|
  {
    if n == 0 then 0 else Todos(threads, entered, goal, n - 1) + Todo(threads[n - 1], entered[n - 1], goal)
  }

  lemma {:induction false} TodosChange(
      threads: seq<Pc>, entered: seq<nat>, goal: nat, n: nat, t: nat, pc: Pc, e: nat)
    requires n <= |threads| == |entered| && t < |threads|
    ensures Todos(threads[t := pc], entered[t := e], goal, n) - Todos(threads, entered, goal, n)
            == if t < n then Todo(pc, e, goal) - Todo(threads[t], entered[t], goal) else 0
  {
    if n > 0 {
      TodosChange(threads, entered, goal, n - 1, t, pc, e);
    }
  }

  lemma {:induction false} NothingToDo(threads: seq<Pc>, entered: seq<nat>, goal: nat, n: nat, t: nat)
    requires t < n <= |threads| == |entered| && Todos(threads, entered, goal, n) == 0
    ensures threads[t].Outside? && entered[t] >= goal
  {
    if t < n - 1 {
      NothingToDo(threads, entered, goal, n - 1, t);
    }
  }

  /** Round goal is the next one, or the one that is full. */
  predicate Aims(s: State, k: nat, goal: nat) {
    goal == k + 1 || (goal == k && forall t | 0 <= t < |s.entered| :: s.entered[t] == k)
  }

  /** Unless all threads are done with round goal, one of them has a step that brings it closer. */
  lemma Mover(s: State, k: nat, goal: nat) returns (t: nat)
    requires Rounds(s, k) && Aims(s, k, goal)
    requires goal == k ==> exists u | 0 <= u < |s.threads| :: !s.threads[u].Outside?
    ensures t < |s.threads| && s.entered[t] == k && (s.threads[t].Outside? ==> k < goal)
    ensures Moved(s, t).threads[t].Outside? <==> !s.threads[t].Outside?
  {
    if w: nat :| Pending(s, k, w) {
      t := w;
    } else if u :| 0 <= u < |s.threads| && s.threads[u].Spinning? && s.entered[u] == k {
      t := u;
      assert InStep(s.threads[u], s.entered[u], k);
    } else {
      if forall u | 0 <= u < |s.threads| :: s.entered[u] == k + 1 {
        AllIn(s, k);
      }
      t :| 0 <= t < |s.threads| && s.entered[t] != k + 1;
      assert forall u | 0 <= u < |s.threads| :: InStep(s.threads[u], s.entered[u], k);
    }
  }

  lemma MoverStep(s: State, k: nat, goal: nat, t: nat) returns (k': nat)
    requires Rounds(s, k) && Aims(s, k, goal) && t < |s.threads| && s.entered[t] == k
    requires s.threads[t].Outside? ==> k < goal
    requires Moved(s, t).threads[t].Outside? <==> !s.threads[t].Outside?
    ensures var s' := Moved(s, t);
            && Rounds(s', k') && Aims(s', k', goal)
            && Todos(s'.threads, s'.entered, goal, |s.threads|) == Todos(s.threads, s.entered, goal, |s.threads|) - 1
  {
    var s' := Moved(s, t);
    if s.threads[t].Outside? && |Ahead(s.entered, k)| + 1 < |s.threads| {
      EnterMore(s, s', t, k);
      k' := k;
    } else if s.threads[t].Outside? {
      EnterEffect(s, s', t, k);
      EnterLast(s, s', t, k);
      AllAhead(s'.entered, k);
      k' := k + 1;
    } else {
      k' := k;
      StaysInRound(s, s', t, k);
    }
    TodosChange(s.threads, s.entered, goal, |s.threads|, t, s'.threads[t], s'.entered[t]);
  }

  lemma {:induction false} GoOn(run: seq<State>, k: nat, goal: nat) returns (more: seq<State>)
    requires IsRun(run) && Rounds(run[|run| - 1], k) && Aims(run[|run| - 1], k, goal)
    ensures IsRun(more) && run <= more && |more[|more| - 1].threads| == |run[|run| - 1].threads|
    ensures AllDone(more[|more| - 1], goal)
    decreases var s := run[|run| - 1]; Todos(s.threads, s.entered, goal, |s.threads|)
  {
    var s := run[|run| - 1];
    if Todos(s.threads, s.entered, goal, |s.threads|) == 0 {
      more := run;
      forall t | 0 <= t < |s.threads| ensures s.threads[t].Outside? && s.entered[t] == goal {
        NothingToDo(s.threads, s.entered, goal, |s.threads|, t);
        assert InStep(s.threads[t], s.entered[t], k);
      }
    } else {
      SomethingToDo(s, k, goal, |s.threads|);
      var t := Mover(s, k, goal);
      var k' := MoverStep(s, k, goal, t);
      assert Next(s, Moved(s, t));
      more := GoOn(run + [Moved(s, t)], k', goal);
    }
  }

  /** All threads are outside and have passed round goal. */
  ghost predicate AllDone(s: State, goal: nat) {
    && |s.entered| == |s.threads|
    && forall t | 0 <= t < |s.threads| :: s.threads[t].Outside? && s.entered[t] == goal
  }

  lemma {:induction false} SomethingToDo(s: State, k: nat, goal: nat, n: nat)
    requires n <= |s.threads| == |s.entered| && Aims(s, k, goal) && Todos(s.threads, s.entered, goal, n) > 0
    ensures goal == k ==> exists u | 0 <= u < |s.threads| :: !s.threads[u].Outside?
  {
    if Todo(s.threads[n - 1], s.entered[n - 1], goal) == 0 {
      SomethingToDo(s, k, goal, n - 1);
    }
  }

  /**
   Everybody gets through: from every state of every run, some continuation takes all threads outside. In it they all
   pass the furthest round that any of them had entered, and enter no further one; so when all have entered the same
   round, they leave without another call.
   */
  lemma EveryoneLeaves(run: seq<State>, i: nat) returns (more: seq<State>, goal: nat)
    requires IsRun(run) && i < |run|
    ensures IsRun(more) && run[..i + 1] <= more && |more[|more| - 1].threads| == |run[i].threads|
    ensures AllDone(more[|more| - 1], goal)
    ensures (forall u | 0 <= u < |run[i].entered| :: run[i].entered[u] <= goal) && goal in run[i].entered
  {
    var k := InvRun(run, i);
    var s := run[i];
    assert forall t | 0 <= t < |s.threads| :: InStep(s.threads[t], s.entered[t], k);
    goal := if k + 1 in s.entered then k + 1 else k;
    if goal == k {
      assert s.entered[0] == k;
    }
    more := GoOn(run[..i + 1], k, goal);
  }
}
