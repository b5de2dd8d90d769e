/**
 The ticket lock as a step relation over any number of threads, each access to one of the two counters one step.
 The counters are kept unbounded; memory holds their 32-bit images, and only those are compared.
 */
module TicketLock {
  import opened Cardinality
  import opened Words

  datatype Pc =
    | Idle
    | Waiting(ticket: nat)
    | TryNext(next: nat)
    | TryBoth(next: nat, cur: nat)
    | Critical(ticket: nat)
    | Releasing(ticket: nat, cur: nat)

  /** taken lists the threads in ticket order, granted in the order in which they entered the critical section. */
  datatype Lock = Lock(next: nat, cur: nat, taken: seq<nat>, granted: seq<nat>)

  datatype State = State(lock: Lock, threads: seq<Pc>)

  datatype Action = CallLock | CallTryLock | Proceed

  predicate Inside(pc: Pc) {
    pc.Critical? || pc.Releasing?
  }

  predicate HasTicket(pc: Pc) {
    pc.Waiting? || Inside(pc)
  }

  predicate Enabled(s: State, t: nat, a: Action) {
    t < |s.threads| && (s.threads[t].Idle? <==> !a.Proceed?)
  }

  /** One access by thread t: fetch-and-increment, the spin test, the two loads and the swap of trylock, unlock. */
  function Apply(l: Lock, t: nat, pc: Pc, a: Action): (Lock, Pc) {
    match a
    case CallLock => (l.(next := l.next + 1, taken := l.taken + [t]), Waiting(l.next))
    case CallTryLock => (l, TryNext(l.next))
    case Proceed =>
      match pc
      case Idle => (l, pc)
      case Waiting(ticket) =>
        if W32(ticket) != W32(l.cur) then (l, pc) else (l.(granted := l.granted + [t]), Critical(ticket))
      case TryNext(next) => (l, TryBoth(next, l.cur))
      case TryBoth(next, cur) =>
        if W32(next) == W32(cur) && W32(l.next) == W32(next) then
          (l.(next := l.next + 1, taken := l.taken + [t], granted := l.granted + [t]), Critical(l.next))
        else (l, Idle)
      case Critical(ticket) => (l, Releasing(ticket, l.cur))
      case Releasing(_, cur) => (l.(cur := cur + 1), Idle)
  }

  ghost predicate NextBy(s: State, s': State, t: nat, a: Action) {
    && Enabled(s, t, a)
    && var (l, pc) := Apply(s.lock, t, s.threads[t], a);
       s' == State(l, s.threads[t := pc])
  }

  /** No trylock is overtaken by a full turn of the ticket counter between its reads and its swap. */
  ghost predicate NoStall(s: State) {
    forall t | 0 <= t < |s.threads| :: s.threads[t].TryNext? || s.threads[t].TryBoth? ==>
      s.lock.next - s.threads[t].next < TWO32
  }

  ghost predicate Next(s: State, s': State) {
    NoStall(s') && exists t: nat, a :: NextBy(s, s', t, a)
  }

  ghost predicate Init(s: State) {
    s.lock == Lock(0, 0, [], []) && forall t | 0 <= t < |s.threads| :: s.threads[t].Idle?
  }

  ghost predicate IsRun(run: seq<State>) {
    && |run| > 0 && Init(run[0]) && |run[0].threads| < TWO32
    && forall i | 0 <= i < |run| - 1 :: Next(run[i], run[i + 1])
  }

  // ---- The invariant

  /** What thread t, at pc, may rely on; n is the number of threads. */
  ghost predicate Own(l: Lock, n: nat, t: nat, pc: Pc) {
    && (HasTicket(pc) ==> l.cur <= pc.ticket < l.next == |l.taken| && l.taken[pc.ticket] == t)
    && (Inside(pc) ==> pc.ticket == l.cur && |l.granted| == l.cur + 1)
    && (pc.Releasing? ==> pc.cur == l.cur)
    && (pc.TryNext? ==> pc.next <= l.next)
    && (pc.TryBoth? ==> pc.next <= l.next && pc.cur <= l.cur && pc.next <= pc.cur + n)
  }

  /** The counters are ordered, and the grants are the first tickets in order. */
  ghost predicate Counters(s: State) {
    var l := s.lock;
    && l.cur <= l.next == |l.taken|
    && l.cur <= |l.granted| <= l.cur + 1 && l.granted <= l.taken
    && (|l.granted| == l.cur + 1 ==>
          l.cur < l.next && l.taken[l.cur] < |s.threads| && Inside(s.threads[l.taken[l.cur]]))
  }

  /** Thread t holds ticket k. */
  predicate Holder(threads: seq<Pc>, t: nat, k: nat) {
    t < |threads| && HasTicket(threads[t]) && threads[t].ticket == k
  }

  ghost predicate AllOwn(s: State) {
    forall t | 0 <= t < |s.threads| :: Own(s.lock, |s.threads|, t, s.threads[t])
  }

  /** Every outstanding ticket belongs to a thread. */
  ghost predicate Held(s: State) {
    forall k | 0 <= k < |s.lock.taken| && s.lock.cur <= k :: Holder(s.threads, s.lock.taken[k], k)
  }

  ghost predicate Inv(s: State) {
    Counters(s) && AllOwn(s) && Held(s)
  }

  /** There are never more outstanding tickets than threads. */
  lemma OutstandingBounded(s: State)
    requires Inv(s)
    ensures s.lock.next - s.lock.cur <= |s.threads|
  {
    var open := s.lock.taken[s.lock.cur..];
    forall i | 0 <= i < |open| ensures Holder(s.threads, open[i], s.lock.cur + i) {
      assert open[i] == s.lock.taken[s.lock.cur + i];
    }
    Pigeonhole(open, |s.threads|);
  }

  /** A trylock whose swap succeeds found the lock free: its ticket is the one being served. */
  lemma TryLockExact(s: State, t: nat)
    requires Inv(s) && NoStall(s) && |s.threads| < TWO32 && t < |s.threads| && s.threads[t].TryBoth?
    requires W32(s.threads[t].next) == W32(s.threads[t].cur) && W32(s.lock.next) == W32(s.threads[t].next)
    ensures s.lock.next == s.lock.cur == |s.lock.granted|
  {
    var p := s.threads[t];
    assert Own(s.lock, |s.threads|, t, p);
    WrapEqual(p.next, s.lock.next);
    WrapEqual(p.cur, p.next);
  }

  /** The 32-bit tests decide as the unbounded ones would, so a step changes the lock in one of four ways. */
  lemma Effect(s: State, s': State, t: nat, a: Action)
    requires Inv(s) && NoStall(s) && |s.threads| < TWO32 && NextBy(s, s', t, a)
    ensures var l, l' := s.lock, s'.lock;
            var p, p' := s.threads[t], s'.threads[t];
            || (l' == l && p' == p)
            || (l' == l && !HasTicket(p) && !HasTicket(p') && Own(l, |s.threads|, t, p'))
            || (l' == l && p.Critical? && p' == Releasing(p.ticket, l.cur))
            || (l' == l.(next := l.next + 1, taken := l.taken + [t]) && !HasTicket(p) && p' == Waiting(l.next))
            || (p == Waiting(l.cur) && p' == Critical(l.cur) && l' == l.(granted := l.granted + [t]))
            || (!HasTicket(p) && l.cur == l.next && p' == Critical(l.next)
                && l' == l.(next := l.next + 1, taken := l.taken + [t], granted := l.granted + [t]))
            || (p == Releasing(l.cur, l.cur) && p' == Idle && l' == l.(cur := l.cur + 1))
  {
    var p := s.threads[t];
    assert Own(s.lock, |s.threads|, t, p);
    OutstandingBounded(s);
    if a.Proceed? && p.Waiting? {
      WrapEqual(s.lock.cur, p.ticket);
    } else if a.Proceed? && p.TryBoth? && W32(p.next) == W32(p.cur) && W32(s.lock.next) == W32(p.next) {
      TryLockExact(s, t);
    }
  }

  lemma InvNext(s: State, s': State)
    requires Inv(s) && NoStall(s) && |s.threads| < TWO32 && Next(s, s')
    ensures Inv(s') && |s'.threads| == |s.threads|
  {
    var t: nat, a :| NextBy(s, s', t, a);
    Effect(s, s', t, a);
    assert Own(s.lock, |s.threads|, t, s.threads[t]);
    NotYetGranted(s, t);
    KeepOwn(s, s', t);
    KeepHeld(s, s', t);
  }

  /** While a ticket is up and its thread still waits, nobody is inside. */
  lemma NotYetGranted(s: State, t: nat)
    requires Inv(s) && t < |s.threads|
    ensures s.threads[t] == Waiting(s.lock.cur) ==> |s.lock.granted| == s.lock.cur
    ensures s.lock.cur == s.lock.next ==> |s.lock.granted| == s.lock.cur
  {
    assert Own(s.lock, |s.threads|, t, s.threads[t]);
  }

  lemma KeepOwn(s: State, s': State, t: nat)
    requires Inv(s) && |s.threads| < TWO32 && NoStall(s) && exists a :: NextBy(s, s', t, a)
    ensures AllOwn(s')
  {
    var a :| NextBy(s, s', t, a);
    Effect(s, s', t, a);
    NotYetGranted(s, t);
    var n := |s.threads|;
    forall u | 0 <= u < n ensures Own(s'.lock, n, u, s'.threads[u]) {
      assert Own(s.lock, n, u, s.threads[u]);
      assert Own(s.lock, n, t, s.threads[t]);
    }
  }

  lemma KeepHeld(s: State, s': State, t: nat)
    requires Inv(s) && |s.threads| < TWO32 && NoStall(s) && exists a :: NextBy(s, s', t, a)
    ensures Held(s')
  {
    var a :| NextBy(s, s', t, a);
    Effect(s, s', t, a);
    assert Own(s.lock, |s.threads|, t, s.threads[t]);
    forall k | 0 <= k < |s'.lock.taken| && s'.lock.cur <= k ensures Holder(s'.threads, s'.lock.taken[k], k) {
      if k < |s.lock.taken| {
        assert Holder(s.threads, s.lock.taken[k], k);
      }
    }
  }

  lemma {:induction false} InvRun(run: seq<State>, i: nat)
    requires IsRun(run) && i < |run|
    ensures Inv(run[i]) && NoStall(run[i]) && |run[i].threads| == |run[0].threads|
  {
    if i > 0 {
      InvRun(run, i - 1);
      assert Next(run[i - 1], run[i]);
      InvNext(run[i - 1], run[i]);
    }
  }

  // ---- What holds in every reachable state

  lemma MutualExclusion(run: seq<State>, i: nat, t: nat, u: nat)
    requires IsRun(run) && i < |run| && t < |run[i].threads| && u < |run[i].threads|
    requires Inside(run[i].threads[t]) && Inside(run[i].threads[u])
    ensures t == u
  {
    InvRun(run, i);
    assert Own(run[i].lock, |run[i].threads|, t, run[i].threads[t]);
    assert Own(run[i].lock, |run[i].threads|, u, run[i].threads[u]);
  }

  /**
   Tickets are served in the order in which they were drawn; the tickets from cur to next - 1 are outstanding,
   each with its own thread, and a waiting thread passes its 32-bit test exactly when its ticket is up.
   */
  lemma ServedInOrder(run: seq<State>, i: nat)
    requires IsRun(run) && i < |run|
    ensures var l := run[i].lock;
            && l.granted <= l.taken && l.cur <= |l.granted| <= l.cur + 1 && |l.taken| == l.next
            && l.next - l.cur <= |run[i].threads|
            && (forall j, k | l.cur <= j < k < |l.taken| :: l.taken[j] != l.taken[k])
            && (forall t | 0 <= t < |run[i].threads| && run[i].threads[t].Waiting? ::
                  (W32(run[i].threads[t].ticket) == W32(l.cur) <==> run[i].threads[t].ticket == l.cur))
  {
    InvRun(run, i);
    var s := run[i];
    OutstandingBounded(s);
    forall t | 0 <= t < |s.threads| && s.threads[t].Waiting?
      ensures W32(s.threads[t].ticket) == W32(s.lock.cur) <==> s.threads[t].ticket == s.lock.cur
    {
      assert Own(s.lock, |s.threads|, t, s.threads[t]);
      WrapEqual(s.lock.cur, s.threads[t].ticket);
    }
  }

  /** The state after a step of thread t. */
  ghost function Moved(s: State, t: nat, a: Action): (s': State)
    requires Enabled(s, t, a)
    ensures NextBy(s, s', t, a)
  {
    var (l, pc) := Apply(s.lock, t, s.threads[t], a);
    State(l, s.threads[t := pc])
  }

  /** The step of a waiting thread enters if its ticket is up, and else changes nothing. */
  lemma EntersInTurn(run: seq<State>, i: nat, t: nat)
    requires IsRun(run) && i < |run| && t < |run[i].threads| && run[i].threads[t].Waiting?
    ensures var s, s' := run[i], Moved(run[i], t, Proceed);
            if s.threads[t].ticket == s.lock.cur then
              s'.threads[t] == Critical(s.lock.cur) && s'.lock == s.lock.(granted := s.lock.granted + [t])
            else s' == s
  {
    ServedInOrder(run, i);
  }

  /**
   As long as a ticket is outstanding, the thread that has the one being served is the one that drew it, and its next
   step takes it from waiting into the critical section, on to the release, and then the lock to the next ticket.
   */
  lemma HolderMoves(run: seq<State>, i: nat)
    requires IsRun(run) && i < |run| && run[i].lock.cur < run[i].lock.next
    ensures var s := run[i];
            && |s.lock.taken| == s.lock.next
            && var t, cur := s.lock.taken[s.lock.cur], s.lock.cur;
               && t < |s.threads| && HasTicket(s.threads[t]) && s.threads[t].ticket == cur
               && var s' := Moved(s, t, Proceed);
                  && NoStall(s')
                  && match s.threads[t]
                     case Waiting(_) => s'.threads[t] == Critical(cur) && s'.lock.cur == cur
                     case Critical(_) => s'.threads[t] == Releasing(cur, cur) && s'.lock == s.lock
                     case Releasing(_, _) => s'.threads[t] == Idle && s'.lock == s.lock.(cur := cur + 1)
  {
    InvRun(run, i);
    var s := run[i];
    var t := s.lock.taken[s.lock.cur];
    assert Holder(s.threads, t, s.lock.cur);
    assert Own(s.lock, |s.threads|, t, s.threads[t]);
  }

  function Stage(pc: Pc): nat {
    if pc.Releasing? then 2 else if pc.Critical? then 1 else 0
  }

  /** The steps until ticket is served, or more. */
  ghost function Ahead(s: State, ticket: nat): int {
    var l := s.lock;
    4 * (ticket - l.cur)
    - if l.cur < |l.taken| && l.taken[l.cur] < |s.threads| then Stage(s.threads[l.taken[l.cur]]) else 0
  }

  /** Everybody who waits is served: some continuation of the run takes the thread into the critical section. */
  lemma {:induction false} EveryoneServed(run: seq<State>, t: nat) returns (more: seq<State>)
    requires IsRun(run) && t < |run[|run| - 1].threads| && run[|run| - 1].threads[t].Waiting?
    ensures IsRun(more) && run <= more && t < |more[|more| - 1].threads|
    ensures more[|more| - 1].threads[t] == Critical(run[|run| - 1].threads[t].ticket)
    decreases Ahead(run[|run| - 1], run[|run| - 1].threads[t].ticket)
  {
    var i := |run| - 1;
    var s := run[i];
    InvRun(run, i);
    assert Own(s.lock, |s.threads|, t, s.threads[t]);
    HolderMoves(run, i);
    var u := s.lock.taken[s.lock.cur];
    var s' := Moved(s, u, Proceed);
    assert Next(s, s');
    more := run + [s'];
    if u != t {
      InvRun(more, i + 1);
      more := EveryoneServed(more, t);
    }
  }

  /** A trylock that runs without interference takes a lock that is free. */
  lemma TryLockTakes(run: seq<State>, i: nat, t: nat)
    requires IsRun(run) && i < |run| && t < |run[i].threads| && run[i].threads[t].Idle?
    requires run[i].lock.cur == run[i].lock.next
    ensures var s := run[i];
            var s1 := Moved(s, t, CallTryLock);
            && Enabled(s1, t, Proceed)
            && var s2 := Moved(s1, t, Proceed);
               && Enabled(s2, t, Proceed)
               && var s3 := Moved(s2, t, Proceed);
                  && s3.threads[t] == Critical(s.lock.cur) && s3.lock.next == s.lock.next + 1
                  && s3.lock.granted == s.lock.granted + [t]
  {}

  /**
   The swap of a trylock succeeds exactly if the two counters it read were equal and no ticket was drawn since;
   otherwise the call fails and changes nothing.
   */
  lemma TryLockDecides(run: seq<State>, i: nat, t: nat)
    requires IsRun(run) && i < |run| && t < |run[i].threads| && run[i].threads[t].TryBoth?
    ensures var s, s' := run[i], Moved(run[i], t, Proceed);
            var TryBoth(next, cur) := s.threads[t];
            if next == cur && s.lock.next == next then s'.threads[t] == Critical(next)
            else s'.threads[t] == Idle && s'.lock == s.lock
  {
    InvRun(run, i);
    var s, p := run[i], run[i].threads[t];
    assert Own(s.lock, |s.threads|, t, p);
    WrapEqual(p.next, s.lock.next);
    if p.next <= p.cur {
      WrapEqual(p.next, p.cur);
    } else {
      WrapEqual(p.cur, p.next);
    }
  }

  /** A successful trylock takes a free lock although it read the two counters in separate steps. */
  lemma TryLockOwns(run: seq<State>, i: nat, t: nat)
    requires IsRun(run) && i + 1 < |run| && t < |run[i].threads| == |run[i + 1].threads|
    requires run[i].threads[t].TryBoth? && run[i + 1].threads[t].Critical?
    ensures run[i].lock.cur == run[i].lock.next
    ensures forall u | 0 <= u < |run[i].threads| :: !HasTicket(run[i].threads[u])
    ensures run[i + 1].threads[t].ticket == run[i + 1].lock.cur
  {
    InvRun(run, i);
    InvRun(run, i + 1);
    assert Next(run[i], run[i + 1]);
    var u: nat, a :| NextBy(run[i], run[i + 1], u, a);
    TryLockExact(run[i], t);
    assert Own(run[i + 1].lock, |run[i + 1].threads|, t, run[i + 1].threads[t]);
    forall u | 0 <= u < |run[i].threads| ensures !HasTicket(run[i].threads[u]) {
      assert Own(run[i].lock, |run[i].threads|, u, run[i].threads[u]);
    }
  }
}
