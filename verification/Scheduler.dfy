/**
 The scheduling call of odp_schedule.c as code, run by one thread while the others stand still: every lock-protected
 part is one step of SchedulerModel, and a call that hands out nothing moves every waiting command one place forward.
 */
module Scheduling {
  import opened Options
  import opened QueueModel
  import opened Runs
  import opened SchedulerModel

  type Run = Runs.Run<Op, State>
  type Relation = Runs.Relation<Op, State>

  /** Every run from a state that keeps the invariant ends in one. */
  lemma {:induction false} RunKeepsInv(next: Relation, s: State, run: Run, s': State)
    requires IsMachine(next, Next) && Inv(s) && Steps(next, s, run, s')
    ensures Inv(s')
    decreases |run|
  {
    if run != [] {
      assert Next(s, run[0].op, run[0].after);
      InvStep(s, run[0].op, run[0].after);
      RunKeepsInv(next, run[0].after, run[1..], s');
    }
  }

  // ---- What a sweep over the priority queues does

  function Rest(tokens: seq<nat>): seq<nat> {
    if tokens == [] then [] else tokens[1..]
  }

  /** The priority queues thread t has looked at when it is at (prio, j). */
  predicate Seen(x: nat, prio: nat, j: nat, t: nat) {
    x < prio * SUBS_PER_PRIO
    || (x < (prio + 1) * SUBS_PER_PRIO && Turn(x - prio * SUBS_PER_PRIO, t) < j)
  }

  /** When thread t comes to the priority queue with this number in a row. */
  function Turn(id: int, t: nat): int {
    if id >= t % SUBS_PER_PRIO then id - t % SUBS_PER_PRIO else id + SUBS_PER_PRIO - t % SUBS_PER_PRIO
  }

  predicate SameEvents(s: State, s': State) {
    && |s'.queues| == |s.queues|
    && forall q: nat | q < |s.queues| :: s'.queues[q].q.events == s.queues[q].q.events
  }

  /** The first command of x is gone if x was seen, and its queue had nothing; the rest is as before. */
  predicate SweptAt(s: State, s': State, x: nat, prio: nat, j: nat, t: nat)
    requires Sized(s) && Sized(s') && x < NUM_SUBS
  {
    var seen := Seen(x, prio, j, t);
    && s'.subs[x] == (if seen then Rest(s.subs[x]) else s.subs[x])
    && (seen && s.subs[x] != [] ==> s.subs[x][0] < |s.queues| && s.queues[s.subs[x][0]].q.events == [])
  }

  predicate Swept(s: State, s': State, prio: nat, j: nat, t: nat)
    requires Sized(s) && Sized(s')
  {
    SameEvents(s, s') && SweptBelow(s, s', |s.subs|, prio, j, t)
  }

  predicate SweptBelow(s: State, s': State, n: nat, prio: nat, j: nat, t: nat)
    requires Sized(s) && Sized(s') && n <= NUM_SUBS
  {
    n == 0 || (SweptAt(s, s', n - 1, prio, j, t) && SweptBelow(s, s', n - 1, prio, j, t))
  }

  lemma {:induction false} SweptHere(s: State, s': State, n: nat, prio: nat, j: nat, t: nat, x: nat)
    requires Sized(s) && Sized(s') && x < n <= NUM_SUBS && SweptBelow(s, s', n, prio, j, t)
    ensures SweptAt(s, s', x, prio, j, t)
  {
    if x < n - 1 {
      SweptHere(s, s', n - 1, prio, j, t, x);
    }
  }

  lemma {:induction false} SweptThroughout(s: State, s': State, n: nat, prio: nat, j: nat, t: nat)
    requires Sized(s) && Sized(s') && n <= NUM_SUBS && forall x: nat | x < n :: SweptAt(s, s', x, prio, j, t)
    ensures SweptBelow(s, s', n, prio, j, t)
  {
    if n > 0 {
      SweptThroughout(s, s', n - 1, prio, j, t);
    }
  }

  /** The j-th look of thread t at a row is at exactly the one queue not seen before. */
  lemma SeenNext(x: nat, prio: nat, j: nat, t: nat)
    requires j < SUBS_PER_PRIO
    ensures Seen(x, prio, j + 1, t) <==> Seen(x, prio, j, t) || x == SubAt(prio, j, t)
    ensures !Seen(SubAt(prio, j, t), prio, j, t)
  {}

  lemma SeenRow(x: nat, prio: nat, t: nat)
    ensures Seen(x, prio, SUBS_PER_PRIO, t) <==> x < (prio + 1) * SUBS_PER_PRIO
    ensures Seen(x, prio, 0, t) <==> x < prio * SUBS_PER_PRIO
  {}

  /** Taking the first command of the next priority queue, or finding none, extends the sweep. */
  lemma SweepOne(s0: State, s: State, s': State, prio: nat, j: nat, t: nat)
    requires Sized(s0) && Sized(s) && Sized(s') && Swept(s0, s, prio, j, t)
    requires prio < PRIOS && j < SUBS_PER_PRIO && SameEvents(s, s')
    requires var sub := SubAt(prio, j, t);
             && s'.subs == s.subs[sub := Rest(s.subs[sub])]
             && (s.subs[sub] != [] ==> s.subs[sub][0] < |s.queues| && s.queues[s.subs[sub][0]].q.events == [])
    ensures Swept(s0, s', prio, j + 1, t)
  {
    var j' := j + 1;
    forall x: nat | x < NUM_SUBS ensures SweptAt(s0, s', x, prio, j', t) {
      SeenNext(x, prio, j, t);
      SweptHere(s0, s, |s0.subs|, prio, j, t, x);
    }
    SweptThroughout(s0, s', |s0.subs|, prio, j', t);
  }

  /** A clear mask bit means an empty priority queue. */
  lemma ClearMeansEmpty(s: State, sub: nat)
    requires Inv(s) && sub < NUM_SUBS && !s.mask[sub]
    ensures s.subs[sub] == []
  {
    if s.subs[sub] != [] {
      var q := s.subs[sub][0];
      assert SubOk(s, sub) && TokenOk(s, q);
      CountPositive(s, q);
    }
  }

  /** A row passed over because its mask is clear is as good as swept. */
  lemma SweepRow(s0: State, s: State, prio: nat, t: nat)
    requires Sized(s0) && Inv(s) && prio < PRIOS && RowEmpty(s.mask, prio) && Swept(s0, s, prio, 0, t)
    ensures Swept(s0, s, prio + 1, 0, t)
  {
    var prio' := prio + 1;
    forall x: nat | x < NUM_SUBS ensures SweptAt(s0, s, x, prio', 0, t) {
      SweptHere(s0, s, |s0.subs|, prio, 0, t, x);
      SeenRow(x, prio, t);
      SeenRow(x, prio + 1, t);
      if prio * SUBS_PER_PRIO <= x < (prio + 1) * SUBS_PER_PRIO {
        ClearMeansEmpty(s, x);
      }
    }
    SweptThroughout(s0, s, |s0.subs|, prio', 0, t);
  }

  lemma RowDone(s0: State, s: State, s': State, prio: nat, t: nat)
    requires Sized(s0) && Sized(s) && Sized(s') && Swept(s0, s, prio, SUBS_PER_PRIO, t)
    requires s'.subs == s.subs && s'.queues == s.queues
    ensures Swept(s0, s', prio + 1, 0, t)
  {
    var prio' := prio + 1;
    forall x: nat | x < NUM_SUBS ensures SweptAt(s0, s', x, prio', 0, t) {
      SweptHere(s0, s, |s0.subs|, prio, SUBS_PER_PRIO, t, x);
      SeenRow(x, prio, t);
      SeenRow(x, prio + 1, t);
    }
    SweptThroughout(s0, s', |s0.subs|, prio', 0, t);
  }

  /** A whole sweep without result: every command of a queue with events is one place further. */
  lemma SweepAdvances(s: State, s': State, t: nat, x: nat, k: nat)
    requires Sized(s) && Sized(s') && Swept(s, s', PRIOS, 0, t) && x < NUM_SUBS && k < |s.subs[x]|
    requires s.subs[x][k] < |s.queues| && s.queues[s.subs[x][k]].q.events != []
    ensures 0 < k <= |s'.subs[x]| && s'.subs[x][k - 1] == s.subs[x][k]
  {
    SweptHere(s, s', |s.subs|, PRIOS, 0, t, x);
    SeenRow(x, PRIOS, t);
  }

  /** Where the command of q will be when the next sweep starts. */
  function Position(s: State, q: nat): nat
    requires Sized(s) && q < |s.queues| && Home(s.queues, q) < NUM_SUBS
  {
    var tokens := s.subs[Home(s.queues, q)];
    if q in tokens then IndexOf(tokens, q) else |tokens|
  }

  function IndexOf(tokens: seq<nat>, q: nat): (k: nat)
    requires q in tokens
    ensures k < |tokens| && tokens[k] == q && q !in tokens[..k]
  {
    if tokens[0] == q then 0 else 1 + IndexOf(tokens[1..], q)
  }

  // ---- Which queue is served

  /** How far after thread t's own number a queue's number comes, in a row of four. */
  function Distance(q: nat, t: nat): nat {
    (q % 4 + 4 - t % 4) % 4
  }

  /** Queue f is not served after queue q: the higher priority first, then the one nearer to the thread's number. */
  predicate NotAfter(queues: seq<Entry>, f: nat, q: nat, t: nat)
    requires f < |queues| && q < |queues|
  {
    queues[f].prio < queues[q].prio || (queues[f].prio == queues[q].prio && Distance(f, t) <= Distance(q, t))
  }

  /** The first command of priority queue x is that of a queue with events. */
  predicate HasWork(s: State, x: nat) {
    x < |s.subs| && s.subs[x] != [] && s.subs[x][0] < |s.queues| && s.queues[s.subs[x][0]].q.events != []
  }

  /** Of the queues whose commands are first in line and which have events, f is the one to be served. */
  ghost predicate Foremost(s: State, t: nat, f: nat) {
    && f < |s.queues| && (exists x: nat :: HasWork(s, x) && s.subs[x][0] == f)
    && forall x: nat | HasWork(s, x) :: NotAfter(s.queues, f, s.subs[x][0], t)
  }

  /** A command found at (prio, j) after a sweep without result is that of the foremost queue. */
  lemma FoundForemost(s0: State, s: State, prio: nat, j: nat, t: nat)
    requires Inv(s0) && Sized(s) && Swept(s0, s, prio, j, t) && prio < PRIOS && j < SUBS_PER_PRIO
    requires HasWork(s, SubAt(prio, j, t))
    ensures Foremost(s0, t, s.subs[SubAt(prio, j, t)][0])
  {
    var x := SubAt(prio, j, t);
    var f := s.subs[x][0];
    SeenNext(x, prio, j, t);
    SweptHere(s0, s, |s0.subs|, prio, j, t, x);
    assert HasWork(s0, x);
    InItsPlace(s0, f, x);
    forall y: nat | HasWork(s0, y) ensures NotAfter(s0.queues, f, s0.subs[y][0], t) {
      SweptHere(s0, s, |s0.subs|, prio, j, t, y);
      InItsPlace(s0, s0.subs[y][0], y);
      Unseen(s0.queues, f, s0.subs[y][0], y, prio, j, t);
    }
  }

  /** What thread t has not seen when it is at (prio, j) comes later. */
  lemma Unseen(queues: seq<Entry>, f: nat, q: nat, y: nat, prio: nat, j: nat, t: nat)
    requires j < SUBS_PER_PRIO && !Seen(y, prio, j, t)
    requires Belongs(queues, f, SubAt(prio, j, t)) && Belongs(queues, q, y)
    ensures NotAfter(queues, f, q, t)
  {}

  // ---- The code

  class Scheduler {
    var queues: seq<Entry>
    var subs: seq<seq<nat>>
    var mask: seq<bool>
    var count: seq<nat>
    var locals: seq<Local>
    ghost var pcs: seq<Pc>
    ghost var place: seq<Place>

    /** The steps the runs below are made of. */
    ghost const machine: Relation

    ghost function Abs(): State
      reads this
    {
      State(queues, subs, mask, count, pcs, locals, place)
    }

    /** odp_schedule_init_global and _local: empty priority queues, clear masks, no queue in use. */
    constructor (numQueues: nat, numThreads: nat)
      ensures IsMachine(machine, Next) && SchedulerModel.Init(Abs()) && |queues| == numQueues && |locals| == numThreads
    {
      queues := seq(numQueues, _ => Entry(Queue(FREE, []), false, 0, false, 0, [], [], [], []));
      subs := seq(NUM_SUBS, _ => []);
      mask := seq(NUM_SUBS, _ => false);
      count := seq(NUM_SUBS, _ => 0);
      locals := seq(numThreads, _ => Local([], 0, 0, None, false, [], []));
      pcs := seq(numThreads, _ => Idle);
      place := seq(numQueues, _ => Nowhere);
      machine := Next;
    }

    /** pri_set, for queue q of the given priority. */
    method PriSet(q: nat) returns (sub: nat)
      requires Sized(Abs()) && q < |queues| && queues[q].prio < PRIOS
      modifies `mask, `count
      ensures sub == Home(queues, q)
      ensures mask == old(mask)[sub := true] && count == old(count)[sub := old(count)[sub] + 1]
    {
      var id := q % SUBS_PER_PRIO;
      sub := queues[q].prio * SUBS_PER_PRIO + id;
      mask := mask[sub := true];
      count := count[sub := count[sub] + 1];
    }

    /** pri_clr: the mask bit goes with the last queue. */
    method PriClr(q: nat)
      requires Sized(Abs()) && q < |queues| && CanUnregister(Abs(), q)
      modifies `mask, `count
      ensures var sub := Home(queues, q);
              && count == old(count)[sub := old(count)[sub] - 1]
              && mask == if count[sub] == 0 then old(mask)[sub := false] else old(mask)
    {
      var id := q % SUBS_PER_PRIO;
      var sub := queues[q].prio * SUBS_PER_PRIO + id;
      count := count[sub := count[sub] - 1];
      if count[sub] == 0 {
        mask := mask[sub := false];
      }
    }

    /** schedule_queue_init. */
    method QueueInit(t: nat, q: nat)
      requires IsMachine(machine, Next)
      requires Inv(Abs()) && t < |locals| && pcs[t] == Creating(q)
      modifies this
      ensures Inv(Abs()) && Does(machine, old(Abs()), OpRegister(t), Abs())
      ensures q < |old(queues)| && queues == old(queues)[q := old(queues)[q].(registered := true)]
      ensures pcs == old(pcs)[t := Idle] && locals == old(locals)
    {
      ghost var s := Abs();
      InvRegister(s, t);
      assert DataOk(s, q);
      var _ := PriSet(q);
      queues := queues[q := queues[q].(registered := true)];
      place := place[q := Nowhere];
      pcs := pcs[t := Idle];
      NextDoes(machine, Next, s, OpRegister(t), Abs());
    }

    /** odp_queue_create for a scheduled queue: the first free entry of the table, or none. */
    method Create(t: nat, atomic: bool, prio: nat) returns (handle: Option<nat>)
      requires IsMachine(machine, Next)
      requires Inv(Abs()) && t < |locals| && pcs[t] == Idle && prio < PRIOS
      modifies this
      ensures Inv(Abs()) && |queues| == |old(queues)| && |pcs| == |locals| == |old(locals)| && pcs[t] == Idle
      ensures handle == None ==>
                Abs() == old(Abs()) && forall x: nat | x < |queues| :: queues[x].q.status != FREE
      ensures handle != None ==>
                && handle.value < |queues| && old(queues)[handle.value].q.status == FREE
                && (forall x: nat | x < handle.value :: old(queues)[x].q.status != FREE)
                && var e := queues[handle.value];
                   e.q == Queue(NOTSCHED, []) && e.registered && e.atomic == atomic && e.prio == prio
                   && mask[Home(queues, handle.value)]
    {
      var q := 0;
      while q < |queues| && queues[q].q.status != FREE
        invariant 0 <= q <= |queues| && forall x: nat | x < q :: queues[x].q.status != FREE
      {
        q := q + 1;
      }
      if q == |queues| {
        return None;
      }
      InvCreate(Abs(), t, q, atomic, prio);
      queues := queues[q := Renewed(queues[q], atomic, prio)];
      place := place[q := Making(t)];
      pcs := pcs[t := Creating(q)];
      QueueInit(t, q);
      CountPositive(Abs(), q);
      handle := Some(q);
    }

    /** queue_enq_multi with schedule_queue: a queue that was out of scheduling gets its command in line, at the end. */
    method Enqueue(t: nat, q: nat, evs: seq<Event>) returns (ok: bool)
      requires Inv(Abs()) && t < |locals| && pcs[t] == Idle && q < |queues| && evs != []
      requires queues[q].q.status >= READY ==> queues[q].registered
      modifies this
      ensures Inv(Abs()) && |queues| == |old(queues)| && |pcs| == |locals| == |old(locals)| && pcs[t] == Idle
      ensures ok == (old(queues)[q].q.status >= READY) && (!ok ==> Abs() == old(Abs()))
      ensures ok ==> queues[q].q == Queue(SCHED, old(queues)[q].q.events + evs) && place[q] != Nowhere
      ensures ok && old(queues)[q].q.status == NOTSCHED ==>
                var sub := Home(queues, q); sub < NUM_SUBS && subs == old(subs)[sub := old(subs)[sub] + [q]]
    {
      ghost var s := Abs();
      assert DataOk(s, q) && TokenOk(s, q);
      InvEnq(s, t, q, evs);
      var e := queues[q];
      var (q', accepted, sched) := Enq(e.q, evs);
      ok := accepted;
      if ok {
        queues := queues[q := e.(q := q', enqueued := e.enqueued + evs)];
        if sched {
          pcs := pcs[t := PushToken(q)];
          place := place[q := Hand(t)];
          assert Abs() == StepEnq(s, t, q, evs);
          PushToHome(t, q);
        }
      }
    }

    /** schedule_queue. */
    method PushToHome(t: nat, q: nat)
      requires Inv(Abs()) && t < |locals| && pcs[t] == PushToken(q)
      modifies `subs, `pcs, `place
      ensures Inv(Abs()) && pcs == old(pcs)[t := Idle] && q < |queues| == |old(place)|
      ensures var sub := Home(queues, q);
              && sub < NUM_SUBS && place == old(place)[q := InSub(sub)]
              && subs == old(subs)[sub := old(subs)[sub] + [q]]
    {
      ghost var s := Abs();
      assert ThreadOk(s, t) && DataOk(s, q);
      var sub := queues[q].prio * SUBS_PER_PRIO + q % SUBS_PER_PRIO;
      InvPushSub(s, t, q, sub);
      subs := subs[sub := subs[sub] + [q]];
      place := place[q := InSub(sub)];
      pcs := pcs[t := Idle];
    }

    /** Status FREE, and schedule_queue_destroy. */
    method FreeEntry(q: nat)
      requires Sized(Abs()) && q < |queues| && CanUnregister(Abs(), q)
      modifies `queues, `mask, `count, `place
      ensures Abs() == Unregister(old(Abs()), q)
    {
      ghost var before := queues;
      queues := queues[q := queues[q].(q := queues[q].q.(status := FREE))];
      PriClr(q);
      queues := queues[q := queues[q].(registered := false)];
      place := place[q := Nowhere];
      assert queues == before[q := queues[q]];
    }

    /** odp_queue_destroy: only an empty queue in use; one in scheduling is marked for the scheduler to finalize. */
    method Destroy(t: nat, q: nat) returns (ret: int)
      requires Inv(Abs()) && t < |locals| && pcs[t] == Idle && q < |queues|
      requires queues[q].q.status >= READY ==> queues[q].registered
      modifies this
      ensures Inv(Abs()) && |queues| == |old(queues)| && (ret == 0 || ret == -1)
      ensures ret == 0 <==> old(queues)[q].q.status >= READY && old(queues)[q].q.events == []
      ensures ret == -1 ==> Abs() == old(Abs())
      ensures ret == 0 ==> queues[q].q == Queue(if old(queues)[q].q.status == SCHED then DESTROYED else FREE, [])
      ensures ret == 0 ==> (queues[q].registered <==> old(queues)[q].q.status == SCHED)
    {
      ghost var s := Abs();
      assert DataOk(s, q);
      InvDestroy(s, t, q);
      var status := queues[q].q.status;
      if status == FREE || status == DESTROYED || queues[q].q.events != [] {
        return -1;
      }
      if status == NOTSCHED {
        FreeEntry(q);
      } else {
        queues := queues[q := queues[q].(q := queues[q].q.(status := DESTROYED))];
      }
      assert Abs() == StepDestroy(s, t, q);
      ret := 0;
    }

    /** copy_events. */
    method CopyEvents(t: nat, max: nat) returns (out: seq<Event>)
      requires Sized(Abs()) && t < |locals| && (locals[t].cached != [] ==> locals[t].from < |queues|)
      modifies this
      ensures Abs() == Deliver(old(Abs()), t, max)
      ensures out == old(locals[t].cached)[..Min(max, |old(locals[t].cached)|)]
    {
      var l := locals[t];
      var num;
      out, num := CopyLoop(l.cached, max);
      locals := locals[t := l.(cached := num, out := l.out + out)];
      if l.cached != [] && l.gen == queues[l.from].gen {
        queues := queues[l.from := queues[l.from].(delivered := queues[l.from].delivered + out)];
      }
    }

    /** odp_schedule_release_atomic. */
    method ReleaseAtomic(t: nat)
      requires Sized(Abs()) && t < |locals| && HeldInRange(Abs(), t)
      modifies this
      ensures Abs() == StepRelease(old(Abs()), t)
    {
      var l := locals[t];
      if l.held != None && l.cached == [] {
        var Hold(q, sub) := l.held.value;
        subs := subs[sub := subs[sub] + [q]];
        locals := locals[t := l.(held := None)];
        place := place[q := InSub(sub)];
        assert pcs == pcs[t := pcs[t]];
      }
    }

    /** odp_queue_deq of a priority queue. */
    method PopToken(t: nat, sub: nat) returns (q: Option<nat>)
      requires IsMachine(machine, Next)
      requires Inv(Abs()) && t < |locals| && pcs[t].Pop? && pcs[t].j < SUBS_PER_PRIO
      requires sub == SubAt(pcs[t].prio, pcs[t].j, t)
      modifies this
      ensures Inv(Abs()) && Does(machine, old(Abs()), OpPop(t), Abs())
      ensures sub < NUM_SUBS && q == (if old(subs)[sub] == [] then None else Some(old(subs)[sub][0]))
      ensures queues == old(queues) && locals == old(locals) && subs == old(subs)[sub := Rest(old(subs)[sub])]
      ensures var Pop(i, j, max) := old(pcs)[t];
              |pcs| == |old(pcs)| && pcs[t] == if q == None then Bit(i, j + 1, max) else Got(q.value, i, j, max)
    {
      ghost var s := Abs();
      InvPop(s, t);
      ghost var Pop(i, j, max) := pcs[t];
      if subs[sub] == [] {
        q := None;
        pcs := pcs[t := Bit(i, j + 1, max)];
      } else {
        q := Some(subs[sub][0]);
        subs := subs[sub := subs[sub][1..]];
        assert s.subs[sub][0] in s.subs[sub];
        place := place[s.subs[sub][0] := Hand(t)];
        pcs := pcs[t := Got(s.subs[sub][0], i, j, max)];
      }
      NextDoes(machine, Next, s, OpPop(t), Abs());
    }

    /** queue_deq_multi and what follows it: -1, 0, or the number taken; handed out are the first `max` of them. */
    method Dequeue(t: nat, q: nat, sub: nat, max: nat) returns (num: int, out: seq<Event>)
      requires IsMachine(machine, Next)
      requires Inv(Abs()) && t < |locals| && pcs[t].Got? && pcs[t].q == q && pcs[t].max == max
      requires pcs[t].j < SUBS_PER_PRIO && sub == SubAt(pcs[t].prio, pcs[t].j, t)
      modifies this
      ensures Inv(Abs()) && Does(machine, old(Abs()), OpDeq(t), Abs()) && q < |old(queues)|
      ensures num == var (_, ok, taken) := DeqMulti(old(queues)[q].q, MAX_DEQ); if ok then |taken| else -1
      ensures num > 0 ==> out == old(queues)[q].q.events[..Min(max, num)]
      ensures |queues| == |old(queues)| && |locals| == |old(locals)| && |pcs| == |locals|
      ensures subs == old(subs) && queues[q].atomic == old(queues)[q].atomic
      ensures num <= 0 ==> SameEvents(old(Abs()), Abs()) && locals == old(locals)
      ensures var Got(_, i, j, _) := old(pcs)[t];
              pcs[t] == if num < 0 then Finalize(q, i, j, max) else if num == 0 then Bit(i, j + 1, max)
                        else if queues[q].atomic then Idle else Requeue(q, sub)
    {
      ghost var s := Abs();
      InvDeq(s, t);
      ghost var Got(_, i, j, _) := pcs[t];
      var e, l := queues[q], locals[t];
      var (q', ok, taken) := DeqMulti(e.q, MAX_DEQ);
      out := [];
      if !ok {
        num := -1;
        pcs := pcs[t := Finalize(q, i, j, max)];
      } else if taken == [] {
        num := 0;
        queues := queues[q := e.(q := q')];
        place := place[q := Nowhere];
        pcs := pcs[t := Bit(i, j + 1, max)];
      } else {
        num := |taken|;
        out := taken[..Min(max, num)];
        queues := queues[q := e.(q := q', taken := e.taken + taken, delivered := e.delivered + out)];
        var l' := l.(cached := taken[|out|..], from := q, gen := e.gen, got := l.got + taken, out := l.out + out);
        if e.atomic {
          locals := locals[t := l'.(held := Some(Hold(q, sub)))];
          place := place[q := Held(t)];
          pcs := pcs[t := Idle];
        } else {
          locals := locals[t := l'];
          pcs := pcs[t := Requeue(q, sub)];
        }
      }
      NextDoes(machine, Next, s, OpDeq(t), Abs());
    }

    /** queue_destroy_finalize. */
    method DestroyFinalize(t: nat, q: nat)
      requires IsMachine(machine, Next)
      requires Inv(Abs()) && t < |locals| && pcs[t].Finalize? && pcs[t].q == q
      modifies this
      ensures Inv(Abs()) && Does(machine, old(Abs()), OpFinalize(t), Abs())
      ensures SameEvents(old(Abs()), Abs()) && subs == old(subs) && locals == old(locals) && |pcs| == |old(pcs)|
      ensures pcs[t] == Bit(old(pcs)[t].prio, old(pcs)[t].j + 1, old(pcs)[t].max)
    {
      ghost var s := Abs();
      InvFinalize(s, t);
      assert ThreadOk(s, t);
      if queues[q].q.status == DESTROYED {
        FreeEntry(q);
      }
      pcs := pcs[t := Bit(pcs[t].prio, pcs[t].j + 1, pcs[t].max)];
      NextDoes(machine, Next, s, OpFinalize(t), Abs());
    }

    /** The token of a queue that is not atomic goes back to the priority queue it came from. */
    method PutBack(t: nat, q: nat, sub: nat)
      requires IsMachine(machine, Next)
      requires Inv(Abs()) && t < |locals| && pcs[t] == Requeue(q, sub)
      modifies this
      ensures Inv(Abs()) && Does(machine, old(Abs()), OpRequeue(t), Abs())
      ensures queues == old(queues) && locals == old(locals) && pcs == old(pcs)[t := Idle]
      ensures sub < NUM_SUBS && subs == old(subs)[sub := old(subs)[sub] + [q]]
    {
      ghost var s := Abs();
      assert ThreadOk(s, t) && DataOk(s, q);
      InvPushSub(s, t, q, sub);
      subs := subs[sub := subs[sub] + [q]];
      place := place[q := InSub(sub)];
      pcs := pcs[t := Idle];
      NextDoes(machine, Next, s, OpRequeue(t), Abs());
    }
  
    /** Serving the command in hand: dequeue from its queue, and finalize, drop, hold or return the command. */
    method Serve(t: nat, q: nat, sub: nat, max: nat) returns (found: bool, out: seq<Event>, ghost run: Run)
      requires IsMachine(machine, Next)
      requires Inv(Abs()) && t < |locals| && pcs[t].Got? && pcs[t].q == q && pcs[t].max == max
      requires pcs[t].j < SUBS_PER_PRIO && sub == SubAt(pcs[t].prio, pcs[t].j, t)
      modifies this
      ensures Inv(Abs()) && Steps(machine, old(Abs()), run, Abs())
      ensures |locals| == |old(locals)| && |queues| == |old(queues)|
      ensures q < |queues|
      ensures !found ==>
                && pcs[t] == Bit(old(pcs)[t].prio, old(pcs)[t].j + 1, max) && old(queues)[q].q.events == []
                && SameEvents(old(Abs()), Abs()) && subs == old(subs) && locals == old(locals)
      ensures found ==> pcs[t] == Idle && HandedOut(old(queues)[q].q.events, max, out)
      ensures found ==> sub < NUM_SUBS && subs == old(subs)[sub := old(subs)[sub] + GivenBack(old(Abs()), q)]
    {
      ghost var s := Abs();
      assert ThreadOk(s, t) && DataOk(s, q);
      assert subs[sub] + [] == subs[sub];
      var num;
      num, out := Dequeue(t, q, sub, max);
      ghost var s1 := Abs();
      run := [Taken(OpDeq(t), s1)];
      found := num > 0;
      if num < 0 {
        DestroyFinalize(t, q);
        StepsJoin(machine, s, run, s1, [Taken(OpFinalize(t), Abs())], Abs());
        run := run + [Taken(OpFinalize(t), Abs())];
      } else if num > 0 && !queues[q].atomic {
        PutBack(t, q, sub);
        StepsJoin(machine, s, run, s1, [Taken(OpRequeue(t), Abs())], Abs());
        run := run + [Taken(OpRequeue(t), Abs())];
      }
    }

    /** One round of the inner loop of schedule: look at one priority queue and serve its first command. */
    method Visit(t: nat, sub: nat, max: nat)
      returns (found: bool, from: nat, out: seq<Event>, ghost run: Run)
      requires IsMachine(machine, Next)
      requires Inv(Abs()) && t < |locals| && pcs[t].Bit? && pcs[t].j < SUBS_PER_PRIO && pcs[t].max == max
      requires sub == SubAt(pcs[t].prio, pcs[t].j, t)
      modifies this
      ensures Inv(Abs()) && Steps(machine, old(Abs()), run, Abs())
      ensures |locals| == |old(locals)| && |queues| == |old(queues)|
      ensures sub < NUM_SUBS
      ensures !found ==> pcs[t] == Bit(old(pcs)[t].prio, old(pcs)[t].j + 1, max) && Skipped(old(Abs()), Abs(), sub)
      ensures found ==> pcs[t] == Idle && Served(old(Abs()), Abs(), sub, from, max, out)
    {
      ghost var s := Abs();
      assert ThreadOk(s, t);
      found, from, out := false, 0, [];
      Look(t, ScanTo(mask, pcs[t], t));
      ghost var s1 := Abs();
      run := [Taken(OpScan(t), s1)];
      if mask[sub] {
        var token := PopToken(t, sub);
        ghost var s2 := Abs();
        StepsJoin(machine, s, run, s1, [Taken(OpPop(t), s2)], s2);
        run := run + [Taken(OpPop(t), s2)];
        if token != None {
          from := token.value;
          ghost var more;
          found, out, more := Serve(t, from, sub, max);
          StepsJoin(machine, s, run, s2, more, Abs());
          run := run + more;
        }
      } else {
        ClearMeansEmpty(s, sub);
      }
    }

    /** One look at a mask: only the position changes. */
    ghost method Look(t: nat, pc: Pc)
      requires IsMachine(machine, Next)
      requires Inv(Abs()) && t < |locals| && (pcs[t].Row? || (pcs[t].Bit? && pcs[t].prio < PRIOS))
      requires pc == ScanTo(mask, pcs[t], t)
      modifies `pcs
      ensures Inv(Abs()) && Does(machine, old(Abs()), OpScan(t), Abs()) && pcs == old(pcs)[t := pc]
    {
      ghost var s := Abs();
      InvScan(s, t);
      pcs := pcs[t := pc];
      NextDoes(machine, Next, s, OpScan(t), Abs());
    }

    /** Visit, as a part of the sweep that began in s0 and the run that began in s. */
    method Round(t: nat, i: nat, j: nat, id: nat, max: nat, ghost s0: State, ghost s: State, ghost sofar: Run)
      returns (found: bool, from: nat, out: seq<Event>, ghost run: Run)
      requires IsMachine(machine, Next)
      requires Inv(s) && Steps(machine, s, sofar, Abs())
      requires Inv(s0) && Sized(Abs()) && t < |locals| && Swept(s0, Abs(), i, j, t)
      requires pcs[t] == Bit(i, j, max) && i < PRIOS && j < SUBS_PER_PRIO && id == IdAt(j, t)
      modifies this
      ensures Steps(machine, s, run, Abs()) && Sized(Abs()) && |locals| == |old(locals)|
      ensures !found ==> pcs[t] == Bit(i, j + 1, max) && locals == old(locals) && Swept(s0, Abs(), i, j + 1, t)
      ensures found ==> pcs[t] == Idle && Foremost(s0, t, from) && HandedOut(s0.queues[from].q.events, max, out)
    {
      ghost var before := Abs();
      ghost var more;
      RunKeepsInv(machine, s, sofar, before);
      found, from, out, more := Visit(t, i * SUBS_PER_PRIO + id, max);
      StepsJoin(machine, s, sofar, before, more, Abs());
      run := sofar + more;
      if found {
        FoundForemost(s0, before, i, j, t);
      } else {
        SweepOne(s0, before, Abs(), i, j, t);
      }
    }

    ghost method EndRow(t: nat, i: nat, max: nat, s0: State, s: State, sofar: Run) returns (run: Run)
      requires IsMachine(machine, Next)
      requires Inv(s) && Steps(machine, s, sofar, Abs())
      requires Sized(s0) && Sized(Abs()) && t < |locals| && Swept(s0, Abs(), i, SUBS_PER_PRIO, t)
      requires pcs[t] == Bit(i, SUBS_PER_PRIO, max) && i < PRIOS
      modifies `pcs
      ensures Steps(machine, s, run, Abs()) && pcs == old(pcs)[t := Row(i + 1, max)]
      ensures Swept(s0, Abs(), i + 1, 0, t)
    {
      ghost var last := Abs();
      RunKeepsInv(machine, s, sofar, last);
      Look(t, Row(i + 1, max));
      RowDone(s0, last, Abs(), i, t);
      StepsJoin(machine, s, sofar, last, [Taken(OpScan(t), Abs())], Abs());
      run := sofar + [Taken(OpScan(t), Abs())];
    }

    /** The inner loop of schedule: one row, from the thread's own position around. */
    method ScanRow(t: nat, i: nat, max: nat, ghost s0: State, ghost s: State, ghost sofar: Run)
      returns (found: bool, from: nat, out: seq<Event>, ghost run: Run)
      requires IsMachine(machine, Next)
      requires Inv(s) && Steps(machine, s, sofar, Abs())
      requires Inv(s0) && Sized(Abs()) && t < |locals| && Swept(s0, Abs(), i, 0, t)
      requires pcs[t] == Bit(i, 0, max) && i < PRIOS
      modifies this
      ensures Steps(machine, s, run, Abs()) && Sized(Abs()) && |locals| == |old(locals)|
      ensures !found ==> pcs[t] == Row(i + 1, max) && locals == old(locals) && Swept(s0, Abs(), i + 1, 0, t)
      ensures found ==> pcs[t] == Idle && Foremost(s0, t, from) && HandedOut(s0.queues[from].q.events, max, out)
    {
      var id, j := t % SUBS_PER_PRIO, 0;
      found, from, out, run := false, 0, [], sofar;
      while j < SUBS_PER_PRIO
        invariant 0 <= j <= SUBS_PER_PRIO && id <= SUBS_PER_PRIO
        invariant j < SUBS_PER_PRIO ==> (if id == SUBS_PER_PRIO then 0 else id) == IdAt(j, t)
        invariant Steps(machine, s, run, Abs()) && Sized(Abs()) && |locals| == |old(locals)|
        invariant pcs[t] == Bit(i, j, max) && locals == old(locals) && Swept(s0, Abs(), i, j, t)
      {
        if id >= SUBS_PER_PRIO {
          id := 0;
        }
        found, from, out, run := Round(t, i, j, id, max, s0, s, run);
        if found {
          return;
        }
        j, id := j + 1, id + 1;
      }
      run := EndRow(t, i, max, s0, s, run);
    }

    /** The outer loop of schedule: the rows in order of priority, those with a clear mask passed over. */
    method ScanRows(t: nat, max: nat, ghost s: State, ghost sofar: Run)
      returns (found: bool, from: nat, out: seq<Event>, ghost run: Run)
      requires IsMachine(machine, Next)
      requires Inv(s) && Steps(machine, s, sofar, Abs()) && Sized(Abs()) && t < |locals| && pcs[t] == Row(0, max)
      modifies this
      ensures Steps(machine, s, run, Abs()) && Sized(Abs()) && |locals| == |old(locals)| && pcs[t] == Idle
      ensures !found ==> locals == old(locals) && Swept(old(Abs()), Abs(), PRIOS, 0, t)
      ensures found ==> Foremost(old(Abs()), t, from) && HandedOut(old(queues)[from].q.events, max, out)
    {
      ghost var s0 := Abs();
      RunKeepsInv(machine, s, sofar, s0);
      SweptNothing(s0, t);
      var i := 0;
      found, from, out, run := false, 0, [], sofar;
      while i < PRIOS
        invariant 0 <= i <= PRIOS
        invariant Steps(machine, s, run, Abs()) && Sized(Abs()) && |locals| == |old(locals)|
        invariant pcs[t] == Row(i, max) && locals == old(locals) && Swept(s0, Abs(), i, 0, t)
      {
        var empty := RowEmpty(mask, i);
        run := LookAtRow(t, i, max, empty, s0, s, run);
        if !empty {
          found, from, out, run := ScanRow(t, i, max, s0, s, run);
          if found {
            return;
          }
        }
        i := i + 1;
      }
      run := EndRows(t, max, s0, s, run);
    }

    ghost method EndRows(t: nat, max: nat, s0: State, s: State, sofar: Run) returns (run: Run)
      requires IsMachine(machine, Next)
      requires Inv(s) && Steps(machine, s, sofar, Abs()) && Sized(Abs()) && t < |locals| && pcs[t] == Row(PRIOS, max)
      requires Sized(s0) && Swept(s0, Abs(), PRIOS, 0, t)
      modifies `pcs
      ensures Steps(machine, s, run, Abs()) && pcs == old(pcs)[t := Idle]
      ensures Swept(s0, Abs(), PRIOS, 0, t)
    {
      ghost var last := Abs();
      RunKeepsInv(machine, s, sofar, last);
      Look(t, Idle);
      SweptSame(s0, last, Abs(), PRIOS, 0, t);
      StepsJoin(machine, s, sofar, last, [Taken(OpScan(t), Abs())], Abs());
      run := sofar + [Taken(OpScan(t), Abs())];
    }

    ghost method LookAtRow(t: nat, i: nat, max: nat, empty: bool, s0: State, s: State, sofar: Run) returns (run: Run)
      requires IsMachine(machine, Next)
      requires Inv(s) && Steps(machine, s, sofar, Abs()) && Sized(Abs()) && t < |locals| && pcs[t] == Row(i, max)
      requires Sized(s0) && i < PRIOS && empty == RowEmpty(mask, i) && Swept(s0, Abs(), i, 0, t)
      modifies `pcs
      ensures Steps(machine, s, run, Abs())
      ensures pcs == old(pcs)[t := if empty then Row(i + 1, max) else Bit(i, 0, max)]
      ensures Swept(s0, Abs(), if empty then i + 1 else i, 0, t)
    {
      ghost var last := Abs();
      RunKeepsInv(machine, s, sofar, last);
      Look(t, if empty then Row(i + 1, max) else Bit(i, 0, max));
      SweptSame(s0, last, Abs(), i, 0, t);
      if empty {
        SweepRow(s0, Abs(), i, t);
      }
      StepsJoin(machine, s, sofar, last, [Taken(OpScan(t), Abs())], Abs());
      run := sofar + [Taken(OpScan(t), Abs())];
    }

    /** schedule: what is cached goes first; otherwise the context is released and the priority queues are scanned. */
    method Schedule(t: nat, max: nat) returns (outQueue: Option<nat>, out: seq<Event>, ghost run: Run)
      requires IsMachine(machine, Next)
      requires Inv(Abs()) && t < |locals| && pcs[t] == Idle
      modifies this
      ensures Inv(Abs()) && Steps(machine, old(Abs()), run, Abs()) && |pcs| == |locals| == |old(locals)|
      ensures pcs[t] == Idle && HeldInRange(old(Abs()), t)
      ensures var l := old(locals)[t];
              if l.cached != [] then outQueue == Some(l.from) && out == l.cached[..Min(max, |l.cached|)]
              else if outQueue != None then
                && !l.paused && Foremost(StepRelease(old(Abs()), t), t, outQueue.value)
                && HandedOut(old(queues)[outQueue.value].q.events, max, out)
              else out == [] && Fruitless(old(Abs()), Abs(), t)
    {
      ghost var s := Abs();
      InvSchedule(s, t, max);
      if locals[t].cached != [] {
        outQueue := Some(locals[t].from);
        out := CopyEvents(t, max);
        NextDoes(machine, Next, s, OpSchedule(t, max), Abs());
        run := [Taken(OpSchedule(t, max), Abs())];
        return;
      }
      InvRelease(s, t);
      ReleaseAtomic(t);
      outQueue, out := None, [];
      if locals[t].paused {
        NextDoes(machine, Next, s, OpSchedule(t, max), Abs());
        run := [Taken(OpSchedule(t, max), Abs())];
        return;
      }
      pcs := pcs[t := Row(0, max)];
      ghost var s1 := Abs();
      NextDoes(machine, Next, s, OpSchedule(t, max), s1);
      var found, from;
      found, from, out, run := ScanRows(t, max, s, [Taken(OpSchedule(t, max), s1)]);
      RunKeepsInv(machine, s, run, Abs());
      if found {
        outQueue := Some(from);
        SameForemost(StepRelease(s, t), s1, t, from);
      } else {
        out := [];
        SweptFrom(StepRelease(s, t), s1, Abs(), PRIOS, 0, t);
      }
    }

    /**
     schedule_loop, without a timeout: it goes on until schedule returns events, or calls it once. Waiting ends if
     some queue q with events has its command where this thread can get it, after at most as many calls as there are
     commands before that one, and one more.
     */
    method ScheduleLoop(t: nat, max: nat, wait: bool, ghost q: nat)
      returns (outQueue: Option<nat>, out: seq<Event>, ghost calls: nat)
      requires IsMachine(machine, Next)
      requires Inv(Abs()) && t < |locals| && pcs[t] == Idle && q < |queues| && Home(queues, q) < NUM_SUBS
      requires wait ==> max >= 1 && WithinReach(Abs(), t, q)
      modifies this
      ensures Inv(Abs()) && |pcs| == |locals| == |old(locals)| && pcs[t] == Idle
      ensures wait ==> out != [] && 1 <= calls <= Position(old(Abs()), q) + 1
      ensures !wait ==> calls == 1
    {
      calls := 0;
      while true
        invariant Inv(Abs()) && |locals| == |old(locals)| && pcs[t] == Idle && (!wait ==> calls == 0)
        invariant q < |queues| && Home(queues, q) < NUM_SUBS
        invariant wait ==> WithinReach(Abs(), t, q) && Position(Abs(), q) + calls <= Position(old(Abs()), q)
        decreases if wait then Position(Abs(), q) else 0
      {
        ghost var s := Abs();
        ghost var run;
        outQueue, out, run := Schedule(t, max);
        calls := calls + 1;
        if out != [] {
          break;
        }
        if wait {
          Closer(s, Abs(), t, q);
          continue;
        }
        break;
      }
    }
  }

  /** A call that handed out nothing: the thread is paused, or every priority queue was swept. */
  predicate Fruitless(s: State, s': State, t: nat)
    requires Sized(s) && Sized(s') && t < |s.pcs| && t < |s'.pcs| && HeldInRange(s, t)
  {
    var s1 := StepRelease(s, t);
    && s'.locals[t].cached == [] && s'.locals[t].paused == s.locals[t].paused
    && if s.locals[t].paused then s' == s1 else Swept(s1, s', PRIOS, 0, t)
  }

  lemma SameForemost(s0: State, s1: State, t: nat, f: nat)
    requires s0.subs == s1.subs && s0.queues == s1.queues && Foremost(s1, t, f)
    ensures Foremost(s0, t, f)
  {
    var x: nat :| HasWork(s1, x) && s1.subs[x][0] == f;
    assert HasWork(s0, x);
    forall y: nat | HasWork(s0, y) ensures NotAfter(s0.queues, f, s0.subs[y][0], t) {
      assert HasWork(s1, y);
    }
  }

  lemma SweptFrom(s0: State, s1: State, s': State, prio: nat, j: nat, t: nat)
    requires Sized(s0) && Sized(s1) && Sized(s') && Swept(s1, s', prio, j, t)
    requires s0.subs == s1.subs && s0.queues == s1.queues
    ensures Swept(s0, s', prio, j, t)
  {
    forall x: nat | x < NUM_SUBS ensures SweptAt(s0, s', x, prio, j, t) {
      SweptHere(s1, s', |s0.subs|, prio, j, t, x);
    }
    SweptThroughout(s0, s', |s0.subs|, prio, j, t);
  }

  /** The thread has events left over, or q has events and its command waits in line or with this thread. */
  predicate WithinReach(s: State, t: nat, q: nat)
    requires Sized(s) && t < |s.pcs| && q < |s.queues|
  {
    s.locals[t].cached == [] ==>
      !s.locals[t].paused && s.queues[q].q.events != [] && (s.place[q].InSub? || s.place[q] == Held(t))
  }

  /** A call without result brings the command of a queue with events one place forward. */
  lemma Closer(s: State, s': State, t: nat, q: nat)
    requires Inv(s) && Inv(s') && t < |s.pcs| && t < |s'.pcs| && s.pcs[t] == Idle
    requires q < |s.queues| && Home(s.queues, q) < NUM_SUBS && WithinReach(s, t, q) && s.locals[t].cached == []
    requires HeldInRange(s, t) && Fruitless(s, s', t)
    ensures q < |s'.queues| && Home(s'.queues, q) < NUM_SUBS && WithinReach(s', t, q)
    ensures Position(s', q) < Position(s, q)
  {
    var x := Home(s.queues, q);
    var s1 := StepRelease(s, t);
    InvRelease(s, t);
    assert TokenOk(s, q) && ThreadOk(s, t);
    InLine(s, t, q);
    var k := Position(s, q);
    SweepAdvances(s1, s', t, x, k);
    assert SubOk(s', x) && TokenOk(s', q);
    IndexUnique(s'.subs[x], q, k - 1);
  }

  /** After the release the command of q is in line, at its position. */
  lemma InLine(s: State, t: nat, q: nat)
    requires Inv(s) && t < |s.pcs| && s.pcs[t] == Idle && q < |s.queues| && Home(s.queues, q) < NUM_SUBS
    requires s.locals[t].cached == [] && HeldInRange(s, t) && (s.place[q].InSub? || s.place[q] == Held(t))
    ensures var tokens := StepRelease(s, t).subs[Home(s.queues, q)];
            Position(s, q) < |tokens| && tokens[Position(s, q)] == q
  {
    assert TokenOk(s, q) && ThreadOk(s, t);
    var x := Home(s.queues, q);
    assert SubOk(s, x);
    if s.locals[t].held.Some? {
      assert TokenOk(s, s.locals[t].held.value.queue);
    }
  }

  lemma IndexUnique(tokens: seq<nat>, q: nat, k: nat)
    requires k < |tokens| && tokens[k] == q
    requires forall i, j | 0 <= i < j < |tokens| :: tokens[i] != tokens[j]
    ensures IndexOf(tokens, q) == k
  {
    var i := IndexOf(tokens, q);
    assert tokens[i] == tokens[k];
  }

  lemma SweptNothing(s: State, t: nat)
    requires Sized(s)
    ensures Swept(s, s, 0, 0, t)
  {
    forall x: nat | x < NUM_SUBS ensures SweptAt(s, s, x, 0, 0, t) {
      SeenRow(x, 0, t);
    }
    SweptThroughout(s, s, |s.subs|, 0, 0, t);
  }

  lemma SweptSame(s0: State, s: State, s': State, prio: nat, j: nat, t: nat)
    requires Sized(s0) && Sized(s) && Sized(s') && Swept(s0, s, prio, j, t)
    requires s'.subs == s.subs && s'.queues == s.queues
    ensures Swept(s0, s', prio, j, t)
  {
    forall x: nat | x < NUM_SUBS ensures SweptAt(s0, s', x, prio, j, t) {
      SweptHere(s0, s, |s0.subs|, prio, j, t, x);
    }
    SweptThroughout(s0, s', |s0.subs|, prio, j, t);
  }

  /** The loop of copy_events, over the cached events: one at a time, while there are any and the caller has room. */
  method CopyLoop(cached: seq<Event>, max: nat) returns (out: seq<Event>, num: seq<Event>)
    ensures var n := Min(max, |cached|); out == cached[..n] && num == cached[n..]
  {
    var room := max;
    out, num := [], cached;
    while num != [] && room > 0
      invariant |out| + room == max && |out| <= |cached|
      invariant out == cached[..|out|] && num == cached[|out|..]
      decreases |num|
    {
      out := out + [num[0]];
      num := num[1..];
      room := room - 1;
    }
  }

  /** The first events of a queue that has some: at most four are taken, and at most max of them handed out. */
  predicate HandedOut(events: seq<Event>, max: nat, out: seq<Event>) {
    events != [] && out == events[..Min(max, Min(4, |events|))]
  }

  /** The first command, if any, was that of a queue with nothing to give, and is gone. */
  predicate Skipped(s: State, s': State, sub: nat)
    requires Sized(s) && sub < NUM_SUBS
  {
    && SameEvents(s, s') && s'.subs == s.subs[sub := Rest(s.subs[sub])] && s'.locals == s.locals
    && (s.subs[sub] != [] ==> s.subs[sub][0] < |s.queues| && s.queues[s.subs[sub][0]].q.events == [])
  }

  /** The command of a queue that is not atomic goes back at once. */
  function GivenBack(s: State, q: nat): seq<nat>
    requires q < |s.queues|
  {
    if s.queues[q].atomic then [] else [q]
  }

  /**
   The first command was that of queue q, whose first events were handed out; it is now held by the thread, or last in
   the same priority queue.
   */
  predicate Served(s: State, s': State, sub: nat, q: nat, max: nat, out: seq<Event>)
    requires Sized(s) && sub < NUM_SUBS
  {
    && q < |s.queues| && s.subs[sub] != [] && s.subs[sub][0] == q && HandedOut(s.queues[q].q.events, max, out)
    && s'.subs == s.subs[sub := Rest(s.subs[sub]) + GivenBack(s, q)]
  }
}
