/**
 The scheduler and its queues as a step machine over any number of threads. A scheduled queue owns one command event,
 its token; whoever has the token may dequeue from the queue. Each body under a lock is one step, and what a thread
 does to its own data before the next lock belongs to the same step.
 */
module SchedulerModel {
  import opened Options
  import opened QueueModel

  const PRIOS: nat := 8
  const SUBS_PER_PRIO: nat := 4
  const NUM_SUBS: nat := 32
  const MAX_DEQ: nat := 4

  type Event = nat

  /**
   A queue entry. registered: the scheduler has a command event for it and counts it. gen counts how often the entry
   was created; enqueued, taken and delivered are the events since then, in order, and past those taken before.
   */
  datatype Entry = Entry(
    q: Queue<Event>, atomic: bool, prio: nat, registered: bool,
    gen: nat, enqueued: seq<Event>, taken: seq<Event>, delivered: seq<Event>, past: seq<Event>)

  /** An atomic context: the queue, and the priority queue its token came from. */
  datatype Hold = Hold(queue: nat, sub: nat)

  /** sched_local: events taken and not yet handed out, their queue, the held context; got and out are history. */
  datatype Local = Local(
    cached: seq<Event>, from: nat, gen: nat, held: Option<Hold>, paused: bool, got: seq<Event>, out: seq<Event>)

  /** Where a thread is. `max` is the caller's limit; (prio, j) is the position of the two scan loops. */
  datatype Pc =
    | Idle
    | PushToken(q: nat)
    | Creating(q: nat)
    | Row(prio: nat, max: nat)
    | Bit(prio: nat, j: nat, max: nat)
    | Pop(prio: nat, j: nat, max: nat)
    | Got(q: nat, prio: nat, j: nat, max: nat)
    | Finalize(q: nat, prio: nat, j: nat, max: nat)
    | Requeue(q: nat, sub: nat)

  /** Where a queue's token is. */
  datatype Place = Nowhere | Making(t: nat) | InSub(sub: nat) | Hand(t: nat) | Held(t: nat)

  /** subs: the priority queues, each the queues whose tokens it holds; mask and count: pri_mask and pri_count. */
  datatype State = State(
    queues: seq<Entry>, subs: seq<seq<nat>>, mask: seq<bool>, count: seq<nat>,
    pcs: seq<Pc>, locals: seq<Local>, place: seq<Place>)

  predicate Sized(s: State) {
    && |s.subs| == |s.mask| == |s.count| == NUM_SUBS
    && |s.place| == |s.queues| && |s.locals| == |s.pcs|
  }

  /** The priority queue of a queue: its priority's row, and the low bits of its number. */
  function Home(queues: seq<Entry>, q: nat): nat
    requires q < |queues|
  {
    queues[q].prio * SUBS_PER_PRIO + q % SUBS_PER_PRIO
  }

  /** The j-th priority queue thread t looks at in a row: it starts at its own number and wraps around. */
  function SubAt(prio: nat, j: nat, t: nat): nat
    requires j < SUBS_PER_PRIO
  {
    prio * SUBS_PER_PRIO + IdAt(j, t)
  }

  function IdAt(j: nat, t: nat): (id: nat)
    requires j < SUBS_PER_PRIO
    ensures id < SUBS_PER_PRIO
  {
    var id := t % SUBS_PER_PRIO + j;
    if id >= SUBS_PER_PRIO then id - SUBS_PER_PRIO else id
  }

  /** The queue whose token the thread has in hand. */
  function HandOf(pc: Pc): Option<nat> {
    match pc
    case PushToken(q) => Some(q)
    case Got(q, _, _, _) => Some(q)
    case Finalize(q, _, _, _) => Some(q)
    case Requeue(q, _) => Some(q)
    case _ => None
  }

  // ---- Steps

  datatype Op =
    | OpEnq(t: nat, q: nat, evs: seq<Event>)
    | OpPush(t: nat)
    | OpCreate(t: nat, q: nat, atomic: bool, prio: nat)
    | OpRegister(t: nat)
    | OpDestroy(t: nat, q: nat)
    | OpSchedule(t: nat, max: nat)
    | OpRelease(t: nat)
    | OpPause(t: nat, on: bool)
    | OpScan(t: nat)
    | OpPop(t: nat)
    | OpDeq(t: nat)
    | OpRequeue(t: nat)
    | OpFinalize(t: nat)

  /** queue_enq and queue_enq_multi: the one that takes the queue from NOTSCHED to SCHED gets its token in hand. */
  function StepEnq(s: State, t: nat, q: nat, evs: seq<Event>): State
    requires Sized(s) && t < |s.pcs| && q < |s.queues|
  {
    var e := s.queues[q];
    var (q', ok, sched) := Enq(e.q, evs);
    if !ok then s
    else
      var s1 := s.(queues := s.queues[q := e.(q := q', enqueued := e.enqueued + evs)]);
      if sched then s1.(pcs := s.pcs[t := PushToken(q)], place := s.place[q := Hand(t)]) else s1
  }

  /** odp_queue_enq of a token to a priority queue. */
  function PushSub(s: State, t: nat, q: nat, sub: nat, pc: Pc): State
    requires Sized(s) && t < |s.pcs| && q < |s.queues| && sub < NUM_SUBS
  {
    s.(subs := s.subs[sub := s.subs[sub] + [q]], place := s.place[q := InSub(sub)], pcs := s.pcs[t := pc])
  }

  /** The entry after queue_init, as a scheduled queue. */
  function Renewed(e: Entry, atomic: bool, prio: nat): Entry {
    Entry(Queue(NOTSCHED, []), atomic, prio, false, e.gen + 1, [], [], [], e.past + e.taken)
  }

  /** odp_queue_create up to the unlock. */
  function StepCreate(s: State, t: nat, q: nat, atomic: bool, prio: nat): State
    requires Sized(s) && t < |s.pcs| && q < |s.queues|
  {
    s.(queues := s.queues[q := Renewed(s.queues[q], atomic, prio)],
       place := s.place[q := Making(t)], pcs := s.pcs[t := Creating(q)])
  }

  /** schedule_queue_init with pri_set. */
  function StepRegister(s: State, t: nat, q: nat): State
    requires Sized(s) && t < |s.pcs| && q < |s.queues| && Home(s.queues, q) < NUM_SUBS
  {
    var sub := Home(s.queues, q);
    s.(queues := s.queues[q := s.queues[q].(registered := true)],
       mask := s.mask[sub := true], count := s.count[sub := s.count[sub] + 1],
       place := s.place[q := Nowhere], pcs := s.pcs[t := Idle])
  }

  /** Status FREE, then schedule_queue_destroy with pri_clr, all under the queue's lock. */
  function Unregister(s: State, q: nat): State
    requires Sized(s) && q < |s.queues| && Home(s.queues, q) < NUM_SUBS && s.count[Home(s.queues, q)] > 0
  {
    var sub := Home(s.queues, q);
    var e := s.queues[q];
    s.(queues := s.queues[q := e.(registered := false, q := e.q.(status := FREE))],
       count := s.count[sub := s.count[sub] - 1],
       mask := if s.count[sub] - 1 == 0 then s.mask[sub := false] else s.mask,
       place := s.place[q := Nowhere])
  }

  /** odp_queue_destroy: refused for a queue not in use or not empty; a queue in scheduling is only marked. */
  function StepDestroy(s: State, t: nat, q: nat): State
    requires Sized(s) && t < |s.pcs| && q < |s.queues|
    requires s.queues[q].q.status == NOTSCHED ==> Home(s.queues, q) < NUM_SUBS && s.count[Home(s.queues, q)] > 0
  {
    var e := s.queues[q];
    if e.q.status == FREE || e.q.status == DESTROYED || e.q.events != [] then s
    else if e.q.status == NOTSCHED then Unregister(s, q)
    else if e.q.status == SCHED then s.(queues := s.queues[q := e.(q := e.q.(status := DESTROYED))])
    else s.(queues := s.queues[q := e.(q := e.q.(status := FREE))])
  }

  /** copy_events: up to max cached events go to the caller. */
  function Deliver(s: State, t: nat, max: nat): State
    requires Sized(s) && t < |s.pcs|
    requires s.locals[t].cached != [] ==> s.locals[t].from < |s.queues|
  {
    var l := s.locals[t];
    var n := Min(max, |l.cached|);
    var s1 := s.(locals := s.locals[t := l.(cached := l.cached[n..], out := l.out + l.cached[..n])]);
    if l.cached != [] && l.gen == s.queues[l.from].gen then
      s1.(queues := s.queues[l.from := s.queues[l.from].(delivered := s.queues[l.from].delivered + l.cached[..n])])
    else s1
  }

  /** odp_schedule_release_atomic. */
  function StepRelease(s: State, t: nat): State
    requires Sized(s) && t < |s.pcs|
    requires s.locals[t].held.Some? ==>
               s.locals[t].held.value.queue < |s.queues| && s.locals[t].held.value.sub < NUM_SUBS
  {
    var l := s.locals[t];
    if l.held.Some? && l.cached == [] then
      PushSub(s, t, l.held.value.queue, l.held.value.sub, s.pcs[t]).(locals := s.locals[t := l.(held := None)])
    else s
  }

  /** schedule up to the first look at a mask. */
  function StepSchedule(s: State, t: nat, max: nat): State
    requires Sized(s) && t < |s.pcs|
    requires s.locals[t].held.Some? ==>
               s.locals[t].held.value.queue < |s.queues| && s.locals[t].held.value.sub < NUM_SUBS
    requires s.locals[t].cached != [] ==> s.locals[t].from < |s.queues|
  {
    if s.locals[t].cached != [] then Deliver(s, t, max)
    else
      var s1 := StepRelease(s, t);
      if s.locals[t].paused then s1 else s1.(pcs := s1.pcs[t := Row(0, max)])
  }

  /** pri_mask of one priority, as bits. */
  predicate RowEmpty(mask: seq<bool>, prio: nat)
    requires |mask| == NUM_SUBS && prio < PRIOS
  {
    var row := prio * SUBS_PER_PRIO;
    !mask[row] && !mask[row + 1] && !mask[row + 2] && !mask[row + 3]
  }

  /** One look at a mask in the two loops of schedule. */
  function ScanTo(mask: seq<bool>, pc: Pc, t: nat): Pc
    requires |mask| == NUM_SUBS
    requires pc.Row? || pc.Bit?
    requires pc.Bit? ==> pc.prio < PRIOS
  {
    match pc
    case Row(i, max) => if i >= PRIOS then Idle else if RowEmpty(mask, i) then Row(i + 1, max) else Bit(i, 0, max)
    case Bit(i, j, max) =>
      if j >= SUBS_PER_PRIO then Row(i + 1, max)
      else if mask[SubAt(i, j, t)] then Pop(i, j, max) else Bit(i, j + 1, max)
  }

  /** odp_queue_deq of a priority queue. */
  function StepPop(s: State, t: nat): State
    requires Sized(s) && t < |s.pcs| && s.pcs[t].Pop? && s.pcs[t].prio < PRIOS && s.pcs[t].j < SUBS_PER_PRIO
    requires forall x | x in s.subs[SubAt(s.pcs[t].prio, s.pcs[t].j, t)] :: x < |s.queues|
  {
    var Pop(i, j, max) := s.pcs[t];
    var sub := SubAt(i, j, t);
    if s.subs[sub] == [] then s.(pcs := s.pcs[t := Bit(i, j + 1, max)])
    else
      var q := s.subs[sub][0];
      assert q in s.subs[sub];
      s.(subs := s.subs[sub := s.subs[sub][1..]], place := s.place[q := Hand(t)],
         pcs := s.pcs[t := Got(q, i, j, max)])
  }

  /**
   queue_deq_multi with the token in hand, and what schedule then does: a destroyed queue is to be finalized; an
   empty one goes out of scheduling and its token with it; otherwise events are handed out, and the token is held if
   the queue is atomic or else goes back.
   */
  function StepDeq(s: State, t: nat): State
    requires Sized(s) && t < |s.pcs| && s.pcs[t].Got? && s.pcs[t].q < |s.queues| && s.pcs[t].prio < PRIOS
    requires s.pcs[t].j < SUBS_PER_PRIO
  {
    var Got(q, i, j, max) := s.pcs[t];
    var e, l := s.queues[q], s.locals[t];
    var (q', ok, taken) := DeqMulti(e.q, MAX_DEQ);
    if !ok then s.(pcs := s.pcs[t := Finalize(q, i, j, max)])
    else if taken == [] then
      s.(queues := s.queues[q := e.(q := q')], place := s.place[q := Nowhere], pcs := s.pcs[t := Bit(i, j + 1, max)])
    else
      var n := Min(max, |taken|);
      var e' := e.(q := q', taken := e.taken + taken, delivered := e.delivered + taken[..n]);
      var l' := l.(cached := taken[n..], from := q, gen := e.gen, got := l.got + taken, out := l.out + taken[..n]);
      var sub := SubAt(i, j, t);
      if e.atomic then
        s.(queues := s.queues[q := e'], locals := s.locals[t := l'.(held := Some(Hold(q, sub)))],
           place := s.place[q := Held(t)], pcs := s.pcs[t := Idle])
      else
        s.(queues := s.queues[q := e'], locals := s.locals[t := l'], pcs := s.pcs[t := Requeue(q, sub)])
  }

  /** queue_destroy_finalize. */
  function StepFinalize(s: State, t: nat): State
    requires Sized(s) && t < |s.pcs| && s.pcs[t].Finalize? && s.pcs[t].q < |s.queues|
    requires Home(s.queues, s.pcs[t].q) < NUM_SUBS && s.count[Home(s.queues, s.pcs[t].q)] > 0
  {
    var Finalize(q, i, j, max) := s.pcs[t];
    var s1 := if s.queues[q].q.status == DESTROYED then Unregister(s, q) else s;
    s1.(pcs := s1.pcs[t := Bit(i, j + 1, max)])
  }

  // ---- The invariant

  /** In scheduling: the status under which a queue has a token. */
  predicate Live(e: Entry) {
    e.q.status == SCHED || e.q.status == DESTROYED
  }

  /** The token is where `place` says, and it exists exactly while the queue is in scheduling. */
  predicate TokenOk(s: State, q: nat)
    requires Sized(s) && q < |s.queues|
  {
    var e := s.queues[q];
    match s.place[q]
    case Nowhere => !Live(e) && (e.registered <==> e.q.status == NOTSCHED)
    case Making(t) => t < |s.pcs| && s.pcs[t] == Creating(q) && e.q.status == NOTSCHED && !e.registered
    case InSub(i) => i == Home(s.queues, q) && i < NUM_SUBS && q in s.subs[i] && Live(e) && e.registered
    case Hand(t) => t < |s.pcs| && HandOf(s.pcs[t]) == Some(q) && Live(e) && e.registered
    case Held(t) =>
      t < |s.pcs| && s.locals[t].held == Some(Hold(q, Home(s.queues, q))) && Live(e) && e.registered && e.atomic
  }

  predicate InScan(pc: Pc) {
    pc.Row? || pc.Bit? || pc.Pop? || pc.Got? || pc.Finalize?
  }

  /** A thread has only tokens that are its, and cached events only of the context it holds or of a shared queue. */
  predicate ThreadOk(s: State, t: nat)
    requires Sized(s) && t < |s.pcs|
  {
    PcOk(s, t, s.pcs[t]) && CacheOk(s, t, s.locals[t])
    && (InScan(s.pcs[t]) ==> s.locals[t].cached == [] && s.locals[t].held == None)
    && (s.pcs[t].Requeue? ==> s.locals[t].held == None)
  }

  predicate PcOk(s: State, t: nat, pc: Pc)
    requires Sized(s)
  {
    match pc
    case Idle => true
    case PushToken(q) => q < |s.queues| && s.place[q] == Hand(t)
    case Creating(q) => q < |s.queues| && s.place[q] == Making(t)
    case Row(i, _) => i <= PRIOS
    case Bit(i, j, _) => i < PRIOS && j <= SUBS_PER_PRIO
    case Pop(i, j, _) => i < PRIOS && j < SUBS_PER_PRIO
    case Got(q, i, j, _) =>
      && i < PRIOS && j < SUBS_PER_PRIO && q < |s.queues| && s.place[q] == Hand(t)
      && SubAt(i, j, t) == Home(s.queues, q)
    case Finalize(q, i, j, _) =>
      i < PRIOS && j < SUBS_PER_PRIO && q < |s.queues| && s.place[q] == Hand(t) && s.queues[q].q.status == DESTROYED
    case Requeue(q, sub) => q < |s.queues| && s.place[q] == Hand(t) && sub == Home(s.queues, q)
  }

  predicate CacheOk(s: State, t: nat, l: Local)
    requires Sized(s)
  {
    && (l.held.Some? ==> l.held.value.queue < |s.queues| && s.place[l.held.value.queue] == Held(t))
    && (l.cached != [] ==>
          && l.from < |s.queues| && l.gen <= s.queues[l.from].gen
          && (l.held.Some? ==> l.held.value.queue == l.from && l.gen == s.queues[l.from].gen)
          && (l.gen == s.queues[l.from].gen && s.queues[l.from].atomic ==> l.held.Some?))
    && l.got == l.out + l.cached
  }

  /** A priority queue holds each token once, and only tokens that are there. */
  predicate SubOk(s: State, i: nat)
    requires Sized(s) && i < NUM_SUBS
  {
    && (forall k | 0 <= k < |s.subs[i]| :: s.subs[i][k] < |s.queues| && s.place[s.subs[i][k]] == InSub(i))
    && (forall k, l | 0 <= k < l < |s.subs[i]| :: s.subs[i][k] != s.subs[i][l])
  }

  /** The events of an atomic queue that its holder has taken and not handed out. */
  function CachedOf(s: State, q: nat): seq<Event>
    requires Sized(s) && q < |s.queues|
  {
    if s.place[q].Held? && s.place[q].t < |s.locals| then s.locals[s.place[q].t].cached else []
  }

  /** Only a queue in scheduling has events; none is lost, and those of an atomic queue keep their order. */
  predicate DataOk(s: State, q: nat)
    requires Sized(s) && q < |s.queues|
  {
    var e := s.queues[q];
    && e.q.status <= SCHED && e.q.status != READY && e.prio < PRIOS
    && (e.q.status != SCHED ==> e.q.events == [])
    && e.enqueued == e.taken + e.q.events
    && (e.atomic ==> e.taken == e.delivered + CachedOf(s, q))
  }

  function Registered(queues: seq<Entry>, i: nat): set<nat> {
    set q: nat | q < |queues| && queues[q].registered && Home(queues, q) == i
  }

  /** pri_count counts the registered queues of a priority queue, and the mask bit says whether there are any. */
  predicate CountOk(s: State, i: nat)
    requires Sized(s) && i < NUM_SUBS
  {
    s.mask[i] == (s.count[i] > 0) && s.count[i] == |Registered(s.queues, i)|
  }

  ghost predicate Tokens(s: State) requires Sized(s) { forall q: nat | q < |s.queues| :: TokenOk(s, q) }
  ghost predicate Threads(s: State) requires Sized(s) { forall t: nat | t < |s.pcs| :: ThreadOk(s, t) }
  ghost predicate Subs(s: State) requires Sized(s) { forall i: nat | i < NUM_SUBS :: SubOk(s, i) }
  ghost predicate Data(s: State) requires Sized(s) { forall q: nat | q < |s.queues| :: DataOk(s, q) }
  ghost predicate Counts(s: State) requires Sized(s) { forall i: nat | i < NUM_SUBS :: CountOk(s, i) }

  ghost predicate Inv(s: State) {
    Sized(s) && Tokens(s) && Threads(s) && Subs(s) && Data(s) && Counts(s)
  }

  // ---- Steps touch one thread and at most one queue

  predicate Touches(s: State, s': State, t: nat, q: nat)
    requires Sized(s) && Sized(s')
  {
    && |s'.queues| == |s.queues| && |s'.pcs| == |s.pcs| && t < |s.pcs| && q < |s.queues|
    && (forall x: nat | x < |s.queues| && x != q :: s'.queues[x] == s.queues[x] && s'.place[x] == s.place[x])
    && (forall u: nat | u < |s.pcs| && u != t :: s'.pcs[u] == s.pcs[u] && s'.locals[u] == s.locals[u])
  }

  /** Neither the token in hand nor the held one is that of another queue, or it stays. */
  predicate OwnsOnly(s: State, s': State, t: nat, q: nat)
    requires Sized(s) && Sized(s') && Touches(s, s', t, q)
  {
    && (HandOf(s.pcs[t]).Some? ==> HandOf(s.pcs[t]).value == q) && (s.pcs[t].Creating? ==> s.pcs[t].q == q)
    && (s.locals[t].held.Some? && s.locals[t].held.value.queue != q ==>
          s'.locals[t].held == s.locals[t].held && s'.locals[t].cached == s.locals[t].cached)
  }

  lemma TokensKept(s: State, s': State, t: nat, q: nat)
    requires Sized(s) && Sized(s') && Tokens(s) && Touches(s, s', t, q) && OwnsOnly(s, s', t, q)
    requires forall i: nat, x | i < NUM_SUBS && x in s.subs[i] && x != q :: x in s'.subs[i]
    requires TokenOk(s', q)
    ensures Tokens(s')
  {
    forall x: nat | x < |s'.queues| ensures TokenOk(s', x) {
      assert TokenOk(s, x);
    }
  }

  lemma DataKept(s: State, s': State, t: nat, q: nat)
    requires Sized(s) && Sized(s') && Tokens(s) && Data(s) && Touches(s, s', t, q) && OwnsOnly(s, s', t, q)
    requires DataOk(s', q)
    ensures Data(s')
  {
    forall x: nat | x < |s'.queues| ensures DataOk(s', x) {
      assert TokenOk(s, x) && DataOk(s, x);
    }
  }

  /** The token is not with a thread other than t. */
  predicate NotElsewhere(place: Place, t: nat) {
    match place
    case Making(u) => u == t
    case Hand(u) => u == t
    case Held(u) => u == t
    case _ => true
  }

  lemma ThreadsKept(s: State, s': State, t: nat, q: nat)
    requires Sized(s) && Sized(s') && Threads(s) && Touches(s, s', t, q)
    requires s'.queues[q].gen >= s.queues[q].gen
    requires s'.queues[q].gen == s.queues[q].gen ==> s'.queues[q].atomic == s.queues[q].atomic
    requires NotElsewhere(s.place[q], t)
             || (&& s'.place[q] == s.place[q] && s'.queues[q].gen == s.queues[q].gen
                 && s'.queues[q].prio == s.queues[q].prio
                 && (s.queues[q].q.status == DESTROYED ==> s'.queues[q].q.status == DESTROYED))
    requires ThreadOk(s', t)
    ensures Threads(s')
  {
    forall u: nat | u < |s'.pcs| ensures ThreadOk(s', u) {
      assert ThreadOk(s, u);
    }
  }

  lemma CountsKept(s: State, s': State, t: nat, q: nat)
    requires Sized(s) && Sized(s') && Counts(s) && Touches(s, s', t, q) && s'.mask == s.mask && s'.count == s.count
    requires s'.queues[q].registered == s.queues[q].registered
    requires s.queues[q].registered ==> s'.queues[q].prio == s.queues[q].prio
    ensures Counts(s')
  {
    forall i: nat | i < NUM_SUBS ensures CountOk(s', i) {
      assert CountOk(s, i);
      assert Registered(s'.queues, i) == Registered(s.queues, i);
    }
  }

  lemma SubsKept(s: State, s': State, t: nat, q: nat)
    requires Sized(s) && Sized(s') && Subs(s) && Touches(s, s', t, q) && s'.subs == s.subs
    requires s.place[q].InSub? ==> s'.place[q] == s.place[q]
    ensures Subs(s')
  {
    forall i: nat | i < NUM_SUBS ensures SubOk(s', i) {
      assert SubOk(s, i);
    }
  }

  lemma SubsPushed(s: State, s': State, t: nat, q: nat, sub: nat)
    requires Sized(s) && Sized(s') && Subs(s) && Touches(s, s', t, q) && sub < NUM_SUBS
    requires s'.subs == s.subs[sub := s.subs[sub] + [q]] && !s.place[q].InSub? && s'.place[q] == InSub(sub)
    ensures Subs(s')
  {
    forall i: nat | i < NUM_SUBS ensures SubOk(s', i) {
      assert SubOk(s, i);
    }
  }

  lemma SubsPopped(s: State, s': State, t: nat, q: nat, sub: nat)
    requires Sized(s) && Sized(s') && Subs(s) && Touches(s, s', t, q) && sub < NUM_SUBS
    requires s.subs[sub] != [] && s.subs[sub][0] == q
    requires s'.subs == s.subs[sub := s.subs[sub][1..]]
    ensures Subs(s')
    ensures forall i: nat, x | i < NUM_SUBS && x in s.subs[i] && x != q :: x in s'.subs[i]
  {
    assert SubOk(s, sub);
    forall i: nat | i < NUM_SUBS ensures SubOk(s', i) {
      assert SubOk(s, i);
    }
    forall i: nat, x | i < NUM_SUBS && x in s.subs[i] && x != q ensures x in s'.subs[i] {
      var k :| 0 <= k < |s.subs[i]| && s.subs[i][k] == x;
      if i == sub {
        assert s'.subs[i][k - 1] == x;
      }
    }
  }

  // ---- Every step keeps the invariant

  lemma InvEnq(s: State, t: nat, q: nat, evs: seq<Event>)
    requires Inv(s) && t < |s.pcs| && q < |s.queues| && s.pcs[t] == Idle
    requires s.queues[q].q.status >= READY ==> s.queues[q].registered
    ensures Inv(StepEnq(s, t, q, evs))
  {
    var s' := StepEnq(s, t, q, evs);
    assert TokenOk(s, q) && DataOk(s, q) && ThreadOk(s, t);
    if s.queues[q].q.status >= READY {
      EnqOk(s, t, q, evs);
      TokensKept(s, s', t, q);
      DataKept(s, s', t, q);
      ThreadsKept(s, s', t, q);
      CountsKept(s, s', t, q);
      SubsKept(s, s', t, q);
    }
  }

  lemma EnqOk(s: State, t: nat, q: nat, evs: seq<Event>)
    requires Inv(s) && t < |s.pcs| && q < |s.queues| && s.pcs[t] == Idle
    requires s.queues[q].q.status >= READY && s.queues[q].registered
    ensures var s' := StepEnq(s, t, q, evs);
            Touches(s, s', t, q) && TokenOk(s', q) && DataOk(s', q) && ThreadOk(s', t)
  {
    assert TokenOk(s, q) && DataOk(s, q) && ThreadOk(s, t);
  }

  lemma InvPushSub(s: State, t: nat, q: nat, sub: nat)
    requires Inv(s) && t < |s.pcs| && q < |s.queues| && s.place[q] == Hand(t) && sub == Home(s.queues, q) < NUM_SUBS
    ensures Inv(PushSub(s, t, q, sub, Idle))
  {
    var s' := PushSub(s, t, q, sub, Idle);
    assert TokenOk(s, q) && DataOk(s, q) && ThreadOk(s, t);
    assert q == s'.subs[sub][|s.subs[sub]|];
    TokensKept(s, s', t, q);
    DataKept(s, s', t, q);
    ThreadsKept(s, s', t, q);
    CountsKept(s, s', t, q);
    SubsPushed(s, s', t, q, sub);
  }

  lemma InvCreate(s: State, t: nat, q: nat, atomic: bool, prio: nat)
    requires Inv(s) && t < |s.pcs| && q < |s.queues| && s.pcs[t] == Idle && s.queues[q].q.status == FREE && prio < PRIOS
    ensures Inv(StepCreate(s, t, q, atomic, prio))
  {
    var s' := StepCreate(s, t, q, atomic, prio);
    assert TokenOk(s, q) && DataOk(s, q) && ThreadOk(s, t);
    TokensKept(s, s', t, q);
    DataKept(s, s', t, q);
    ThreadsKept(s, s', t, q);
    CountsKept(s, s', t, q);
    SubsKept(s, s', t, q);
  }

  /** A queue in use keeps pri_count above zero, so pri_clr never underflows. */
  lemma CountPositive(s: State, q: nat)
    requires Sized(s) && Counts(s) && Data(s) && q < |s.queues| && s.queues[q].registered
    ensures Home(s.queues, q) < NUM_SUBS && s.count[Home(s.queues, q)] > 0 && s.mask[Home(s.queues, q)]
  {
    assert DataOk(s, q);
    var i := Home(s.queues, q);
    assert CountOk(s, i);
    assert q in Registered(s.queues, i);
  }

  /** Registering or unregistering q changes only q's membership, and only at q's home. */
  lemma RegisteredChange(queues: seq<Entry>, queues': seq<Entry>, q: nat, i: nat)
    requires q < |queues| == |queues'| && queues'[q].prio == queues[q].prio
    requires forall x: nat | x < |queues| && x != q :: queues'[x] == queues[x]
    ensures Registered(queues', i) - {q} == Registered(queues, i) - {q}
    ensures q in Registered(queues', i) <==> queues'[q].registered && Home(queues, q) == i
    ensures q in Registered(queues, i) <==> queues[q].registered && Home(queues, q) == i
  {}

  lemma SizeWithout(a: set<nat>, q: nat)
    ensures |a| == |a - {q}| + if q in a then 1 else 0
  {
    if q in a {
      assert a == a - {q} + {q};
    } else {
      assert a == a - {q};
    }
  }

  lemma RegisteredSize(queues: seq<Entry>, queues': seq<Entry>, q: nat, i: nat)
    requires q < |queues| == |queues'| && queues'[q].prio == queues[q].prio
    requires forall x: nat | x < |queues| && x != q :: queues'[x] == queues[x]
    ensures |Registered(queues', i)| - (if queues'[q].registered && Home(queues, q) == i then 1 else 0)
            == |Registered(queues, i)| - (if queues[q].registered && Home(queues, q) == i then 1 else 0)
  {
    RegisteredChange(queues, queues', q, i);
    SizeWithout(Registered(queues, i), q);
    SizeWithout(Registered(queues', i), q);
  }

  lemma CountsRegistered(s: State, s': State, t: nat, q: nat)
    requires Sized(s) && Sized(s') && Counts(s) && Touches(s, s', t, q) && s'.queues[q].prio == s.queues[q].prio
    requires !s.queues[q].registered && s'.queues[q].registered
    requires var i := Home(s.queues, q);
             i < NUM_SUBS && s'.count == s.count[i := s.count[i] + 1] && s'.mask == s.mask[i := true]
    ensures Counts(s')
  {
    forall i: nat | i < NUM_SUBS ensures CountOk(s', i) {
      assert CountOk(s, i);
      RegisteredSize(s.queues, s'.queues, q, i);
    }
  }

  lemma CountsUnregistered(s: State, s': State, t: nat, q: nat)
    requires Sized(s) && Sized(s') && Counts(s) && Touches(s, s', t, q) && s'.queues[q].prio == s.queues[q].prio
    requires s.queues[q].registered && !s'.queues[q].registered
    requires var i := Home(s.queues, q);
             && i < NUM_SUBS && s.count[i] > 0 && s'.count == s.count[i := s.count[i] - 1]
             && s'.mask == if s.count[i] - 1 == 0 then s.mask[i := false] else s.mask
    ensures Counts(s')
  {
    forall i: nat | i < NUM_SUBS ensures CountOk(s', i) {
      assert CountOk(s, i);
      RegisteredSize(s.queues, s'.queues, q, i);
    }
  }

  lemma InvRegister(s: State, t: nat)
    requires Inv(s) && t < |s.pcs| && s.pcs[t].Creating?
    ensures s.pcs[t].q < |s.queues| && Home(s.queues, s.pcs[t].q) < NUM_SUBS
    ensures Inv(StepRegister(s, t, s.pcs[t].q))
  {
    assert ThreadOk(s, t);
    var q := s.pcs[t].q;
    assert TokenOk(s, q) && DataOk(s, q);
    var s' := StepRegister(s, t, q);
    TokensKept(s, s', t, q);
    DataKept(s, s', t, q);
    ThreadsKept(s, s', t, q);
    CountsRegistered(s, s', t, q);
    SubsKept(s, s', t, q);
  }

  /** Unregistering a queue whose token is nowhere or in the thread's hand, the thread then being at pc. */
  lemma InvUnregister(s: State, t: nat, q: nat, pc: Pc)
    requires Inv(s) && t < |s.pcs| && q < |s.queues| && s.queues[q].registered
    requires s.queues[q].q.status == NOTSCHED || s.queues[q].q.status == DESTROYED
    requires s.place[q] == Nowhere || s.place[q] == Hand(t)
    requires HandOf(s.pcs[t]) == None || HandOf(s.pcs[t]) == Some(q)
    requires !s.pcs[t].Creating? && HandOf(pc) == None && PcOk(s, t, pc) && !pc.Creating?
    requires InScan(pc) ==> s.locals[t].cached == [] && s.locals[t].held == None
    ensures Home(s.queues, q) < NUM_SUBS && s.count[Home(s.queues, q)] > 0
    ensures Inv(Unregister(s, q).(pcs := s.pcs[t := pc]))
  {
    CountPositive(s, q);
    assert TokenOk(s, q) && DataOk(s, q) && ThreadOk(s, t);
    var s' := Unregister(s, q).(pcs := s.pcs[t := pc]);
    TokensKept(s, s', t, q);
    DataKept(s, s', t, q);
    ThreadsKept(s, s', t, q);
    CountsUnregistered(s, s', t, q);
    SubsKept(s, s', t, q);
  }

  lemma InvDestroy(s: State, t: nat, q: nat)
    requires Inv(s) && t < |s.pcs| && q < |s.queues| && s.pcs[t] == Idle
    requires s.queues[q].q.status >= READY ==> s.queues[q].registered
    ensures s.queues[q].q.status == NOTSCHED ==> Home(s.queues, q) < NUM_SUBS && s.count[Home(s.queues, q)] > 0
    ensures Inv(StepDestroy(s, t, q))
  {
    assert TokenOk(s, q) && DataOk(s, q) && ThreadOk(s, t);
    if s.queues[q].q.status == NOTSCHED {
      InvUnregister(s, t, q, Idle);
      assert StepDestroy(s, t, q) == Unregister(s, q).(pcs := s.pcs[t := Idle]);
    } else if s.queues[q].q.status == SCHED && s.queues[q].q.events == [] {
      var s' := StepDestroy(s, t, q);
      TokensKept(s, s', t, q);
      DataKept(s, s', t, q);
      ThreadsKept(s, s', t, q);
      CountsKept(s, s', t, q);
      SubsKept(s, s', t, q);
    }
  }

  lemma InvFinalize(s: State, t: nat)
    requires Inv(s) && t < |s.pcs| && s.pcs[t].Finalize?
    ensures s.pcs[t].q < |s.queues| && Home(s.queues, s.pcs[t].q) < NUM_SUBS
    ensures s.count[Home(s.queues, s.pcs[t].q)] > 0 && Inv(StepFinalize(s, t))
  {
    assert ThreadOk(s, t);
    var Finalize(q, i, j, max) := s.pcs[t];
    assert TokenOk(s, q);
    InvUnregister(s, t, q, Bit(i, j + 1, max));
    assert StepFinalize(s, t) == Unregister(s, q).(pcs := s.pcs[t := Bit(i, j + 1, max)]);
  }

  lemma InvDeliver(s: State, t: nat, max: nat)
    requires Inv(s) && t < |s.pcs| && s.pcs[t] == Idle && s.locals[t].cached != []
    ensures s.locals[t].from < |s.queues| && Inv(Deliver(s, t, max))
  {
    assert ThreadOk(s, t);
    var l := s.locals[t];
    var q, n := l.from, Min(max, |l.cached|);
    assert TokenOk(s, q) && DataOk(s, q);
    var s' := Deliver(s, t, max);
    assert l.cached == l.cached[..n] + l.cached[n..];
    assert l.got == l.out + l.cached[..n] + l.cached[n..];
    if l.held.Some? {
      assert s.queues[q].delivered + l.cached == s.queues[q].delivered + l.cached[..n] + l.cached[n..];
    }
    TokensKept(s, s', t, q);
    DataKept(s, s', t, q);
    ThreadsKept(s, s', t, q);
    CountsKept(s, s', t, q);
    SubsKept(s, s', t, q);
  }

  lemma InvRelease(s: State, t: nat)
    requires Inv(s) && t < |s.pcs| && s.pcs[t] == Idle
    ensures s.locals[t].held.Some? ==>
              s.locals[t].held.value.queue < |s.queues| && s.locals[t].held.value.sub < NUM_SUBS
    ensures Inv(StepRelease(s, t))
    ensures s.locals[t].cached == [] ==> StepRelease(s, t).locals[t].held == None
  {
    assert ThreadOk(s, t);
    if s.locals[t].held.Some? {
      var q := s.locals[t].held.value.queue;
      assert TokenOk(s, q) && DataOk(s, q);
      if s.locals[t].cached == [] {
        var s' := StepRelease(s, t);
        var sub := Home(s.queues, q);
        assert q == s'.subs[sub][|s.subs[sub]|];
        TokensKept(s, s', t, q);
        DataKept(s, s', t, q);
        ThreadsKept(s, s', t, q);
        CountsKept(s, s', t, q);
        SubsPushed(s, s', t, q, sub);
      }
    }
  }

  /** A step of a thread with no token in hand that changes nothing but where the thread is. */
  lemma InvGoto(s: State, t: nat, pc: Pc, paused: bool)
    requires Inv(s) && t < |s.pcs| && HandOf(s.pcs[t]) == None && !s.pcs[t].Creating?
    requires HandOf(pc) == None && !pc.Creating? && PcOk(s, t, pc)
    requires InScan(pc) ==> s.locals[t].cached == [] && s.locals[t].held == None
    ensures Inv(s.(pcs := s.pcs[t := pc], locals := s.locals[t := s.locals[t].(paused := paused)]))
  {
    var s' := s.(pcs := s.pcs[t := pc], locals := s.locals[t := s.locals[t].(paused := paused)]);
    assert ThreadOk(s, t);
    forall x: nat | x < |s'.queues| ensures TokenOk(s', x) && DataOk(s', x) {
      assert TokenOk(s, x) && DataOk(s, x);
    }
    forall u: nat | u < |s'.pcs| ensures ThreadOk(s', u) {
      assert ThreadOk(s, u);
    }
    forall i: nat | i < NUM_SUBS ensures SubOk(s', i) && CountOk(s', i) {
      assert SubOk(s, i) && CountOk(s, i);
    }
  }

  lemma InvSchedule(s: State, t: nat, max: nat)
    requires Inv(s) && t < |s.pcs| && s.pcs[t] == Idle
    ensures s.locals[t].held.Some? ==>
              s.locals[t].held.value.queue < |s.queues| && s.locals[t].held.value.sub < NUM_SUBS
    ensures s.locals[t].cached != [] ==> s.locals[t].from < |s.queues|
    ensures Inv(StepSchedule(s, t, max))
  {
    assert ThreadOk(s, t);
    InvRelease(s, t);
    if s.locals[t].cached != [] {
      InvDeliver(s, t, max);
    } else if !s.locals[t].paused {
      var s1 := StepRelease(s, t);
      InvGoto(s1, t, Row(0, max), false);
      assert StepSchedule(s, t, max) ==
          s1.(pcs := s1.pcs[t := Row(0, max)], locals := s1.locals[t := s1.locals[t].(paused := false)]);
    }
  }

  lemma InvScan(s: State, t: nat)
    requires Inv(s) && t < |s.pcs| && (s.pcs[t].Row? || s.pcs[t].Bit?)
    ensures s.pcs[t].Bit? ==> s.pcs[t].prio < PRIOS
    ensures Inv(s.(pcs := s.pcs[t := ScanTo(s.mask, s.pcs[t], t)]))
  {
    assert ThreadOk(s, t);
    var pc := ScanTo(s.mask, s.pcs[t], t);
    InvGoto(s, t, pc, s.locals[t].paused);
    assert s.(pcs := s.pcs[t := pc]) ==
        s.(pcs := s.pcs[t := pc], locals := s.locals[t := s.locals[t].(paused := s.locals[t].paused)]);
  }

  lemma InvPop(s: State, t: nat)
    requires Inv(s) && t < |s.pcs| && s.pcs[t].Pop?
    ensures s.pcs[t].prio < PRIOS && s.pcs[t].j < SUBS_PER_PRIO
    ensures forall x | x in s.subs[SubAt(s.pcs[t].prio, s.pcs[t].j, t)] :: x < |s.queues|
    ensures Inv(StepPop(s, t))
  {
    assert ThreadOk(s, t);
    var Pop(i, j, max) := s.pcs[t];
    var sub := SubAt(i, j, t);
    assert SubOk(s, sub);
    if s.subs[sub] == [] {
      InvGoto(s, t, Bit(i, j + 1, max), s.locals[t].paused);
      assert StepPop(s, t) ==
          s.(pcs := s.pcs[t := Bit(i, j + 1, max)],
             locals := s.locals[t := s.locals[t].(paused := s.locals[t].paused)]);
    } else {
      var q := s.subs[sub][0];
      assert TokenOk(s, q) && DataOk(s, q);
      var s' := StepPop(s, t);
      SubsPopped(s, s', t, q, sub);
      TokensKept(s, s', t, q);
      DataKept(s, s', t, q);
      ThreadsKept(s, s', t, q);
      CountsKept(s, s', t, q);
    }
  }

  lemma InvDeq(s: State, t: nat)
    requires Inv(s) && t < |s.pcs| && s.pcs[t].Got?
    ensures s.pcs[t].q < |s.queues| && s.pcs[t].prio < PRIOS && s.pcs[t].j < SUBS_PER_PRIO && Inv(StepDeq(s, t))
  {
    assert ThreadOk(s, t);
    var Got(q, i, j, max) := s.pcs[t];
    assert TokenOk(s, q) && DataOk(s, q);
    var s' := StepDeq(s, t);
    DeqOk(s, t);
    TokensKept(s, s', t, q);
    DataKept(s, s', t, q);
    ThreadsKept(s, s', t, q);
    CountsKept(s, s', t, q);
    SubsKept(s, s', t, q);
  }

  lemma DeqOk(s: State, t: nat)
    requires Inv(s) && t < |s.pcs| && s.pcs[t].Got? && s.pcs[t].q < |s.queues| && s.pcs[t].prio < PRIOS
    requires s.pcs[t].j < SUBS_PER_PRIO
    ensures var s' := StepDeq(s, t); TokenOk(s', s.pcs[t].q) && DataOk(s', s.pcs[t].q) && ThreadOk(s', t)
  {
    var Got(q, i, j, max) := s.pcs[t];
    assert TokenOk(s, q) && DataOk(s, q) && ThreadOk(s, t);
    var (q', ok, taken) := DeqMulti(s.queues[q].q, MAX_DEQ);
    DeqKeepsOrder(s.queues[q], s.locals[t], q', taken, Min(max, |taken|));
    assert CachedOf(s, q) == [];
  }

  /** Events move from the queue to the thread, and the first n of them on to the caller, in order. */
  lemma DeqKeepsOrder(e: Entry, l: Local, q': Queue<Event>, taken: seq<Event>, n: nat)
    requires e.q.events == taken + q'.events && n <= |taken|
    requires e.enqueued == e.taken + e.q.events && l.got == l.out + l.cached && l.cached == []
    ensures e.enqueued == e.taken + taken + q'.events
    ensures l.got + taken == l.out + taken[..n] + taken[n..]
    ensures e.taken == e.delivered ==> e.taken + taken == e.delivered + taken[..n] + taken[n..]
    ensures e.taken == e.delivered + [] ==> e.taken == e.delivered
  {
    assert taken == taken[..n] + taken[n..];
  }

  // ---- Whole runs

  /**
   What a thread may do where it is. Callers use handles that odp_queue_create returned, so a queue in use is
   registered; stale handles reach only the refusing branches.
   */
  predicate Enabled(s: State, op: Op) {
    && op.t < |s.pcs| == |s.locals|
    && match op
       case OpEnq(t, q, evs) =>
         s.pcs[t] == Idle && q < |s.queues| && evs != [] && (s.queues[q].q.status >= READY ==> s.queues[q].registered)
       case OpPush(t) => s.pcs[t].PushToken?
       case OpCreate(t, q, _, prio) =>
         s.pcs[t] == Idle && q < |s.queues| && s.queues[q].q.status == FREE && prio < PRIOS
       case OpRegister(t) => s.pcs[t].Creating?
       case OpDestroy(t, q) =>
         s.pcs[t] == Idle && q < |s.queues| && (s.queues[q].q.status >= READY ==> s.queues[q].registered)
       case OpSchedule(t, _) => s.pcs[t] == Idle
       case OpRelease(t) => s.pcs[t] == Idle
       case OpPause(t, _) => s.pcs[t] == Idle
       case OpScan(t) => s.pcs[t].Row? || s.pcs[t].Bit?
       case OpPop(t) => s.pcs[t].Pop?
       case OpDeq(t) => s.pcs[t].Got?
       case OpRequeue(t) => s.pcs[t].Requeue?
       case OpFinalize(t) => s.pcs[t].Finalize?
  }

  /** What the step needs to be defined at all: indices in range, and no pri_count below zero. */
  predicate Ready(s: State, op: Op)
    requires Enabled(s, op)
  {
    && Sized(s)
    && match op
       case OpPush(t) => s.pcs[t].q < |s.queues| && Home(s.queues, s.pcs[t].q) < NUM_SUBS
       case OpRegister(t) => s.pcs[t].q < |s.queues| && Home(s.queues, s.pcs[t].q) < NUM_SUBS
       case OpDestroy(_, q) => s.queues[q].q.status == NOTSCHED ==> CanUnregister(s, q)
       case OpSchedule(t, _) => HeldInRange(s, t) && (s.locals[t].cached != [] ==> s.locals[t].from < |s.queues|)
       case OpRelease(t) => HeldInRange(s, t)
       case OpScan(t) => s.pcs[t].Bit? ==> s.pcs[t].prio < PRIOS
       case OpPop(t) =>
         s.pcs[t].prio < PRIOS && s.pcs[t].j < SUBS_PER_PRIO
         && forall x | x in s.subs[SubAt(s.pcs[t].prio, s.pcs[t].j, t)] :: x < |s.queues|
       case OpDeq(t) => s.pcs[t].q < |s.queues| && s.pcs[t].prio < PRIOS && s.pcs[t].j < SUBS_PER_PRIO
       case OpRequeue(t) => s.pcs[t].q < |s.queues| && s.pcs[t].sub < NUM_SUBS
       case OpFinalize(t) => s.pcs[t].q < |s.queues| && CanUnregister(s, s.pcs[t].q)
       case _ => true
  }

  predicate CanUnregister(s: State, q: nat)
    requires Sized(s) && q < |s.queues|
  {
    Home(s.queues, q) < NUM_SUBS && s.count[Home(s.queues, q)] > 0
  }

  predicate HeldInRange(s: State, t: nat)
    requires Sized(s) && t < |s.pcs|
  {
    s.locals[t].held.Some? ==> s.locals[t].held.value.queue < |s.queues| && s.locals[t].held.value.sub < NUM_SUBS
  }

  function Step(s: State, op: Op): State
    requires Enabled(s, op) && Ready(s, op)
  {
    match op
    case OpEnq(t, q, evs) => StepEnq(s, t, q, evs)
    case OpPush(t) => PushSub(s, t, s.pcs[t].q, Home(s.queues, s.pcs[t].q), Idle)
    case OpCreate(t, q, atomic, prio) => StepCreate(s, t, q, atomic, prio)
    case OpRegister(t) => StepRegister(s, t, s.pcs[t].q)
    case OpDestroy(t, q) => StepDestroy(s, t, q)
    case OpSchedule(t, max) => StepSchedule(s, t, max)
    case OpRelease(t) => StepRelease(s, t)
    case OpPause(t, on) => s.(locals := s.locals[t := s.locals[t].(paused := on)])
    case OpScan(t) => s.(pcs := s.pcs[t := ScanTo(s.mask, s.pcs[t], t)])
    case OpPop(t) => StepPop(s, t)
    case OpDeq(t) => StepDeq(s, t)
    case OpRequeue(t) => PushSub(s, t, s.pcs[t].q, s.pcs[t].sub, Idle)
    case OpFinalize(t) => StepFinalize(s, t)
  }

  predicate Next(s: State, op: Op, s': State) {
    Enabled(s, op) && Ready(s, op) && s' == Step(s, op)
  }

  predicate Init(s: State) {
    && Sized(s)
    && (forall i | 0 <= i < NUM_SUBS :: s.subs[i] == [] && !s.mask[i] && s.count[i] == 0)
    && (forall t | 0 <= t < |s.pcs| :: s.pcs[t] == Idle && s.locals[t] == Local([], 0, 0, None, false, [], []))
    && (forall q | 0 <= q < |s.queues| :: s.place[q] == Nowhere && s.queues[q].q == Queue(FREE, [])
          && !s.queues[q].registered && s.queues[q].prio < PRIOS
          && s.queues[q].enqueued == s.queues[q].taken == s.queues[q].delivered == s.queues[q].past == [])
  }

  predicate IsRun(ss: seq<State>, ops: seq<Op>) {
    && |ss| == |ops| + 1 && Init(ss[0])
    && forall i | 0 <= i < |ops| :: Next(ss[i], ops[i], ss[i + 1])
  }

  lemma InvInit(s: State)
    requires Init(s)
    ensures Inv(s)
  {
    forall q: nat | q < |s.queues| ensures TokenOk(s, q) && DataOk(s, q) {
      assert s.place[q] == Nowhere;
    }
    forall t: nat | t < |s.pcs| ensures ThreadOk(s, t) {
      assert s.pcs[t] == Idle;
    }
    forall i: nat | i < NUM_SUBS ensures SubOk(s, i) && CountOk(s, i) {
      assert s.subs[i] == [];
      assert Registered(s.queues, i) == {};
    }
  }

  /** Every step a thread may take is defined: in particular pri_clr never takes a count below zero. */
  lemma NeverStuck(s: State, op: Op)
    requires Inv(s) && Enabled(s, op)
    ensures Ready(s, op)
  {
    var t := op.t;
    assert ThreadOk(s, t);
    match op
    case OpPush(_) => assert DataOk(s, s.pcs[t].q);
    case OpRegister(_) => assert DataOk(s, s.pcs[t].q);
    case OpDestroy(_, q) => InvDestroy(s, t, q);
    case OpSchedule(_, max) => InvSchedule(s, t, max);
    case OpRelease(_) => InvRelease(s, t);
    case OpPop(_) => InvPop(s, t);
    case OpRequeue(_) => assert DataOk(s, s.pcs[t].q);
    case OpFinalize(_) => InvFinalize(s, t);
    case _ =>
  }

  lemma InvStep(s: State, op: Op, s': State)
    requires Inv(s) && Next(s, op, s')
    ensures Inv(s')
  {
    var t := op.t;
    match op
    case OpEnq(_, q, evs) => InvEnq(s, t, q, evs);
    case OpPush(_) => assert ThreadOk(s, t); InvPushSub(s, t, s.pcs[t].q, Home(s.queues, s.pcs[t].q));
    case OpCreate(_, q, atomic, prio) => InvCreate(s, t, q, atomic, prio);
    case OpRegister(_) => InvRegister(s, t);
    case OpDestroy(_, q) => InvDestroy(s, t, q);
    case OpSchedule(_, max) => InvSchedule(s, t, max);
    case OpRelease(_) => InvRelease(s, t);
    case OpPause(_, on) =>
      InvGoto(s, t, Idle, on);
      assert s' == s.(pcs := s.pcs[t := Idle], locals := s.locals[t := s.locals[t].(paused := on)]);
    case OpScan(_) => InvScan(s, t);
    case OpPop(_) => InvPop(s, t);
    case OpDeq(_) => InvDeq(s, t);
    case OpRequeue(_) => assert ThreadOk(s, t); InvPushSub(s, t, s.pcs[t].q, s.pcs[t].sub);
    case OpFinalize(_) => InvFinalize(s, t);
  }

  lemma {:induction false} InvRun(ss: seq<State>, ops: seq<Op>, i: nat)
    requires IsRun(ss, ops) && i < |ss|
    ensures Inv(ss[i])
  {
    if i == 0 {
      InvInit(ss[0]);
    } else {
      InvRun(ss, ops, i - 1);
      InvStep(ss[i - 1], ops[i - 1], ss[i]);
    }
  }

  // ---- What that means

  /** The positions of q's token in the priority queues, the threads that have it in hand, and those that hold it. */
  function Queued(s: State, q: nat): set<(nat, nat)> {
    set i: nat, k: nat | i < |s.subs| && k < |s.subs[i]| && s.subs[i][k] == q :: (i, k)
  }

  function InHands(s: State, q: nat): set<nat> {
    set t: nat | t < |s.pcs| && HandOf(s.pcs[t]) == Some(q)
  }

  function Holders(s: State, q: nat): set<nat> {
    set t: nat | t < |s.locals| && s.locals[t].held.Some? && s.locals[t].held.value.queue == q
  }

  lemma TokenSets(s: State, q: nat)
    requires Inv(s) && q < |s.queues|
    ensures |Queued(s, q)| == if s.place[q].InSub? then 1 else 0
    ensures InHands(s, q) == if s.place[q].Hand? then {s.place[q].t} else {}
    ensures Holders(s, q) == if s.place[q].Held? then {s.place[q].t} else {}
  {
    assert TokenOk(s, q);
    forall t: nat | t < |s.pcs|
      ensures HandOf(s.pcs[t]) == Some(q) ==> s.place[q] == Hand(t)
      ensures s.locals[t].held.Some? && s.locals[t].held.value.queue == q ==> s.place[q] == Held(t)
    {
      assert ThreadOk(s, t);
    }
    forall p | p in Queued(s, q) ensures s.place[q] == InSub(p.0) {
      assert SubOk(s, p.0);
    }
    if s.place[q].InSub? {
      var i := s.place[q].sub;
      assert SubOk(s, i);
      var k: nat :| k < |s.subs[i]| && s.subs[i][k] == q;
      assert (i, k) in Queued(s, q);
      assert Queued(s, q) == {(i, k)};
    }
  }

  /**
   The token invariant. In every state of every run a queue has exactly one command event -- in a priority queue, in
   the hands of an enqueuer or a scheduler, or held with an atomic context -- if its status is SCHED or DESTROYED,
   and none otherwise; and a queue with events has one, so no wakeup is lost.
   */
  lemma TokenInvariant(ss: seq<State>, ops: seq<Op>, i: nat, q: nat)
    requires IsRun(ss, ops) && i < |ss| && q < |ss[i].queues|
    ensures var s := ss[i];
            && |Queued(s, q)| + |InHands(s, q)| + |Holders(s, q)| == (if Live(s.queues[q]) then 1 else 0)
            && (s.queues[q].q.status == NOTSCHED ==> s.queues[q].q.events == [])
            && (s.queues[q].q.events != [] ==> s.queues[q].q.status == SCHED)
  {
    InvRun(ss, ops, i);
    TokenSets(ss[i], q);
    assert TokenOk(ss[i], q) && DataOk(ss[i], q);
  }

  /**
   Order and exclusivity. In every state of every run at most one thread holds an atomic queue's context, only that
   thread has undelivered events of it, and the events enqueued are those delivered, then the holder's, then those
   still in the queue, in order.
   */
  lemma AtomicOrder(ss: seq<State>, ops: seq<Op>, i: nat, q: nat)
    requires IsRun(ss, ops) && i < |ss| && q < |ss[i].queues| && ss[i].queues[q].atomic
    ensures var s, e := ss[i], ss[i].queues[q];
            && |Holders(s, q)| <= 1
            && (Holders(s, q) == {} ==> e.enqueued == e.delivered + e.q.events)
            && (forall t | t in Holders(s, q) :: e.enqueued == e.delivered + s.locals[t].cached + e.q.events)
            && (forall t: nat | t < |s.locals| && t !in Holders(s, q) && s.locals[t].cached != [] ::
                  s.locals[t].from != q || s.locals[t].gen < e.gen)
  {
    InvRun(ss, ops, i);
    var s := ss[i];
    TokenSets(s, q);
    assert DataOk(s, q) && TokenOk(s, q);
    forall t: nat | t < |s.locals| && t !in Holders(s, q) && s.locals[t].cached != []
      ensures s.locals[t].from != q || s.locals[t].gen < s.queues[q].gen
    {
      assert ThreadOk(s, t);
    }
  }

  // ---- What the queues gave is what the threads got

  /** All events ever taken from an entry. */
  function Drawn(e: Entry): seq<Event> {
    e.past + e.taken
  }

  /** All events of all parts. */
  function Total(parts: seq<seq<Event>>): multiset<Event> {
    if parts == [] then multiset{} else multiset(parts[0]) + Total(parts[1..])
  }

  function AllTaken(queues: seq<Entry>): (parts: seq<seq<Event>>)
    ensures |parts| == |queues| && forall i | 0 <= i < |parts| :: parts[i] == Drawn(queues[i])
  {
    if queues == [] then [] else [Drawn(queues[0])] + AllTaken(queues[1..])
  }

  function AllGot(locals: seq<Local>): (parts: seq<seq<Event>>)
    ensures |parts| == |locals| && forall i | 0 <= i < |parts| :: parts[i] == locals[i].got
  {
    if locals == [] then [] else [locals[0].got] + AllGot(locals[1..])
  }

  /** The events taken from the queues, in all their uses, are those the threads got. */
  ghost predicate Flow(s: State) {
    Total(AllTaken(s.queues)) == Total(AllGot(s.locals))
  }

  lemma {:induction false} TotalGrows(parts: seq<seq<Event>>, x: nat, more: seq<Event>)
    requires x < |parts|
    ensures Total(parts[x := parts[x] + more]) == Total(parts) + multiset(more)
  {
    var parts' := parts[x := parts[x] + more];
    if x == 0 {
      assert parts'[1..] == parts[1..];
    } else {
      assert parts'[1..] == parts[1..][x - 1 := parts[x] + more];
      TotalGrows(parts[1..], x - 1, more);
    }
  }

  lemma DeqDraws(s: State, t: nat) returns (more: seq<Event>)
    requires Sized(s) && t < |s.pcs| && s.pcs[t].Got? && s.pcs[t].q < |s.queues| && s.pcs[t].prio < PRIOS
    requires s.pcs[t].j < SUBS_PER_PRIO
    ensures var s', q := StepDeq(s, t), s.pcs[t].q;
            && AllTaken(s'.queues) == AllTaken(s.queues)[q := Drawn(s.queues[q]) + more]
            && AllGot(s'.locals) == AllGot(s.locals)[t := s.locals[t].got + more]
  {
    var e := s.queues[s.pcs[t].q];
    more := DeqMulti(e.q, MAX_DEQ).2;
    assert e.past + (e.taken + more) == e.past + e.taken + more;
    assert e.past + e.taken == e.past + e.taken + [] && s.locals[t].got == s.locals[t].got + [];
  }

  /** Every other step takes none. */
  lemma OthersDrawNone(s: State, op: Op, s': State)
    requires Next(s, op, s') && !op.OpDeq?
    ensures |s'.queues| == |s.queues|
    ensures forall x: nat | x < |s.queues| ::
              (s'.queues[x].past == s.queues[x].past && s'.queues[x].taken == s.queues[x].taken)
              || (s'.queues[x].past == s.queues[x].past + s.queues[x].taken && s'.queues[x].taken == [])
  {
    match op
    case OpEnq(t, q, evs) => assert s' == StepEnq(s, t, q, evs);
    case OpDestroy(t, q) => assert s' == StepDestroy(s, t, q);
    case OpFinalize(t) => assert s' == StepFinalize(s, t);
    case _ =>
  }

  lemma OthersGetNone(s: State, op: Op, s': State)
    requires Next(s, op, s') && !op.OpDeq?
    ensures |s'.locals| == |s.locals| && forall u: nat | u < |s.locals| :: s'.locals[u].got == s.locals[u].got
  {}

  lemma SameDrawn(queues: seq<Entry>, queues': seq<Entry>)
    requires |queues'| == |queues|
    requires forall x: nat | x < |queues| ::
               (queues'[x].past == queues[x].past && queues'[x].taken == queues[x].taken)
               || (queues'[x].past == queues[x].past + queues[x].taken && queues'[x].taken == [])
    ensures AllTaken(queues') == AllTaken(queues)
  {
    forall x: nat | x < |queues| ensures Drawn(queues'[x]) == Drawn(queues[x]) {}
  }

  lemma FlowStep(s: State, op: Op, s': State)
    requires Next(s, op, s') && Flow(s)
    ensures Flow(s')
  {
    if op.OpDeq? {
      var more := DeqDraws(s, op.t);
      TotalGrows(AllTaken(s.queues), s.pcs[op.t].q, more);
      TotalGrows(AllGot(s.locals), op.t, more);
    } else {
      OthersDrawNone(s, op, s');
      OthersGetNone(s, op, s');
      SameDrawn(s.queues, s'.queues);
      assert AllGot(s'.locals) == AllGot(s.locals);
    }
  }

  lemma {:induction false} TotalOfNone(parts: seq<seq<Event>>)
    requires forall i | 0 <= i < |parts| :: parts[i] == []
    ensures Total(parts) == multiset{}
  {
    if parts != [] {
      TotalOfNone(parts[1..]);
    }
  }

  lemma FlowInit(s: State)
    requires Init(s)
    ensures Flow(s)
  {
    TotalOfNone(AllTaken(s.queues));
    TotalOfNone(AllGot(s.locals));
  }

  lemma {:induction false} FlowRun(ss: seq<State>, ops: seq<Op>, i: nat)
    requires IsRun(ss, ops) && i < |ss|
    ensures Flow(ss[i])
  {
    if i == 0 {
      FlowInit(ss[0]);
    } else {
      FlowRun(ss, ops, i - 1);
      FlowNext(ss, ops, i - 1);
    }
  }

  lemma FlowNext(ss: seq<State>, ops: seq<Op>, i: nat)
    requires IsRun(ss, ops) && i < |ops| && Flow(ss[i])
    ensures Flow(ss[i + 1])
  {
    FlowStep(ss[i], ops[i], ss[i + 1]);
  }

  /**
   Every queue is emptied from the front, every thread hands out what it took, in order, and all that was taken from
   the queues, in all their uses, is what the threads took: no event is lost or handed out twice.
   */
  lemma NothingLost(ss: seq<State>, ops: seq<Op>, i: nat)
    requires IsRun(ss, ops) && i < |ss|
    ensures Total(AllTaken(ss[i].queues)) == Total(AllGot(ss[i].locals))
    ensures forall q: nat | q < |ss[i].queues| ::
              ss[i].queues[q].enqueued == ss[i].queues[q].taken + ss[i].queues[q].q.events
    ensures forall t: nat | t < |ss[i].locals| :: ss[i].locals[t].got == ss[i].locals[t].out + ss[i].locals[t].cached
  {
    InvRun(ss, ops, i);
    FlowRun(ss, ops, i);
    var s := ss[i];
    forall q: nat | q < |s.queues| ensures s.queues[q].enqueued == s.queues[q].taken + s.queues[q].q.events {
      assert DataOk(s, q);
    }
    forall t: nat | t < |s.locals| ensures s.locals[t].got == s.locals[t].out + s.locals[t].cached {
      assert ThreadOk(s, t);
    }
  }

  /** Queue q belongs to priority queue sub: the row of its priority, at the place of its low bits. */
  predicate Belongs(queues: seq<Entry>, q: nat, sub: nat) {
    q < |queues| && queues[q].prio == sub / 4 && q % 4 == sub % 4
  }

  lemma HomeIs(queues: seq<Entry>, q: nat, sub: nat)
    requires q < |queues|
    ensures Home(queues, q) == sub <==> Belongs(queues, q, sub)
  {}

  /**
   A mask bit is set exactly when its count is positive, and then exactly when a registered queue belongs there; and
   a priority queue holds only commands of registered queues of its own priority.
   */
  lemma MaskExact(ss: seq<State>, ops: seq<Op>, i: nat, sub: nat)
    requires IsRun(ss, ops) && i < |ss| && sub < NUM_SUBS
    ensures Sized(ss[i])
    ensures ss[i].mask[sub] <==> ss[i].count[sub] > 0
    ensures ss[i].mask[sub] <==> exists q: nat :: Belongs(ss[i].queues, q, sub) && ss[i].queues[q].registered
    ensures forall q | q in ss[i].subs[sub] :: Belongs(ss[i].queues, q, sub) && ss[i].queues[q].registered
  {
    InvRun(ss, ops, i);
    var s := ss[i];
    assert CountOk(s, sub);
    if s.mask[sub] {
      var q :| q in Registered(s.queues, sub);
      HomeIs(s.queues, q, sub);
    }
    forall q | q in s.subs[sub] ensures Belongs(s.queues, q, sub) && s.queues[q].registered {
      InItsPlace(s, q, sub);
    }
    forall q: nat | Belongs(s.queues, q, sub) && s.queues[q].registered ensures s.mask[sub] {
      HomeIs(s.queues, q, sub);
      assert q in Registered(s.queues, sub);
    }
  }

  lemma InItsPlace(s: State, q: nat, sub: nat)
    requires Inv(s) && sub < NUM_SUBS && q in s.subs[sub]
    ensures Belongs(s.queues, q, sub) && s.queues[q].registered
  {
    assert SubOk(s, sub);
    assert TokenOk(s, q);
    HomeIs(s.queues, q, sub);
  }
}
