/**
 A timer pool as a value, its operations as functions, and what every history of operations keeps. Each call of
 the interface and each tick is one step.
 */
module TimerModel {
  import opened Cardinality
  import opened Options

  /** A buffer handle, a queue handle, a user pointer. */
  type Buf = nat

  /** The inactive bit, and the state of a timer that is not allocated. */
  const TMO_INACTIVE: nat := 0x8000_0000_0000_0000
  const TMO_UNUSED: nat := 0xFFFF_FFFF_FFFF_FFFF

  datatype TickBuf = TickBuf(exp: nat, buf: Option<Buf>)

  /** While a timer is free, `queue` holds the index of the next free one. */
  datatype Timer = Timer(queue: nat, userPtr: nat)

  datatype Header = Header(timer: nat, userPtr: nat, expiration: nat)

  /** inFlight holds the posted timeouts, each with the queue it was posted to, until the application takes them. */
  datatype Pool = Pool(
    curTick: nat, minRel: nat, maxRel: nat,
    ticks: seq<TickBuf>, timers: seq<Timer>,
    highWm: nat, numAlloc: nat, firstFree: nat,
    headers: map<Buf, Header>, inFlight: map<Buf, nat>, timeouts: set<Buf>)

  datatype SetResult = Success | TooEarly | TooLate | NoEvent

  predicate Shape(p: Pool) {
    |p.ticks| == |p.timers|
  }

  /** The tick without the inactive bit. */
  function Tick63(exp: nat): nat {
    exp % TMO_INACTIVE
  }

  // ---- Operations

  /** What timer_alloc asserts: while not all timers are allocated the free list is not empty. */
  predicate FreeLeft(p: Pool) {
    p.numAlloc < |p.timers| ==> p.firstFree < |p.timers|
  }

  function Alloc(p: Pool, queue: nat, userPtr: nat): (r: (Pool, Option<nat>))
    requires Shape(p) && FreeLeft(p)
  {
    if p.numAlloc < |p.timers| then
      var idx := p.firstFree;
      (p.(numAlloc := p.numAlloc + 1,
          firstFree := p.timers[idx].queue,
          timers := p.timers[idx := Timer(queue, userPtr)],
          ticks := p.ticks[idx := TickBuf(TMO_INACTIVE, None)],
          highWm := if p.numAlloc + 1 > p.highWm then p.numAlloc + 1 else p.highWm), Some(idx))
    else (p, None)
  }

  /** timer_cancel: the new state, and the buffer the timer held. */
  function CancelTo(p: Pool, idx: nat, state: nat): (Pool, Option<Buf>)
    requires idx < |p.ticks|
  {
    (p.(ticks := p.ticks[idx := TickBuf(state, None)]), p.ticks[idx].buf)
  }

  function Free(p: Pool, idx: nat): (Pool, Option<Buf>)
    requires Shape(p) && idx < |p.ticks| && p.numAlloc > 0
  {
    var (q, was) := CancelTo(p, idx, TMO_UNUSED);
    (q.(timers := p.timers[idx := Timer(p.firstFree, 0)], firstFree := idx, numAlloc := p.numAlloc - 1), was)
  }

  /** timer_reset: the new state, whether it succeeded, and the buffer handed back in place of the given one. */
  function Reset(p: Pool, idx: nat, tick: nat, buf: Option<Buf>): (Pool, bool, Option<Buf>)
    requires Shape(p) && idx < |p.ticks|
  {
    match buf
    case None =>
      if p.ticks[idx].buf.Some? then (p.(ticks := p.ticks[idx := TickBuf(tick, p.ticks[idx].buf)]), true, None)
      else (p, false, None)
    case Some(b) =>
      var headers := if b in p.timeouts && b in p.headers
                     then p.headers[b := Header(idx, p.timers[idx].userPtr, p.headers[b].expiration)]
                     else p.headers;
      (p.(headers := headers, ticks := p.ticks[idx := TickBuf(tick, buf)]), true, p.ticks[idx].buf)
  }

  function SetAbs(p: Pool, idx: nat, tick: nat, buf: Option<Buf>): (Pool, SetResult, Option<Buf>)
    requires Shape(p) && idx < |p.ticks|
  {
    if tick < p.curTick + p.minRel then (p, TooEarly, buf)
    else if tick > p.curTick + p.maxRel then (p, TooLate, buf)
    else
      var (q, ok, back) := Reset(p, idx, tick, buf);
      (q, if ok then Success else NoEvent, back)
  }

  function SetRel(p: Pool, idx: nat, rel: nat, buf: Option<Buf>): (Pool, SetResult, Option<Buf>)
    requires Shape(p) && idx < |p.ticks|
  {
    if rel < p.minRel then (p, TooEarly, buf)
    else if rel > p.maxRel then (p, TooLate, buf)
    else
      var (q, ok, back) := Reset(p, idx, p.curTick + rel, buf);
      (q, if ok then Success else NoEvent, back)
  }

  /** timer_expire: an expired timer gives up its buffer, which is posted to the timer's queue. */
  function Expire(p: Pool, idx: nat, tick: nat): Pool
    requires Shape(p) && idx < |p.ticks|
  {
    var TickBuf(exp, buf) := p.ticks[idx];
    if exp <= tick && buf.Some? then
      var b := buf.value;
      var headers := if b in p.timeouts && b in p.headers
                     then p.headers[b := p.headers[b].(expiration := exp)] else p.headers;
      p.(ticks := p.ticks[idx := TickBuf(if exp < TMO_INACTIVE then exp + TMO_INACTIVE else exp, None)],
         headers := headers, inFlight := p.inFlight[b := p.timers[idx].queue])
    else p
  }

  /** odp_timer_pool_expire on the first n timers. */
  function Scan(p: Pool, tick: nat, n: nat): (q: Pool)
    requires Shape(p) && n <= |p.ticks|
    ensures Shape(q) && |q.ticks| == |p.ticks| && q.highWm == p.highWm && q.curTick == p.curTick
    ensures q.timers == p.timers && q.timeouts == p.timeouts && q.minRel == p.minRel && q.maxRel == p.maxRel
  {
    if n == 0 then p else Expire(Scan(p, tick, n - 1), n - 1, tick)
  }

  /** How many of the first n timers are due at the tick. */
  function Due(p: Pool, tick: nat, n: nat): (count: nat)
    requires n <= |p.ticks|
    ensures count <= n
  {
    if n == 0 then 0
    else Due(p, tick, n - 1) + if p.ticks[n - 1].exp <= tick && p.ticks[n - 1].buf.Some? then 1 else 0
  }

  /** timer_notify: the tick counts on even when another thread's scan is still running and this one is skipped. */
  function Notify(p: Pool, scan: bool): Pool
    requires Shape(p) && p.highWm <= |p.ticks|
  {
    var q := p.(curTick := p.curTick + 1);
    if scan then Scan(q, p.curTick, p.highWm) else q
  }

  /** odp_timeout_fresh. */
  predicate Fresh(p: Pool, b: Buf)
    requires b in p.headers && p.headers[b].timer < |p.ticks|
  {
    p.headers[b].expiration == Tick63(p.ticks[p.headers[b].timer].exp)
  }

  // ---- Histories

  /** Where a buffer is. */
  datatype Place = InTimer(idx: nat) | InFlight | WithCaller

  /** One successful set: the timer, and the tick and buffer it was armed with. */
  datatype Arming = Arming(timer: nat, what: TickBuf)

  /** One expiry: the number of the arming, what was posted for which timer, and the tick that found it. */
  datatype Fire = Fire(arm: nat, timer: nat, what: TickBuf, at: nat)

  /**
   A pool with its history. free: the free list in order. place: where each buffer is. changes[i]: how often timer
   i was successfully set, or cancel or free was called on it, whether or not it held a buffer. stamp[b]: that count
   when b was posted, until b is used again. armings: all successful sets. arm[i]: the number of timer i's latest.
   fired: all expiries.
   */
  datatype World = World(
    pool: Pool, free: seq<nat>, place: map<Buf, Place>, changes: seq<nat>, stamp: map<Buf, nat>,
    armings: seq<Arming>, arm: seq<nat>, fired: seq<Fire>)

  datatype Op =
    | OpAlloc(queue: nat, userPtr: nat)
    | OpFree(idx: nat)
    | OpSetAbs(idx: nat, tick: nat, buf: Option<Buf>)
    | OpSetRel(idx: nat, tick: nat, buf: Option<Buf>)
    | OpCancel(idx: nat)
    | OpTick(scan: bool)
    | OpReceive(taken: Buf)

  predicate Allocated(w: World, idx: nat) {
    idx < |w.pool.ticks| && idx !in w.free
  }

  /** The caller passes allocated timers and buffers it holds. */
  predicate Enabled(w: World, op: Op) {
    match op
    case OpAlloc(_, _) => true
    case OpFree(idx) => Allocated(w, idx)
    case OpSetAbs(idx, _, buf) => Allocated(w, idx) && (buf.Some? ==> Holds(w, buf.value, WithCaller))
    case OpSetRel(idx, _, buf) => Allocated(w, idx) && (buf.Some? ==> Holds(w, buf.value, WithCaller))
    case OpCancel(idx) => Allocated(w, idx)
    case OpTick(_) => true
    case OpReceive(buf) => buf in w.pool.inFlight
  }

  predicate Holds(w: World, b: Buf, place: Place) {
    b in w.place && w.place[b] == place
  }

  function Moved(place: map<Buf, Place>, buf: Option<Buf>, to: Place): map<Buf, Place> {
    if buf.Some? then place[buf.value := to] else place
  }

  function StepAlloc(w: World, queue: nat, userPtr: nat): World
    requires Shape(w.pool) && FreeLeft(w.pool)
  {
    var (p, r) := Alloc(w.pool, queue, userPtr);
    w.(pool := p, free := if r.Some? && w.free != [] then w.free[1..] else w.free)
  }

  function StepFree(w: World, idx: nat): World
    requires Shape(w.pool) && idx < |w.pool.ticks| == |w.changes| && w.pool.numAlloc > 0
  {
    var (p, was) := Free(w.pool, idx);
    w.(pool := p, free := [idx] + w.free, place := Moved(w.place, was, WithCaller),
       changes := w.changes[idx := w.changes[idx] + 1])
  }

  function StepCancel(w: World, idx: nat): World
    requires Shape(w.pool) && idx < |w.pool.ticks| == |w.changes|
  {
    var (p, was) := CancelTo(w.pool, idx, TMO_INACTIVE);
    w.(pool := p, place := Moved(w.place, was, WithCaller), changes := w.changes[idx := w.changes[idx] + 1])
  }

  /** What a successful set adds to the history. */
  function Armed(w: World, p: Pool, idx: nat, buf: Option<Buf>, back: Option<Buf>): World
    requires idx < |w.changes| == |w.arm| && idx < |p.ticks|
  {
    w.(pool := p,
       place := Moved(Moved(w.place, back, WithCaller), buf, InTimer(idx)),
       changes := w.changes[idx := w.changes[idx] + 1],
       stamp := if buf.Some? then w.stamp - {buf.value} else w.stamp,
       arm := w.arm[idx := |w.armings|], armings := w.armings + [Arming(idx, p.ticks[idx])])
  }

  function StepSetAbs(w: World, idx: nat, tick: nat, buf: Option<Buf>): World
    requires Shape(w.pool) && idx < |w.pool.ticks| == |w.changes| == |w.arm|
  {
    var (p, r, back) := SetAbs(w.pool, idx, tick, buf);
    if r == Success then Armed(w, p, idx, buf, back) else w.(pool := p)
  }

  function StepSetRel(w: World, idx: nat, rel: nat, buf: Option<Buf>): World
    requires Shape(w.pool) && idx < |w.pool.ticks| == |w.changes| == |w.arm|
  {
    var (p, r, back) := SetRel(w.pool, idx, rel, buf);
    if r == Success then Armed(w, p, idx, buf, back) else w.(pool := p)
  }

  function StepExpire(w: World, idx: nat, tick: nat): (w': World)
    requires Shape(w.pool) && idx < |w.pool.ticks| == |w.changes| == |w.arm|
  {
    var p := Expire(w.pool, idx, tick);
    var TickBuf(exp, buf) := w.pool.ticks[idx];
    if exp <= tick && buf.Some? then
      w.(pool := p, place := w.place[buf.value := InFlight],
         stamp := if buf.value in p.timeouts then w.stamp[buf.value := w.changes[idx]] else w.stamp,
         fired := w.fired + [Fire(w.arm[idx], idx, w.pool.ticks[idx], tick)])
    else w.(pool := p)
  }

  function StepScan(w: World, tick: nat, n: nat): (w': World)
    requires Shape(w.pool) && n <= |w.pool.ticks| == |w.changes| == |w.arm|
    ensures w'.pool == Scan(w.pool, tick, n) && |w'.changes| == |w'.arm| == |w'.pool.ticks|
  {
    if n == 0 then w else StepExpire(StepScan(w, tick, n - 1), n - 1, tick)
  }

  function StepTick(w: World, scan: bool): (w': World)
    requires Shape(w.pool) && w.pool.highWm <= |w.pool.ticks| == |w.changes| == |w.arm|
    ensures w'.pool == Notify(w.pool, scan)
  {
    var v := w.(pool := w.pool.(curTick := w.pool.curTick + 1));
    if scan then StepScan(v, w.pool.curTick, w.pool.highWm) else v
  }

  function StepReceive(w: World, b: Buf): World {
    w.(pool := w.pool.(inFlight := w.pool.inFlight - {b}), place := w.place[b := WithCaller])
  }

  /** What the bodies need to be defined at all; every state that keeps the invariant has it. */
  predicate Ready(w: World, op: Op) {
    && Shape(w.pool) && w.pool.highWm <= |w.pool.ticks| == |w.changes| == |w.arm|
    && (op.OpFree? ==> w.pool.numAlloc > 0)
    && (op.OpAlloc? ==> FreeLeft(w.pool))
  }

  function Step(w: World, op: Op): World
    requires Ready(w, op) && Enabled(w, op)
  {
    match op
    case OpAlloc(queue, userPtr) => StepAlloc(w, queue, userPtr)
    case OpFree(idx) => StepFree(w, idx)
    case OpSetAbs(idx, tick, buf) => StepSetAbs(w, idx, tick, buf)
    case OpSetRel(idx, rel, buf) => StepSetRel(w, idx, rel, buf)
    case OpCancel(idx) => StepCancel(w, idx)
    case OpTick(scan) => StepTick(w, scan)
    case OpReceive(buf) => StepReceive(w, buf)
  }

  lemma SomeAllocated(w: World, idx: nat)
    requires FreeList(w.pool, w.free) && Shape(w.pool) && Allocated(w, idx)
    ensures w.pool.numAlloc > 0
  {
    Pigeonhole([idx] + w.free, |w.pool.timers|);
  }

  // ---- The invariant

  /** Ticks, and with them every tick a timer can be set to, stay below 2^63 - 1. */
  predicate InTime(p: Pool) {
    p.curTick + p.maxRel < TMO_INACTIVE - 1 && p.minRel <= TMO_INACTIVE
  }

  /** The free list is acyclic, linked through `queue`, and holds the timers that are unused. */
  predicate FreeList(p: Pool, free: seq<nat>) {
    && |free| == |p.timers| - p.numAlloc
    && (forall i | 0 <= i < |free| :: free[i] < |p.timers|)
    && (forall i, j | 0 <= i < j < |free| :: free[i] != free[j])
    && p.firstFree == (if free == [] then |p.timers| else free[0])
    && (forall i: nat | i < |free| :: Linked(p.timers, free, i))
  }

  /** The i-th free timer names the next one; the last names the number of timers. */
  predicate Linked(timers: seq<Timer>, free: seq<nat>, i: nat) {
    && i < |free| && free[i] < |timers|
    && timers[free[i]].queue == if i + 1 < |free| then free[i + 1] else |timers|
  }

  predicate UnusedIffFree(p: Pool, free: seq<nat>) {
    forall i | 0 <= i < |p.ticks| :: p.ticks[i].exp == TMO_UNUSED <==> i in free
  }

  /** The timers never handed out yet are the last of the free list, in ascending order. */
  predicate HighWater(p: Pool, free: seq<nat>) {
    && p.numAlloc <= p.highWm <= |p.timers|
    && |free| == |p.timers| - p.numAlloc
    && (forall i | p.highWm - p.numAlloc <= i < |free| :: free[i] == p.numAlloc + i)
    && (forall i | 0 <= i < p.highWm - p.numAlloc :: free[i] < p.highWm)
  }

  /** A timer holds a buffer exactly while its tick lacks the inactive bit. */
  predicate ActiveIffBuffer(p: Pool) {
    forall i | 0 <= i < |p.ticks| ::
      && (p.ticks[i].buf.Some? <==> p.ticks[i].exp < TMO_INACTIVE)
      && p.ticks[i].exp <= TMO_UNUSED
      && (p.ticks[i].exp < TMO_INACTIVE ==> p.ticks[i].exp < TMO_INACTIVE - 1)
  }

  predicate At(p: Pool, b: Buf, place: Place)
  {
    match place
    case InTimer(i) => i < |p.ticks| && p.ticks[i].buf == Some(b)
    case InFlight => b in p.inFlight
    case WithCaller => b !in p.inFlight && forall i | 0 <= i < |p.ticks| :: p.ticks[i].buf != Some(b)
  }

  /** Every buffer is where the history says, and nowhere else. */
  ghost predicate Places(w: World) {
    && (forall b | b in w.place :: b in w.pool.headers && At(w.pool, b, w.place[b]))
    && (forall i | 0 <= i < |w.pool.ticks| && w.pool.ticks[i].buf.Some? ::
          Holds(w, w.pool.ticks[i].buf.value, InTimer(i)))
    && (forall b | b in w.pool.inFlight :: Holds(w, b, InFlight))
  }

  /** A posted timeout against its timer: unchanged since, or changed to something that cannot look the same. */
  predicate Stamped(p: Pool, changes: seq<nat>, h: Header, stamp: nat) {
    && h.timer < |p.ticks| == |changes|
    && h.expiration < p.curTick && h.expiration < TMO_INACTIVE - 1
    && stamp <= changes[h.timer]
    && var exp := p.ticks[h.timer].exp;
       if stamp == changes[h.timer] then exp == h.expiration + TMO_INACTIVE
       else exp == TMO_INACTIVE || exp == TMO_UNUSED || Tick63(exp) > h.expiration
  }

  ghost predicate Stamps(w: World) {
    forall b | b in w.stamp ::
      b in w.pool.timeouts && b in w.pool.headers && b in w.place && !w.place[b].InTimer?
      && Stamped(w.pool, w.changes, w.pool.headers[b], w.stamp[b])
  }

  /** The header of a buffer in a timer names that timer. */
  ghost predicate Headers(w: World) {
    forall i | 0 <= i < |w.pool.ticks| && w.pool.ticks[i].buf.Some? && w.pool.ticks[i].buf.value in w.pool.timeouts ::
      w.pool.ticks[i].buf.value in w.pool.headers && w.pool.headers[w.pool.ticks[i].buf.value].timer == i
  }

  /** What was posted is what that arming set, at its tick or later and before the current tick. */
  predicate FiredRight(armings: seq<Arming>, curTick: nat, f: Fire) {
    && f.arm < |armings| && armings[f.arm] == Arming(f.timer, f.what)
    && f.what.buf.Some? && f.what.exp <= f.at < curTick
  }

  /** Armings are numbered; each fires at most once, and only at a tick that has passed. */
  ghost predicate Arms(w: World) {
    && |w.arm| == |w.pool.ticks|
    && (forall i | 0 <= i < |w.arm| && w.pool.ticks[i].buf.Some? ::
          w.arm[i] < |w.armings| && w.armings[w.arm[i]] == Arming(i, w.pool.ticks[i]))
    && (forall i, j | 0 <= i < j < |w.arm| && w.pool.ticks[i].buf.Some? && w.pool.ticks[j].buf.Some? ::
          w.arm[i] != w.arm[j])
    && (forall k | 0 <= k < |w.fired| :: FiredRight(w.armings, w.pool.curTick, w.fired[k]))
    && (forall k, l | 0 <= k < l < |w.fired| :: w.fired[k].arm != w.fired[l].arm)
    && (forall k, i | 0 <= k < |w.fired| && 0 <= i < |w.arm| && w.pool.ticks[i].buf.Some? ::
          w.fired[k].arm != w.arm[i])
  }

  /** All parts of the invariant at once. */
  ghost predicate Parts(w: World) {
    && Shape(w.pool) && |w.changes| == |w.pool.ticks|
    && InTime(w.pool)
    && FreeList(w.pool, w.free) && UnusedIffFree(w.pool, w.free) && HighWater(w.pool, w.free)
    && ActiveIffBuffer(w.pool) && Places(w) && Stamps(w) && Headers(w) && Arms(w)
  }

  datatype Part = ShapePart | TimePart | FreePart | BufferPart | PlacePart | StampPart | HeaderPart | ArmPart

  ghost predicate Keeps(w: World, part: Part) {
    match part
    case ShapePart => Shape(w.pool) && |w.changes| == |w.pool.ticks|
    case TimePart => InTime(w.pool)
    case FreePart => FreeList(w.pool, w.free) && UnusedIffFree(w.pool, w.free) && HighWater(w.pool, w.free)
    case BufferPart => ActiveIffBuffer(w.pool)
    case PlacePart => Places(w)
    case StampPart => Stamps(w)
    case HeaderPart => Headers(w)
    case ArmPart => Arms(w)
  }

  /** The invariant: every part of it. */
  ghost predicate Inv(w: World) {
    forall part :: Keeps(w, part)
  }

  lemma Unpack(w: World)
    requires Inv(w)
    ensures Parts(w)
  {
    assert Keeps(w, ShapePart) && Keeps(w, TimePart) && Keeps(w, FreePart) && Keeps(w, BufferPart);
    assert Keeps(w, PlacePart) && Keeps(w, StampPart) && Keeps(w, HeaderPart) && Keeps(w, ArmPart);
  }

  lemma Pack(w: World)
    requires Parts(w)
    ensures Inv(w)
  {}

  // ---- Every operation keeps it

  lemma FreeAboveHighWm(p: Pool, free: seq<nat>, idx: nat)
    requires HighWater(p, free) && idx < |p.timers|
    ensures idx >= p.highWm ==> idx in free
  {
    if idx >= p.highWm {
      assert free[idx - p.numAlloc] == idx;
    }
  }

  /** An allocated timer lies below the high watermark, so its handle is accepted and the scan reaches it. */
  lemma AllocatedBelowHighWm(w: World, idx: nat)
    requires Shape(w.pool) && HighWater(w.pool, w.free) && Allocated(w, idx)
    ensures idx < w.pool.highWm
  {
    FreeAboveHighWm(w.pool, w.free, idx);
  }

  lemma AllocKeepsList(w: World, queue: nat, userPtr: nat)
    requires Parts(w)
    ensures var w' := StepAlloc(w, queue, userPtr);
            FreeList(w'.pool, w'.free) && UnusedIffFree(w'.pool, w'.free) && HighWater(w'.pool, w'.free)
  {
    var w' := StepAlloc(w, queue, userPtr);
    var free, free', p, p' := w.free, w'.free, w.pool, w'.pool;
    if free != [] {
      assert Linked(p.timers, free, 0);
      assert free' == free[1..];
      forall i: nat | i < |free'| ensures Linked(p'.timers, free', i) {
        assert Linked(p.timers, free, i + 1);
      }
      forall i | 0 <= i < |p.ticks| ensures i in free' <==> i in free && i != free[0] {
        if i in free && i != free[0] {
          var k :| 0 <= k < |free| && free[k] == i;
          assert free'[k - 1] == i;
        }
      }
    }
  }

  lemma FreeKeepsList(w: World, idx: nat)
    requires Parts(w) && Allocated(w, idx)
    ensures w.pool.numAlloc > 0
    ensures var w' := StepFree(w, idx);
            FreeList(w'.pool, w'.free) && UnusedIffFree(w'.pool, w'.free) && HighWater(w'.pool, w'.free)
  {
    SomeAllocated(w, idx);
    AllocatedBelowHighWm(w, idx);
    var w' := StepFree(w, idx);
    forall i: nat | i < |w'.free| ensures Linked(w'.pool.timers, w'.free, i) {
      if i > 0 {
        assert Linked(w.pool.timers, w.free, i - 1);
      }
    }
    forall i | 0 <= i < |w.pool.ticks| ensures i in w'.free <==> i == idx || i in w.free {}
  }

  lemma InvAlloc(w: World, queue: nat, userPtr: nat)
    requires Inv(w) && Ready(w, OpAlloc(queue, userPtr))
    ensures Inv(StepAlloc(w, queue, userPtr))
  {
    Unpack(w);
    AllocKeepsList(w, queue, userPtr);
    var w' := StepAlloc(w, queue, userPtr);
    if w.free != [] {
      var idx := w.free[0];
      assert idx in w.free;
      assert w.pool.ticks[idx] == TickBuf(TMO_UNUSED, None);
      CancelPlaces(w, w', idx, TMO_INACTIVE);
      forall b | b in w'.stamp
        ensures b in w'.place && !w'.place[b].InTimer?
        ensures b in w'.pool.headers && Stamped(w'.pool, w'.changes, w'.pool.headers[b], w'.stamp[b])
      {
        assert Stamped(w.pool, w.changes, w.pool.headers[b], w.stamp[b]);
      }
    }
    Pack(w');
  }

  lemma InvFree(w: World, idx: nat)
    requires Inv(w) && Ready(w, OpFree(idx)) && Allocated(w, idx)
    ensures Inv(StepFree(w, idx))
  {
    Unpack(w);
    FreeKeepsList(w, idx);
    var w' := StepFree(w, idx);
    CancelKeeps(w, w', idx, TMO_UNUSED);
    Pack(w');
  }

  /** What taking the buffer out of a timer keeps, for either of the two final states. */
  lemma CancelKeeps(w: World, w': World, idx: nat, state: nat)
    requires Parts(w) && idx < |w.pool.ticks| && (state == TMO_UNUSED || state == TMO_INACTIVE)
    requires w'.pool.ticks == w.pool.ticks[idx := TickBuf(state, None)] && w'.pool.inFlight == w.pool.inFlight
    requires w'.pool.headers == w.pool.headers && w'.pool.timeouts == w.pool.timeouts
    requires w'.pool.curTick == w.pool.curTick && |w'.pool.timers| == |w.pool.timers|
    requires w'.place == Moved(w.place, w.pool.ticks[idx].buf, WithCaller)
    requires w'.changes == w.changes[idx := w.changes[idx] + 1] && w'.stamp == w.stamp
    requires w'.arm == w.arm && w'.armings == w.armings && w'.fired == w.fired
    ensures ActiveIffBuffer(w'.pool) && Places(w') && Headers(w') && Arms(w') && Stamps(w')
  {
    CancelPlaces(w, w', idx, state);
    CancelStamps(w, w', idx, state);
  }

  lemma CancelStamps(w: World, w': World, idx: nat, state: nat)
    requires Parts(w) && idx < |w.pool.ticks| && (state == TMO_UNUSED || state == TMO_INACTIVE)
    requires w'.pool.ticks == w.pool.ticks[idx := TickBuf(state, None)]
    requires w'.pool.headers == w.pool.headers && w'.pool.timeouts == w.pool.timeouts
    requires w'.pool.curTick == w.pool.curTick
    requires w'.place == Moved(w.place, w.pool.ticks[idx].buf, WithCaller)
    requires w'.changes == w.changes[idx := w.changes[idx] + 1] && w'.stamp == w.stamp
    ensures Stamps(w')
  {
    forall b | b in w'.stamp
      ensures b in w'.place && !w'.place[b].InTimer?
      ensures b in w'.pool.headers && Stamped(w'.pool, w'.changes, w'.pool.headers[b], w'.stamp[b])
    {
      assert Stamped(w.pool, w.changes, w.pool.headers[b], w.stamp[b]);
    }
  }

  lemma CancelPlaces(w: World, w': World, idx: nat, state: nat)
    requires Parts(w) && idx < |w.pool.ticks|
    requires w'.pool.ticks == w.pool.ticks[idx := TickBuf(state, None)] && w'.pool.inFlight == w.pool.inFlight
    requires w'.pool.headers == w.pool.headers
    requires w'.place == Moved(w.place, w.pool.ticks[idx].buf, WithCaller)
    ensures Places(w')
  {
    var was := w.pool.ticks[idx].buf;
    forall b | b in w'.place ensures b in w'.pool.headers && At(w'.pool, b, w'.place[b]) {
      if was == Some(b) {
        assert Holds(w, b, InTimer(idx));
      } else {
        assert At(w.pool, b, w.place[b]);
      }
    }
    forall i | 0 <= i < |w'.pool.ticks| && w'.pool.ticks[i].buf.Some?
      ensures Holds(w', w'.pool.ticks[i].buf.value, InTimer(i))
    {
      assert Holds(w, w.pool.ticks[i].buf.value, InTimer(i));
    }
  }

  lemma InvCancel(w: World, idx: nat)
    requires Inv(w) && Ready(w, OpCancel(idx)) && Allocated(w, idx)
    ensures Inv(StepCancel(w, idx))
  {
    Unpack(w);
    var w' := StepCancel(w, idx);
    CancelKeeps(w, w', idx, TMO_INACTIVE);
    Pack(w');
  }

  /** What a successful set keeps: timer idx is armed for `tick` with buffer `b`, either its own or a new one. */
  lemma SetPlaces(w: World, w': World, idx: nat, tick: nat, b: Buf, fromCaller: bool)
    requires Parts(w) && idx < |w.pool.ticks|
    requires w'.pool.ticks == w.pool.ticks[idx := TickBuf(tick, Some(b))] && w'.pool.inFlight == w.pool.inFlight
    requires w'.pool.headers.Keys == w.pool.headers.Keys
    requires if fromCaller then
               && Holds(w, b, WithCaller)
               && w'.place == Moved(w.place, w.pool.ticks[idx].buf, WithCaller)[b := InTimer(idx)]
             else w.pool.ticks[idx].buf == Some(b) && w'.place == w.place
    ensures Places(w')
  {
    var was := w.pool.ticks[idx].buf;
    if was.Some? {
      assert Holds(w, was.value, InTimer(idx));
    }
    assert fromCaller ==> At(w.pool, b, WithCaller);
    forall c | c in w'.place ensures c in w'.pool.headers && At(w'.pool, c, w'.place[c]) {
      assert At(w.pool, c, w.place[c]);
    }
    forall i | 0 <= i < |w'.pool.ticks| && w'.pool.ticks[i].buf.Some?
      ensures Holds(w', w'.pool.ticks[i].buf.value, InTimer(i))
    {
      if i != idx {
        assert Holds(w, w.pool.ticks[i].buf.value, InTimer(i));
      }
    }
    forall c | c in w'.pool.inFlight ensures Holds(w', c, InFlight) {
      assert Holds(w, c, InFlight);
    }
  }

  lemma SetStamps(w: World, w': World, idx: nat, tick: nat, buf: Option<Buf>)
    requires Stamps(w) && idx < |w.pool.ticks| == |w'.pool.ticks| == |w.changes|
    requires w.pool.curTick <= tick < TMO_INACTIVE - 1
    requires w'.pool.ticks == w.pool.ticks[idx := TickBuf(tick, w'.pool.ticks[idx].buf)]
    requires w'.pool.timeouts == w.pool.timeouts && w'.pool.curTick == w.pool.curTick
    requires w'.pool.headers.Keys == w.pool.headers.Keys
    requires forall c | c in w.pool.headers && buf != Some(c) :: w'.pool.headers[c] == w.pool.headers[c]
    requires w'.changes == w.changes[idx := w.changes[idx] + 1]
    requires w'.stamp == if buf.Some? then w.stamp - {buf.value} else w.stamp
    requires forall c | c in w'.stamp :: c in w'.place && !w'.place[c].InTimer?
    ensures Stamps(w')
  {
    forall c | c in w'.stamp
      ensures c in w'.pool.headers && Stamped(w'.pool, w'.changes, w'.pool.headers[c], w'.stamp[c])
    {
      assert Stamped(w.pool, w.changes, w.pool.headers[c], w.stamp[c]);
    }
  }

  /** Arming with a new number. */
  lemma SetArms(w: World, w': World, idx: nat)
    requires Arms(w) && idx < |w.pool.ticks| == |w'.pool.ticks| && w'.pool.curTick == w.pool.curTick
    requires forall i | 0 <= i < |w.pool.ticks| && i != idx :: w'.pool.ticks[i] == w.pool.ticks[i]
    requires w'.arm == w.arm[idx := |w.armings|] && w'.fired == w.fired
    requires w'.armings == w.armings + [Arming(idx, w'.pool.ticks[idx])]
    ensures Arms(w')
  {}

  /** Arming or expiring an allocated timer leaves the free list and the watermark alone. */
  lemma KeepsAllocation(w: World, p': Pool, idx: nat)
    requires Parts(w) && Allocated(w, idx) && |p'.ticks| == |w.pool.ticks| && p'.ticks[idx].exp != TMO_UNUSED
    requires forall i | 0 <= i < |w.pool.ticks| && i != idx :: p'.ticks[i] == w.pool.ticks[i]
    requires p'.timers == w.pool.timers && p'.numAlloc == w.pool.numAlloc
    requires p'.highWm == w.pool.highWm && p'.firstFree == w.pool.firstFree
    ensures FreeList(p', w.free) && UnusedIffFree(p', w.free) && HighWater(p', w.free)
  {
    forall i: nat | i < |w.free| ensures Linked(p'.timers, w.free, i) {
      assert Linked(w.pool.timers, w.free, i);
    }
  }

  /** The history after timer_reset, in terms of what was written. */
  lemma ArmedFacts(w: World, idx: nat, tick: nat, buf: Option<Buf>)
    requires Parts(w) && Allocated(w, idx) && (buf.Some? ==> Holds(w, buf.value, WithCaller))
    requires Reset(w.pool, idx, tick, buf).1
    ensures var (p, _, back) := Reset(w.pool, idx, tick, buf);
            var w' := Armed(w, p, idx, buf, back);
            && |p.ticks| == |w.pool.ticks| && p.ticks[idx].buf.Some?
            && p.ticks == w.pool.ticks[idx := TickBuf(tick, p.ticks[idx].buf)]
            && p.headers.Keys == w.pool.headers.Keys
            && (forall c | c in w.pool.headers && buf != Some(c) :: p.headers[c] == w.pool.headers[c])
            && (if buf.Some? then
                  && w'.place ==
                     Moved(w.place, w.pool.ticks[idx].buf, WithCaller)[p.ticks[idx].buf.value := InTimer(idx)]
                  && p.ticks[idx].buf == buf
                else w.pool.ticks[idx].buf == p.ticks[idx].buf && w'.place == w.place)
  {}

  lemma ArmedStampPlaces(w: World, w': World, idx: nat, b: Buf, fromCaller: bool)
    requires Parts(w) && idx < |w.pool.ticks|
    requires if fromCaller then w'.place == Moved(w.place, w.pool.ticks[idx].buf, WithCaller)[b := InTimer(idx)]
             else w'.place == w.place
    ensures forall c | c in w.stamp && (fromCaller ==> c != b) :: c in w'.place && !w'.place[c].InTimer?
  {}

  lemma InvArmed(w: World, idx: nat, tick: nat, buf: Option<Buf>)
    requires Parts(w) && Allocated(w, idx) && (buf.Some? ==> Holds(w, buf.value, WithCaller))
    requires w.pool.curTick <= tick <= w.pool.curTick + w.pool.maxRel
    requires Reset(w.pool, idx, tick, buf).1
    ensures var (p, _, back) := Reset(w.pool, idx, tick, buf); Parts(Armed(w, p, idx, buf, back))
  {
    var (p, _, back) := Reset(w.pool, idx, tick, buf);
    var w' := Armed(w, p, idx, buf, back);
    ArmedFacts(w, idx, tick, buf);
    var b := p.ticks[idx].buf.value;
    SetHeaders(w, w', idx, buf);
    ArmedParts(w, w', idx, tick, b, buf);
  }

  lemma ArmedParts(w: World, w': World, idx: nat, tick: nat, b: Buf, buf: Option<Buf>)
    requires Parts(w) && Allocated(w, idx) && w.pool.curTick <= tick <= w.pool.curTick + w.pool.maxRel
    requires w'.pool.ticks == w.pool.ticks[idx := TickBuf(tick, Some(b))]
    requires w'.pool == w.pool.(ticks := w'.pool.ticks, headers := w'.pool.headers)
    requires w'.pool.headers.Keys == w.pool.headers.Keys
    requires forall c | c in w.pool.headers && buf != Some(c) :: w'.pool.headers[c] == w.pool.headers[c]
    requires if buf.Some? then
               Holds(w, b, WithCaller) && buf.value == b
               && w'.place == Moved(w.place, w.pool.ticks[idx].buf, WithCaller)[b := InTimer(idx)]
             else w.pool.ticks[idx].buf == Some(b) && w'.place == w.place
    requires w'.free == w.free && w'.changes == w.changes[idx := w.changes[idx] + 1]
    requires w'.stamp == if buf.Some? then w.stamp - {buf.value} else w.stamp
    requires w'.arm == w.arm[idx := |w.armings|] && w'.fired == w.fired
    requires w'.armings == w.armings + [Arming(idx, w'.pool.ticks[idx])]
    requires Headers(w')
    ensures Parts(w')
  {
    SetPlaces(w, w', idx, tick, b, buf.Some?);
    ArmedStampPlaces(w, w', idx, b, buf.Some?);
    SetStamps(w, w', idx, tick, buf);
    SetArms(w, w', idx);
    KeepsAllocation(w, w'.pool, idx);
  }

  lemma SetHeaders(w: World, w': World, idx: nat, buf: Option<Buf>)
    requires Parts(w) && Allocated(w, idx) && (buf.Some? ==> Holds(w, buf.value, WithCaller))
    requires exists tick :: w'.pool == Reset(w.pool, idx, tick, buf).0
    ensures Headers(w')
  {
    if buf.Some? {
      assert At(w.pool, buf.value, WithCaller);
    }
  }

  lemma InvSetAbs(w: World, idx: nat, tick: nat, buf: Option<Buf>)
    requires Inv(w) && Enabled(w, OpSetAbs(idx, tick, buf)) && Ready(w, OpSetAbs(idx, tick, buf))
    ensures Inv(StepSetAbs(w, idx, tick, buf))
  {
    if SetAbs(w.pool, idx, tick, buf).1 == Success {
      var (p, _, back) := Reset(w.pool, idx, tick, buf);
      assert StepSetAbs(w, idx, tick, buf) == Armed(w, p, idx, buf, back);
      Unpack(w);
      InvArmed(w, idx, tick, buf);
      Pack(Armed(w, p, idx, buf, back));
    } else {
      assert StepSetAbs(w, idx, tick, buf) == w;
    }
  }

  /** A relative set that passes the range check is the absolute set at curTick + rel. */
  lemma RelativeIsAbsolute(w: World, idx: nat, rel: nat, buf: Option<Buf>)
    requires Shape(w.pool) && idx < |w.pool.ticks| == |w.changes| == |w.arm|
    ensures StepSetRel(w, idx, rel, buf) == StepSetAbs(w, idx, w.pool.curTick + rel, buf)
  {}

  lemma ExpirePlaces(w: World, idx: nat, tick: nat)
    requires Parts(w) && idx < |w.pool.ticks|
    ensures Places(StepExpire(w, idx, tick))
  {
    var w' := StepExpire(w, idx, tick);
    var TickBuf(exp, buf) := w.pool.ticks[idx];
    if exp <= tick && buf.Some? {
      assert Holds(w, buf.value, InTimer(idx));
      forall c | c in w'.place ensures c in w'.pool.headers && At(w'.pool, c, w'.place[c]) {
        assert At(w.pool, c, w.place[c]);
      }
      forall i | 0 <= i < |w'.pool.ticks| && w'.pool.ticks[i].buf.Some?
        ensures Holds(w', w'.pool.ticks[i].buf.value, InTimer(i))
      {
        assert Holds(w, w.pool.ticks[i].buf.value, InTimer(i));
      }
    }
  }

  lemma ExpireStamps(w: World, idx: nat, tick: nat)
    requires Parts(w) && idx < |w.pool.ticks| && tick < w.pool.curTick
    ensures Stamps(StepExpire(w, idx, tick))
  {
    var w' := StepExpire(w, idx, tick);
    var TickBuf(exp, buf) := w.pool.ticks[idx];
    if exp <= tick && buf.Some? {
      forall c | c in w'.stamp
        ensures c in w'.pool.timeouts && c in w'.place && !w'.place[c].InTimer?
        ensures c in w'.pool.headers && Stamped(w'.pool, w'.changes, w'.pool.headers[c], w'.stamp[c])
      {
        if c != buf.value {
          assert Stamped(w.pool, w.changes, w.pool.headers[c], w.stamp[c]);
        }
      }
    }
  }

  lemma InvExpire(w: World, idx: nat, tick: nat)
    requires Inv(w) && Shape(w.pool) && idx < |w.pool.ticks| == |w.changes| == |w.arm| && tick < w.pool.curTick
    ensures Inv(StepExpire(w, idx, tick))
    ensures StepExpire(w, idx, tick).free == w.free && StepExpire(w, idx, tick).pool.curTick == w.pool.curTick
  {
    var TickBuf(exp, buf) := w.pool.ticks[idx];
    if exp <= tick && buf.Some? {
      Unpack(w);
      ExpirePlaces(w, idx, tick);
      ExpireStamps(w, idx, tick);
      ExpireArms(w, idx, tick);
    ExpireHeaders(w, idx, tick);
      KeepsAllocation(w, StepExpire(w, idx, tick).pool, idx);
      Pack(StepExpire(w, idx, tick));
    } else {
      assert StepExpire(w, idx, tick) == w;
    }
  }

  lemma ExpireArms(w: World, idx: nat, tick: nat)
    requires Parts(w) && idx < |w.pool.ticks| && tick < w.pool.curTick
    ensures Arms(StepExpire(w, idx, tick))
  {}

  lemma ExpireHeaders(w: World, idx: nat, tick: nat)
    requires Parts(w) && idx < |w.pool.ticks| && tick < w.pool.curTick
    ensures Headers(StepExpire(w, idx, tick))
  {}

  lemma {:induction false} InvScan(w: World, tick: nat, n: nat)
    requires Inv(w) && Shape(w.pool) && n <= |w.pool.ticks| == |w.changes| == |w.arm| && tick < w.pool.curTick
    ensures Inv(StepScan(w, tick, n)) && StepScan(w, tick, n).free == w.free
    ensures StepScan(w, tick, n).pool.curTick == w.pool.curTick
  {
    if n > 0 {
      InvScan(w, tick, n - 1);
      var v := StepScan(w, tick, n - 1);
      InvExpire(v, n - 1, tick);
      assert StepScan(w, tick, n) == StepExpire(v, n - 1, tick);
    }
  }

  lemma InvTick(w: World, scan: bool)
    requires Inv(w) && Ready(w, OpTick(scan)) && InTime(w.pool.(curTick := w.pool.curTick + 1))
    ensures Inv(StepTick(w, scan)) && StepTick(w, scan).free == w.free
  {
    var v := w.(pool := w.pool.(curTick := w.pool.curTick + 1));
    assert StepTick(w, scan) == if scan then StepScan(v, w.pool.curTick, w.pool.highWm) else v;
    TickKeeps(w, v);
    if scan {
      InvScan(v, w.pool.curTick, w.pool.highWm);
    }
  }

  lemma TickKeeps(w: World, v: World)
    requires Inv(w) && v == w.(pool := w.pool.(curTick := w.pool.curTick + 1)) && InTime(v.pool)
    ensures Inv(v)
  {
    Unpack(w);
    forall i: nat | i < |v.free| ensures Linked(v.pool.timers, v.free, i) {
      assert Linked(w.pool.timers, w.free, i);
    }
    forall b | b in v.place ensures At(v.pool, b, v.place[b]) {
      assert At(w.pool, b, w.place[b]);
    }
    forall b | b in v.stamp ensures Stamped(v.pool, v.changes, v.pool.headers[b], v.stamp[b]) {
      assert Stamped(w.pool, w.changes, w.pool.headers[b], w.stamp[b]);
    }
    Pack(v);
  }

  lemma ReceivePlaces(w: World, b: Buf)
    requires Parts(w) && b in w.pool.inFlight
    ensures Places(StepReceive(w, b))
  {
    var v := StepReceive(w, b);
    assert Holds(w, b, InFlight);
    forall c | c in v.place ensures c in v.pool.headers && At(v.pool, c, v.place[c]) {
      assert At(w.pool, c, w.place[c]);
      if c == b {
        forall i | 0 <= i < |w.pool.ticks| ensures w.pool.ticks[i].buf != Some(b) {
          assert w.pool.ticks[i].buf == Some(b) ==> Holds(w, b, InTimer(i));
        }
      }
    }
  }

  lemma InvReceive(w: World, b: Buf)
    requires Inv(w) && b in w.pool.inFlight
    ensures Inv(StepReceive(w, b))
  {
    Unpack(w);
    var v := StepReceive(w, b);
    ReceivePlaces(w, b);
    forall c | c in v.stamp
      ensures c in v.place && !v.place[c].InTimer?
      ensures c in v.pool.headers && Stamped(v.pool, v.changes, v.pool.headers[c], v.stamp[c])
    {
      assert Stamped(w.pool, w.changes, w.pool.headers[c], w.stamp[c]);
    }
    forall i: nat | i < |v.free| ensures Linked(v.pool.timers, v.free, i) {
      assert Linked(w.pool.timers, w.free, i);
    }
    assert Arms(v) && Headers(v);
    Pack(v);
  }

  // ---- Whole runs

  /** A new pool of n timers: odp_timer_pool_new, with the buffers all at the caller. */
  predicate Init(w: World) {
    && Shape(w.pool) && InTime(w.pool)
    && w.pool.curTick == w.pool.numAlloc == w.pool.highWm == w.pool.firstFree == 0
    && (forall i | 0 <= i < |w.pool.timers| :: w.pool.timers[i].queue == i + 1)
    && (forall i | 0 <= i < |w.pool.ticks| :: w.pool.ticks[i] == TickBuf(TMO_UNUSED, None))
    && w.pool.inFlight == map[] && w.place.Keys == w.pool.headers.Keys && w.place.Values <= {WithCaller}
    && w.free == seq(|w.pool.timers|, i requires 0 <= i => i)
    && |w.changes| == |w.arm| == |w.pool.ticks|
    && w.stamp == map[] && w.armings == [] && w.fired == []
  }

  /** The history a new pool starts with. */
  function NewWorld(p: Pool): World {
    World(p, seq(|p.timers|, i requires 0 <= i => i), map b | b in p.headers :: WithCaller,
          seq(|p.timers|, _ => 0), map[], [], seq(|p.timers|, _ => 0), [])
  }

  /** One call or tick, with the current tick staying in range. */
  predicate Next(w: World, op: Op, w': World) {
    Ready(w, op) && Enabled(w, op) && w' == Step(w, op) && InTime(w'.pool)
  }

  predicate IsRun(ws: seq<World>, ops: seq<Op>) {
    && |ws| == |ops| + 1 && Init(ws[0])
    && forall i | 0 <= i < |ops| :: Next(ws[i], ops[i], ws[i + 1])
  }

  lemma NewWorldInit(p: Pool)
    requires Shape(p) && InTime(p)
    requires p.curTick == p.numAlloc == p.highWm == p.firstFree == 0 && p.inFlight == map[]
    requires forall i | 0 <= i < |p.timers| :: p.timers[i].queue == i + 1
    requires forall i | 0 <= i < |p.ticks| :: p.ticks[i] == TickBuf(TMO_UNUSED, None)
    ensures Init(NewWorld(p))
  {}

  lemma InvInit(w: World)
    requires Init(w)
    ensures Inv(w)
  {
    forall i: nat | i < |w.free| ensures Linked(w.pool.timers, w.free, i) {
      assert w.free[i] == i;
    }
    forall i | 0 <= i < |w.pool.ticks| ensures i in w.free {
      assert w.free[i] == i;
    }
    forall b | b in w.place ensures At(w.pool, b, w.place[b]) {
      assert w.place[b] in w.place.Values;
    }
    Pack(w);
  }

  /** In a state that keeps the invariant every call a caller may make is defined. */
  lemma NeverStuck(w: World, op: Op)
    requires Inv(w) && Enabled(w, op)
    ensures Ready(w, op)
  {
    Unpack(w);
    if op.OpFree? {
      SomeAllocated(w, op.idx);
    }
  }

  lemma InvStep(w: World, op: Op, w': World)
    requires Inv(w) && Next(w, op, w')
    ensures Inv(w')
  {
    match op
    case OpAlloc(queue, userPtr) => InvAlloc(w, queue, userPtr);
    case OpFree(idx) => InvFree(w, idx);
    case OpSetAbs(idx, tick, buf) => InvSetAbs(w, idx, tick, buf);
    case OpSetRel(idx, rel, buf) =>
      RelativeIsAbsolute(w, idx, rel, buf);
      InvSetAbs(w, idx, w.pool.curTick + rel, buf);
    case OpCancel(idx) => InvCancel(w, idx);
    case OpTick(scan) => InvTick(w, scan);
    case OpReceive(buf) => InvReceive(w, buf);
  }

  lemma ExpireKeepsBuffers(w: World, idx: nat, tick: nat)
    requires Shape(w.pool) && idx < |w.pool.ticks| == |w.changes| == |w.arm| && Places(w)
    ensures StepExpire(w, idx, tick).place.Keys == w.place.Keys
    ensures forall b | b in w.pool.inFlight ::
              b in Expire(w.pool, idx, tick).inFlight && Expire(w.pool, idx, tick).inFlight[b] == w.pool.inFlight[b]
  {
    var buf := w.pool.ticks[idx].buf;
    assert buf.Some? ==> Holds(w, buf.value, InTimer(idx));
    forall b | b in w.pool.inFlight ensures Some(b) != buf {
      assert Holds(w, b, InFlight);
    }
  }

  lemma ScanPlaces(w: World, tick: nat, n: nat)
    requires Inv(w) && Shape(w.pool) && n <= |w.pool.ticks| == |w.changes| == |w.arm| && tick < w.pool.curTick
    ensures Places(StepScan(w, tick, n))
  {
    InvScan(w, tick, n);
    assert Keeps(StepScan(w, tick, n), PlacePart);
  }

  lemma {:induction false} ScanKeepsBuffers(w: World, tick: nat, n: nat)
    requires Inv(w) && Shape(w.pool) && n <= |w.pool.ticks| == |w.changes| == |w.arm| && tick < w.pool.curTick
    ensures StepScan(w, tick, n).place.Keys == w.place.Keys
  {
    if n > 0 {
      ScanKeepsBuffers(w, tick, n - 1);
      ScanPlaces(w, tick, n - 1);
      ExpireKeepsBuffers(StepScan(w, tick, n - 1), n - 1, tick);
    }
  }

  lemma CallKeepsBuffers(w: World, op: Op)
    requires Ready(w, op) && Enabled(w, op) && Places(w) && !op.OpTick?
    ensures Step(w, op).place.Keys == w.place.Keys
    decreases op.OpSetRel?
  {
    match op
    case OpFree(idx) => assert w.pool.ticks[idx].buf.Some? ==> Holds(w, w.pool.ticks[idx].buf.value, InTimer(idx));
    case OpCancel(idx) => assert w.pool.ticks[idx].buf.Some? ==> Holds(w, w.pool.ticks[idx].buf.value, InTimer(idx));
    case OpSetAbs(idx, _, _) =>
      assert w.pool.ticks[idx].buf.Some? ==> Holds(w, w.pool.ticks[idx].buf.value, InTimer(idx));
    case OpSetRel(idx, rel, buf) =>
      RelativeIsAbsolute(w, idx, rel, buf);
      CallKeepsBuffers(w, OpSetAbs(idx, w.pool.curTick + rel, buf));
    case OpReceive(b) => assert Holds(w, b, InFlight);
    case _ =>
  }

  lemma TickKeepsBuffers(w: World, scan: bool)
    requires Inv(w) && Ready(w, OpTick(scan)) && InTime(w.pool.(curTick := w.pool.curTick + 1))
    ensures StepTick(w, scan).place.Keys == w.place.Keys
  {
    if scan {
      var v := w.(pool := w.pool.(curTick := w.pool.curTick + 1));
      TickKeeps(w, v);
      ScanKeepsBuffers(v, w.pool.curTick, w.pool.highWm);
      assert StepTick(w, scan) == StepScan(v, w.pool.curTick, w.pool.highWm);
    }
  }

  lemma StepKeepsBuffers(w: World, op: Op, w': World)
    requires Inv(w) && Next(w, op, w')
    ensures w'.place.Keys == w.place.Keys
  {
    if op.OpTick? {
      TickKeepsBuffers(w, op.scan);
    } else {
      assert Keeps(w, PlacePart);
      CallKeepsBuffers(w, op);
    }
  }

  /** Every state of every run keeps the invariant. */
  lemma {:induction false} InvRun(ws: seq<World>, ops: seq<Op>, i: nat)
    requires IsRun(ws, ops) && i < |ws|
    ensures Inv(ws[i]) && ws[i].place.Keys == ws[0].place.Keys
  {
    if i == 0 {
      InvInit(ws[0]);
    } else {
      InvRun(ws, ops, i - 1);
      assert Next(ws[i - 1], ops[i - 1], ws[i]);
      InvStep(ws[i - 1], ops[i - 1], ws[i]);
      StepKeepsBuffers(ws[i - 1], ops[i - 1], ws[i]);
    }
  }

  /** The timers that hold buffer b. */
  function HeldBy(p: Pool, b: Buf): set<nat> {
    set i: nat | i < |p.ticks| && p.ticks[i].buf == Some(b)
  }

  /**
   Conservation. In every state of every run each buffer the application started with is in exactly one place: one
   timer, posted, or back with the caller; and a timer holds a buffer iff its tick lacks the inactive bit.
   */
  lemma BufferConservation(ws: seq<World>, ops: seq<Op>, i: nat, b: Buf)
    requires IsRun(ws, ops) && i < |ws| && b in ws[0].place
    ensures b in ws[i].place
    ensures |HeldBy(ws[i].pool, b)| + (if b in ws[i].pool.inFlight then 1 else 0)
            + (if ws[i].place[b] == WithCaller then 1 else 0) == 1
    ensures ActiveIffBuffer(ws[i].pool)
  {
    InvRun(ws, ops, i);
    Unpack(ws[i]);
    var w := ws[i];
    assert b in w.place.Keys;
    assert At(w.pool, b, w.place[b]);
    assert forall j | 0 <= j < |w.pool.ticks| && w.pool.ticks[j].buf == Some(b) :: Holds(w, b, InTimer(j));
    assert b in w.pool.inFlight ==> Holds(w, b, InFlight);
    if w.place[b].InTimer? {
      assert HeldBy(w.pool, b) == {w.place[b].idx};
    } else {
      assert HeldBy(w.pool, b) == {};
    }
  }

  /**
   Never early, never twice. Every timeout posted in a run belongs to one successful set of its timer, with the
   tick and the buffer of that set; it was found at a tick not before that one and below the current tick; and no
   two posts belong to the same set.
   */
  lemma NeverEarlyNeverTwice(ws: seq<World>, ops: seq<Op>, i: nat)
    requires IsRun(ws, ops) && i < |ws|
    ensures forall k | 0 <= k < |ws[i].fired| :: FiredRight(ws[i].armings, ws[i].pool.curTick, ws[i].fired[k])
    ensures forall k, l | 0 <= k < l < |ws[i].fired| :: ws[i].fired[k].arm != ws[i].fired[l].arm
  {
    InvRun(ws, ops, i);
    Unpack(ws[i]);
  }

  /** The call is a set of timer a.timer for tick a.what.exp, with the buffer given or else the one held. */
  predicate Asks(p: Pool, op: Op, a: Arming) {
    && (op.OpSetAbs? || op.OpSetRel?) && op.idx == a.timer < |p.ticks|
    && a.what.exp == (if op.OpSetRel? then p.curTick + op.tick else op.tick)
    && p.curTick + p.minRel <= a.what.exp <= p.curTick + p.maxRel
    && a.what.buf == (if op.buf.Some? then op.buf else p.ticks[a.timer].buf)
  }

  /** Every arming was asked for, with its very tick and buffer, by the call that was made when it got its number. */
  lemma {:induction false} ArmedByCall(ws: seq<World>, ops: seq<Op>, i: nat, k: nat) returns (j: nat)
    requires IsRun(ws, ops) && i < |ws| && k < |ws[i].armings|
    ensures j < i && |ws[j].armings| == k && Asks(ws[j].pool, ops[j], ws[i].armings[k])
  {
    assert Next(ws[i - 1], ops[i - 1], ws[i]);
    ArmingsGrow(ws[i - 1], ops[i - 1]);
    if k < |ws[i - 1].armings| {
      j := ArmedByCall(ws, ops, i - 1, k);
    } else {
      j := i - 1;
    }
  }

  lemma ArmingsGrow(w: World, op: Op)
    requires Ready(w, op) && Enabled(w, op)
    ensures var w' := Step(w, op);
            || w'.armings == w.armings
            || (|w'.armings| == |w.armings| + 1 && w'.armings[..|w.armings|] == w.armings
                && Asks(w.pool, op, w'.armings[|w.armings|]))
  {
    if op.OpTick? && op.scan {
      var v := w.(pool := w.pool.(curTick := w.pool.curTick + 1));
      ScanArmsNothing(v, w.pool.curTick, w.pool.highWm);
    }
  }

  lemma {:induction false} ScanArmsNothing(w: World, tick: nat, n: nat)
    requires Shape(w.pool) && n <= |w.pool.ticks| == |w.changes| == |w.arm|
    ensures StepScan(w, tick, n).armings == w.armings
  {
    if n > 0 {
      ScanArmsNothing(w, tick, n - 1);
    }
  }

  /**
   Never early, in the caller's terms: each posted timeout was asked for by a call at some step j of the run, which
   names the timer, the buffer and a tick not after the one that found it; different posts have different calls.
   */
  lemma PostedAsAsked(ws: seq<World>, ops: seq<Op>, i: nat, k: nat) returns (j: nat)
    requires IsRun(ws, ops) && i < |ws| && k < |ws[i].fired|
    ensures var f := ws[i].fired[k];
            && j < i && |ws[j].armings| == f.arm && Asks(ws[j].pool, ops[j], Arming(f.timer, f.what))
            && f.what.exp <= f.at < ws[i].pool.curTick
  {
    NeverEarlyNeverTwice(ws, ops, i);
    j := ArmedByCall(ws, ops, i, ws[i].fired[k].arm);
  }

  function TicksIn(ops: seq<Op>): nat {
    if ops == [] then 0 else TicksIn(ops[..|ops| - 1]) + if ops[|ops| - 1].OpTick? then 1 else 0
  }

  /** The current tick is the number of notifications so far, with or without a scan. */
  lemma {:induction false} TickCounts(ws: seq<World>, ops: seq<Op>, i: nat)
    requires IsRun(ws, ops) && i < |ws|
    ensures ws[i].pool.curTick == TicksIn(ops[..i])
  {
    if i > 0 {
      TickCounts(ws, ops, i - 1);
      assert Next(ws[i - 1], ops[i - 1], ws[i]);
      TickOf(ws[i - 1], ops[i - 1]);
      assert ops[..i][..i - 1] == ops[..i - 1];
    }
  }

  lemma TickOf(w: World, op: Op)
    requires Ready(w, op) && Enabled(w, op)
    ensures Step(w, op).pool.curTick == w.pool.curTick + if op.OpTick? then 1 else 0
  {}

  // ---- The scan reaches everything

  /** After the scan of the first n timers none of them is left armed at or before the tick; the rest is untouched. */
  lemma {:induction false} ScanEffect(p: Pool, tick: nat, n: nat, i: nat)
    requires Shape(p) && ActiveIffBuffer(p) && n <= |p.ticks| && i < |p.ticks| && tick < TMO_INACTIVE
    ensures var t, t' := p.ticks[i], Scan(p, tick, n).ticks[i];
            if i < n && t.buf.Some? && t.exp <= tick then t' == TickBuf(t.exp + TMO_INACTIVE, None) else t' == t
  {
    if n > 0 {
      ScanEffect(p, tick, n - 1, i);
    }
  }

  /** No buffer is in two timers, or in a timer and in flight. */
  predicate Separate(p: Pool) {
    && (forall i, j | 0 <= i < j < |p.ticks| && p.ticks[i].buf.Some? :: p.ticks[i].buf != p.ticks[j].buf)
    && (forall i | 0 <= i < |p.ticks| && p.ticks[i].buf.Some? :: p.ticks[i].buf.value !in p.inFlight)
  }

  lemma SeparateBuffers(w: World)
    requires Places(w)
    ensures Separate(w.pool)
  {
    var p := w.pool;
    forall i | 0 <= i < |p.ticks| && p.ticks[i].buf.Some?
      ensures p.ticks[i].buf.value !in p.inFlight && Holds(w, p.ticks[i].buf.value, InTimer(i))
    {
      assert Holds(w, p.ticks[i].buf.value, InTimer(i));
      assert p.ticks[i].buf.value in p.inFlight ==> Holds(w, p.ticks[i].buf.value, InFlight);
    }
  }

  /** Every timeout the scan takes out of a timer is posted to that timer's queue, and what was posted stays. */
  lemma {:induction false} ScanPosts(p: Pool, tick: nat, n: nat)
    requires Shape(p) && Separate(p) && n <= |p.ticks|
    ensures var q := Scan(p, tick, n);
            && Separate(q)
            && (forall i | 0 <= i < |p.ticks| && i >= n :: q.ticks[i] == p.ticks[i])
            && (forall i | 0 <= i < n && p.ticks[i].buf.Some? && p.ticks[i].exp <= tick ::
                  && p.ticks[i].buf.value in q.inFlight
                  && q.inFlight[p.ticks[i].buf.value] == p.timers[i].queue)
  {
    if n > 0 {
      ScanPosts(p, tick, n - 1);
      ExpireSeparate(Scan(p, tick, n - 1), n - 1, tick);
    }
  }

  lemma ExpireSeparate(p: Pool, idx: nat, tick: nat)
    requires Shape(p) && Separate(p) && idx < |p.ticks|
    ensures Separate(Expire(p, idx, tick))
    ensures forall b | b in p.inFlight ::
              b in Expire(p, idx, tick).inFlight && Expire(p, idx, tick).inFlight[b] == p.inFlight[b]
  {}

  /**
   Completeness. In any run, however many earlier ticks skipped their scan, a tick that scans leaves no allocated
   timer armed at or before it, and posts the timeout of every one that was; timers armed for later are untouched.
   */
  lemma ScanComplete(ws: seq<World>, ops: seq<Op>, k: nat, idx: nat)
    requires IsRun(ws, ops) && k < |ops| && ops[k] == OpTick(true) && Allocated(ws[k], idx)
    ensures |ws[k + 1].pool.ticks| == |ws[k].pool.ticks|
    ensures var w, w' := ws[k], ws[k + 1];
            var t, t' := w.pool.ticks[idx], w'.pool.ticks[idx];
            && Allocated(w', idx)
            && (t.buf.Some? && t.exp <= w.pool.curTick ==>
                  && t' == TickBuf(t.exp + TMO_INACTIVE, None)
                  && t.buf.value in w'.pool.inFlight
                  && w'.pool.inFlight[t.buf.value] == w.pool.timers[idx].queue)
            && (!(t.buf.Some? && t.exp <= w.pool.curTick) ==> t' == t)
            && !(t'.buf.Some? && t'.exp <= w.pool.curTick)
  {
    InvRun(ws, ops, k);
    Unpack(ws[k]);
    var w := ws[k];
    assert Next(ws[k], ops[k], ws[k + 1]);
    var v := w.(pool := w.pool.(curTick := w.pool.curTick + 1));
    assert ws[k + 1] == StepScan(v, w.pool.curTick, w.pool.highWm);
    TickKeeps(w, v);
    InvScan(v, w.pool.curTick, w.pool.highWm);
    AllocatedBelowHighWm(w, idx);
    ScanEffect(v.pool, w.pool.curTick, w.pool.highWm, idx);
    assert Keeps(v, PlacePart) && Keeps(ws[k + 1], FreePart);
    SeparateBuffers(v);
    ScanPosts(v.pool, w.pool.curTick, w.pool.highWm);
  }

  /** Under every history the free list holds exactly the timers not allocated, and those lie below the watermark. */
  lemma AllocationConsistent(ws: seq<World>, ops: seq<Op>, k: nat, idx: nat)
    requires IsRun(ws, ops) && k < |ws| && idx < |ws[k].pool.ticks|
    ensures FreeList(ws[k].pool, ws[k].free)
    ensures idx in ws[k].free <==> ws[k].pool.ticks[idx].exp == TMO_UNUSED
    ensures idx !in ws[k].free ==> idx < ws[k].pool.highWm
  {
    InvRun(ws, ops, k);
    Unpack(ws[k]);
    FreeAboveHighWm(ws[k].pool, ws[k].free, idx);
  }

  /**
   An allocated timer has the queue and user pointer that the call gave which allocated it last, at some step j of the
   run; so its timeouts are posted to that queue.
   */
  lemma {:induction false} QueueAsAsked(ws: seq<World>, ops: seq<Op>, i: nat, idx: nat) returns (j: nat)
    requires IsRun(ws, ops) && i < |ws| && Allocated(ws[i], idx)
    ensures j < i && AllocatesIn(ws[j], ops[j], idx) && idx < |ws[i].pool.timers|
    ensures ws[i].pool.timers[idx] == Timer(ops[j].queue, ops[j].userPtr)
    ensures forall k | j < k <= i :: Allocated(ws[k], idx)
  {
    InvRun(ws, ops, i);
    Unpack(ws[i]);
    NoneAllocated(ws[0], idx);
    InvRun(ws, ops, i - 1);
    assert Next(ws[i - 1], ops[i - 1], ws[i]);
    AllocationStep(ws[i - 1], ops[i - 1], idx);
    if Allocated(ws[i - 1], idx) {
      j := QueueAsAsked(ws, ops, i - 1, idx);
    } else {
      j := i - 1;
    }
  }

  lemma NoneAllocated(w: World, idx: nat)
    requires Init(w)
    ensures !Allocated(w, idx)
  {
    if idx < |w.free| {
      assert w.free[idx] == idx;
    }
  }

  /** The call allocates timer idx. */
  predicate AllocatesIn(w: World, op: Op, idx: nat) {
    && op.OpAlloc? && Shape(w.pool) && FreeLeft(w.pool)
    && Alloc(w.pool, op.queue, op.userPtr).1 == Some(idx) && !Allocated(w, idx)
  }

  lemma AllocationStep(w: World, op: Op, idx: nat)
    requires Inv(w) && Ready(w, op) && Enabled(w, op) && Allocated(Step(w, op), idx)
    ensures var w' := Step(w, op);
            && idx < |w.pool.timers| == |w'.pool.timers|
            && if Allocated(w, idx) then w'.pool.timers[idx] == w.pool.timers[idx]
               else AllocatesIn(w, op, idx) && w'.pool.timers[idx] == Timer(op.queue, op.userPtr)
  {
    match op
    case OpAlloc(queue, userPtr) =>
      Unpack(w);
      AllocTakesFirst(w, queue, userPtr, idx);
    case OpFree(i) => assert [i] + w.free == StepFree(w, i).free;
    case _ => TimersKept(w, op);
  }

  lemma TimersKept(w: World, op: Op)
    requires Ready(w, op) && Enabled(w, op) && !op.OpAlloc? && !op.OpFree?
    ensures var w' := Step(w, op);
            w'.free == w.free && w'.pool.timers == w.pool.timers && |w'.pool.ticks| == |w.pool.ticks|
  {
    if op.OpTick? && op.scan {
      ScanKeepsFree(w.(pool := w.pool.(curTick := w.pool.curTick + 1)), w.pool.curTick, w.pool.highWm);
    }
  }

  lemma AllocTakesFirst(w: World, queue: nat, userPtr: nat, idx: nat)
    requires Parts(w) && Ready(w, OpAlloc(queue, userPtr)) && Allocated(StepAlloc(w, queue, userPtr), idx)
    ensures var w' := StepAlloc(w, queue, userPtr);
            if Allocated(w, idx) then w'.pool.timers[idx] == w.pool.timers[idx]
            else AllocatesIn(w, OpAlloc(queue, userPtr), idx) && w'.pool.timers[idx] == Timer(queue, userPtr)
  {
    if w.free != [] {
      assert w.free[0] in w.free;
    }
  }

  lemma {:induction false} ScanKeepsFree(w: World, tick: nat, n: nat)
    requires Shape(w.pool) && n <= |w.pool.ticks| == |w.changes| == |w.arm|
    ensures StepScan(w, tick, n).free == w.free
  {
    if n > 0 {
      ScanKeepsFree(w, tick, n - 1);
    }
  }

  // ---- Freshness

  /**
   A posted timeout tests fresh iff since it expired its timer was not successfully set and neither cancel nor free
   was called on it -- or its expiration is tick 0 and the timer stands cancelled, which the encoding cannot tell from
   expired at 0.
   */
  lemma FreshIff(ws: seq<World>, ops: seq<Op>, k: nat, b: Buf)
    requires IsRun(ws, ops) && k < |ws| && b in ws[k].stamp
    ensures b in ws[k].pool.headers && ws[k].pool.headers[b].timer < |ws[k].pool.ticks| == |ws[k].changes|
    ensures var w := ws[k];
            var h := w.pool.headers[b];
            var unchanged' := w.changes[h.timer] == w.stamp[b];
            && (Fresh(w.pool, b) <==>
                  unchanged' || (h.expiration == 0 && w.pool.ticks[h.timer].exp == TMO_INACTIVE))
            && (h.expiration != 0 ==> (Fresh(w.pool, b) <==> unchanged'))
  {
    InvRun(ws, ops, k);
    Unpack(ws[k]);
    var w := ws[k];
    assert Stamped(w.pool, w.changes, w.pool.headers[b], w.stamp[b]);
    var h := w.pool.headers[b];
    var exp := w.pool.ticks[h.timer].exp;
    if w.changes[h.timer] == w.stamp[b] {
      assert Tick63(exp) == h.expiration;
    } else {
      assert exp == TMO_INACTIVE ==> Tick63(exp) == 0;
      assert exp == TMO_UNUSED ==> Tick63(exp) == TMO_INACTIVE - 1;
    }
  }

  /**
   A cancel call counts even when there is nothing to cancel: a fresh timeout's timer holds no buffer, so the call
   fails, and from then on the timeout tests stale unless it expired at tick 0.
   */
  lemma FailedCancelMakesStale(ws: seq<World>, ops: seq<Op>, k: nat, b: Buf)
    requires IsRun(ws, ops) && k < |ws| && b in ws[k].stamp && b in ws[k].pool.headers
    requires ws[k].pool.headers[b].timer < |ws[k].pool.ticks| && ws[k].pool.headers[b].expiration != 0
    requires Fresh(ws[k].pool, b) && Allocated(ws[k], ws[k].pool.headers[b].timer)
    ensures var w, idx := ws[k], ws[k].pool.headers[b].timer;
            && Ready(w, OpCancel(idx)) && CancelTo(w.pool, idx, TMO_INACTIVE).1 == None
            && b in StepCancel(w, idx).stamp && !Fresh(StepCancel(w, idx).pool, b)
  {
    var w, idx := ws[k], ws[k].pool.headers[b].timer;
    InvRun(ws, ops, k);
    NeverStuck(w, OpCancel(idx));
    FreshIff(ws, ops, k, b);
    Unpack(w);
    assert Stamped(w.pool, w.changes, w.pool.headers[b], w.stamp[b]);
  }

  /** A posted timeout whose timer was changed since it expired, and which still tests fresh. */
  predicate StaleYetFresh(w: World, b: Buf) {
    && b in w.stamp && b in w.pool.headers && w.pool.headers[b].timer < |w.pool.ticks| == |w.changes|
    && w.changes[w.pool.headers[b].timer] != w.stamp[b] && Fresh(w.pool, b)
  }

  /** Cancelling leaves every timeout of that timer that expired at tick 0 testing fresh. */
  lemma CancelledAtTickZero(w: World, b: Buf)
    requires Parts(w) && b in w.stamp && w.pool.headers[b].expiration == 0
    requires Allocated(w, w.pool.headers[b].timer)
    ensures StaleYetFresh(StepCancel(w, w.pool.headers[b].timer), b)
  {
    assert Stamped(w.pool, w.changes, w.pool.headers[b], w.stamp[b]);
  }

  /** The pool of one timer and one timeout in which a timeout expires at tick 0; its first and last states. */
  const NEW_POOL := Pool(0, 0, 10, [TickBuf(TMO_UNUSED, None)], [Timer(1, 0)], 0, 0, 0,
                         map[7 := Header(0, 0, 0)], map[], {7})
  const NEW_WORLD := World(NEW_POOL, [0], map[7 := WithCaller], [0], map[], [], [0], [])

  lemma ZeroArmed() returns (w1: World, w2: World)
    ensures Init(NEW_WORLD) && Next(NEW_WORLD, OpAlloc(3, 4), w1) && Next(w1, OpSetAbs(0, 0, Some(7)), w2)
    ensures w2.pool == NEW_POOL.(ticks := [TickBuf(0, Some(7))], timers := [Timer(3, 4)], highWm := 1, numAlloc := 1,
                                 firstFree := 1, headers := map[7 := Header(0, 4, 0)])
    ensures |w2.changes| == |w2.arm| == 1 && w2.free == [] && w2.place == map[7 := InTimer(0)]
  {
    var w0 := NEW_WORLD;
    assert w0.free == seq(|NEW_POOL.timers|, i requires 0 <= i => i);
    w1 := StepAlloc(w0, 3, 4);
    assert w1.pool.ticks == [TickBuf(TMO_INACTIVE, None)] && w1.pool.timers == [Timer(3, 4)] && w1.free == [];
    w2 := StepSetAbs(w1, 0, 0, Some(7));
  }

  lemma ZeroExpired(w2: World) returns (w3: World)
    requires w2.pool == NEW_POOL.(ticks := [TickBuf(0, Some(7))], timers := [Timer(3, 4)], highWm := 1, numAlloc := 1,
                                  firstFree := 1, headers := map[7 := Header(0, 4, 0)])
    requires |w2.changes| == |w2.arm| == 1 && w2.free == [] && w2.place == map[7 := InTimer(0)]
    ensures Next(w2, OpTick(true), w3) && 7 in w3.stamp && 7 in w3.pool.headers && 7 in w3.place
    ensures w3.pool.headers[7].expiration == 0 && w3.pool.headers[7].timer == 0 && Allocated(w3, 0)
  {
    w3 := StepTick(w2, true);
    var v := w2.(pool := w2.pool.(curTick := 1));
    assert StepScan(v, 0, 0) == v;
    assert w3 == StepExpire(v, 0, 0);
  }

  lemma RunExtends(ws: seq<World>, ops: seq<Op>, op: Op, w': World)
    requires IsRun(ws, ops) && Next(ws[|ops|], op, w')
    ensures IsRun(ws + [w'], ops + [op])
  {}

  lemma ZeroRun() returns (ws: seq<World>, ops: seq<Op>)
    ensures IsRun(ws, ops) && 7 in ws[|ops|].stamp && 7 in ws[|ops|].pool.headers
    ensures ws[|ops|].pool.headers[7].expiration == 0 && Allocated(ws[|ops|], ws[|ops|].pool.headers[7].timer)
  {
    var w1, w2 := ZeroArmed();
    var w3 := ZeroExpired(w2);
    ws, ops := [NEW_WORLD], [];
    RunExtends(ws, ops, OpAlloc(3, 4), w1);
    ws, ops := ws + [w1], ops + [OpAlloc(3, 4)];
    RunExtends(ws, ops, OpSetAbs(0, 0, Some(7)), w2);
    ws, ops := ws + [w2], ops + [OpSetAbs(0, 0, Some(7))];
    RunExtends(ws, ops, OpTick(true), w3);
    ws, ops := ws + [w3], ops + [OpTick(true)];
  }

  /** Such a state is reached: armed for tick 0, expired, then cancelled, the timeout tests fresh. */
  lemma StaleAtTickZero()
    ensures exists ws, ops, b: Buf :: IsRun(ws, ops) && StaleYetFresh(ws[|ops|], b)
  {
    var ws, ops := ZeroRun();
    var w := ws[|ops|];
    var idx := w.pool.headers[7].timer;
    InvRun(ws, ops, |ops|);
    Unpack(w);
    CancelledAtTickZero(w, 7);
    NeverStuck(w, OpCancel(idx));
    RunExtends(ws, ops, OpCancel(idx), StepCancel(w, idx));
    assert StaleYetFresh((ws + [StepCancel(w, idx)])[|ops + [OpCancel(idx)]|], 7);
  }
}
