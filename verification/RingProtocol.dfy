/**
 The lock-free ring as a step relation: any number of producers and consumers, each memory access one step.

 The four indices of the struct are 32 bits wide and wrap. The state keeps them unbounded; memory holds their
 W32 images, and every decision a thread takes below is computed from those images only. The two sequences
 `put` and `taken` are history: the items in producer-reservation order, and the items handed to consumers in
 consumer-reservation order.
 */
module RingProtocol {
  import opened Words

  /** The objects are opaque pointers. */
  type Ptr = nat

  /** sp and sc say that the ring is used through the single-producer, single-consumer entry points. */
  datatype Config = Config(size: nat, watermark: nat, sp: bool, sc: bool)

  ghost predicate ValidConfig(c: Config) {
    IsPow2(c.size) && 0 < c.size <= 0x0FFF_FFFF
  }

  datatype Mode = Fixed | Variable

  datatype Pc =
    | Idle
    | EnqStart(objs: seq<Ptr>, mode: Mode)
    | EnqHead(objs: seq<Ptr>, mode: Mode, head: nat)
    | EnqTail(objs: seq<Ptr>, mode: Mode, head: nat, tail: nat)
    | EnqCopy(objs: seq<Ptr>, mode: Mode, head: nat, free: nat, n: nat, done: nat)
    | EnqDone(objs: seq<Ptr>, mode: Mode, n: nat, quota: bool)
    | EnqRefused(objs: seq<Ptr>, mode: Mode)
    | DeqStart(max: nat, mode: Mode)
    | DeqHead(max: nat, mode: Mode, head: nat)
    | DeqTail(max: nat, mode: Mode, head: nat, tail: nat)
    | DeqCopy(max: nat, mode: Mode, head: nat, n: nat, out: seq<Ptr>)
    | DeqDone(max: nat, mode: Mode, head: nat, out: seq<Ptr>)
    | DeqRefused(max: nat, mode: Mode)
    | QueryStart
    | QueryHalf(prod: nat)
    | QueryDone(prod: nat, cons: nat)

  predicate Enqueuing(pc: Pc) {
    pc.EnqStart? || pc.EnqHead? || pc.EnqTail? || pc.EnqCopy?
  }

  predicate Dequeuing(pc: Pc) {
    pc.DeqStart? || pc.DeqHead? || pc.DeqTail? || pc.DeqCopy?
  }

  /** The ring in memory, with the two histories. */
  datatype Mem = Mem(
    slots: seq<Ptr>, prodHead: nat, prodTail: nat, consHead: nat, consTail: nat,
    put: seq<Ptr>, taken: seq<Ptr>)

  datatype State = State(mem: Mem, threads: seq<Pc>)

  /** Room not yet reserved by a producer, and published entries not yet reserved by a consumer. */
  function Room(c: Config, m: Mem): int {
    c.size - 1 + m.consTail - m.prodHead
  }

  function Entries(m: Mem): int {
    m.prodTail - m.consHead
  }

  function FreeEntries(c: Config, head: nat, tail: nat): nat {
    W32(c.size - 1 + W32(tail) - W32(head))
  }

  function UsedEntries(head: nat, tail: nat): nat {
    W32(W32(tail) - W32(head))
  }

  /** How much of a request for `want` is served when `avail` are available; 0 refuses the call. */
  function Grant(want: nat, avail: nat, mode: Mode): (n: nat)
    ensures n <= want && n <= avail
  {
    if want <= avail then want else if mode.Fixed? then 0 else avail
  }

  /** The least availability with which a call cannot be refused. */
  function Need(want: nat, mode: Mode): nat {
    if mode.Fixed? then want else 1
  }

  /** The slot of index k, that is k mod size (SlotIsMasked). */
  function Slot(c: Config, k: nat): (i: nat)
    requires 0 < c.size
    ensures i < c.size
  {
    if k < c.size then k else Slot(c, k - c.size)
  }

  // ---- Steps

  datatype Action =
    | CallEnqueue(objs: seq<Ptr>, mode: Mode)
    | CallDequeue(max: nat, mode: Mode)
    | CallQuery
    | Proceed

  ghost predicate Enabled(c: Config, s: State, t: nat, a: Action) {
    && t < |s.threads|
    && |s.mem.slots| == c.size > 0
    && match a
       case CallEnqueue(objs, _) =>
         && s.threads[t].Idle? && 1 <= |objs| < TWO32
         && (c.sp ==> forall u | 0 <= u < |s.threads| :: !Enqueuing(s.threads[u]))
       case CallDequeue(max, _) =>
         && s.threads[t].Idle? && 1 <= max < TWO32
         && (c.sc ==> forall u | 0 <= u < |s.threads| :: !Dequeuing(s.threads[u]))
       case CallQuery => s.threads[t].Idle?
       case Proceed => !s.threads[t].Idle?
  }

  /** Compute free_entries, then compare-and-swap prod.head (a plain store in the single-producer form). */
  function Reserve(c: Config, m: Mem, pc: Pc): (Mem, Pc)
    requires pc.EnqTail?
  {
    var EnqTail(objs, mode, head, tail) := pc;
    var free := FreeEntries(c, head, tail);
    var n := Grant(|objs|, free, mode);
    if n == 0 then
      (m, EnqRefused(objs, mode))
    else if c.sp || W32(m.prodHead) == W32(head) then
      (m.(prodHead := head + n, put := m.put + objs[..n]), EnqCopy(objs, mode, head, free, n, 0))
    else
      (m, EnqStart(objs, mode))
  }

  /** Store one slot, or, when all are stored, wait for the turn and publish prod.tail. */
  function StoreOrPublish(c: Config, m: Mem, pc: Pc): (Mem, Pc)
    requires pc.EnqCopy? && |m.slots| == c.size > 0
  {
    var EnqCopy(objs, mode, head, free, n, done) := pc;
    if done < n then
      var item := if done < |objs| then objs[done] else 0;
      (m.(slots := m.slots[Slot(c, head + done) := item]), EnqCopy(objs, mode, head, free, n, done + 1))
    else if c.sp || W32(m.prodTail) == W32(head) then
      (m.(prodTail := head + n), EnqDone(objs, mode, n, W32(c.size - free + n) > c.watermark))
    else
      (m, pc)
  }

  /** Compute entries, then compare-and-swap cons.head (a plain store in the single-consumer form). */
  function Claim(c: Config, m: Mem, pc: Pc): (Mem, Pc)
    requires pc.DeqTail?
  {
    var DeqTail(max, mode, head, tail) := pc;
    var n := Grant(max, UsedEntries(head, tail), mode);
    if n == 0 then
      (m, DeqRefused(max, mode))
    else if c.sc || W32(m.consHead) == W32(head) then
      (m.(consHead := head + n), DeqCopy(max, mode, head, n, []))
    else
      (m, DeqStart(max, mode))
  }

  /** Load one slot, or, when all are loaded, wait for the turn and release cons.tail. */
  function LoadOrRelease(c: Config, m: Mem, pc: Pc): (Mem, Pc)
    requires pc.DeqCopy? && |m.slots| == c.size > 0
  {
    var DeqCopy(max, mode, head, n, out) := pc;
    if |out| < n then
      (m, DeqCopy(max, mode, head, n, out + [m.slots[Slot(c, head + |out|)]]))
    else if c.sc || W32(m.consTail) == W32(head) then
      (m.(consTail := head + n, taken := m.taken + out), DeqDone(max, mode, head, out))
    else
      (m, pc)
  }

  function Advance(c: Config, m: Mem, pc: Pc): (Mem, Pc)
    requires |m.slots| == c.size > 0
  {
    match pc
    case EnqStart(objs, mode) => (m, EnqHead(objs, mode, m.prodHead))
    case EnqHead(objs, mode, head) => (m, EnqTail(objs, mode, head, m.consTail))
    case EnqTail(_, _, _, _) => Reserve(c, m, pc)
    case EnqCopy(_, _, _, _, _, _) => StoreOrPublish(c, m, pc)
    case DeqStart(max, mode) => (m, DeqHead(max, mode, m.consHead))
    case DeqHead(max, mode, head) => (m, DeqTail(max, mode, head, m.prodTail))
    case DeqTail(_, _, _, _) => Claim(c, m, pc)
    case DeqCopy(_, _, _, _, _) => LoadOrRelease(c, m, pc)
    case QueryStart => (m, QueryHalf(m.prodTail))
    case QueryHalf(prod) => (m, QueryDone(prod, m.consTail))
    case _ => (m, Idle)
  }

  function Apply(c: Config, m: Mem, pc: Pc, a: Action): (Mem, Pc)
    requires |m.slots| == c.size > 0
  {
    match a
    case CallEnqueue(objs, mode) => (m, EnqStart(objs, mode))
    case CallDequeue(max, mode) => (m, DeqStart(max, mode))
    case CallQuery => (m, QueryStart)
    case Proceed => Advance(c, m, pc)
  }

  /** No attempt is overtaken by a full turn of 2^32 indices between its reads and its compare-and-swap. */
  predicate Recent(m: Mem, pc: Pc) {
    && (pc.EnqHead? || pc.EnqTail? ==> m.prodHead - pc.head < TWO32)
    && (pc.DeqHead? || pc.DeqTail? ==> m.consHead - pc.head < TWO32)
  }

  ghost predicate NoStall(s: State) {
    forall t | 0 <= t < |s.threads| :: Recent(s.mem, s.threads[t])
  }

  ghost predicate Init(c: Config, s: State) {
    && |s.mem.slots| == c.size
    && s.mem == Mem(s.mem.slots, 0, 0, 0, 0, [], [])
    && forall t | 0 <= t < |s.threads| :: s.threads[t].Idle?
  }

  ghost predicate NextBy(c: Config, s: State, s': State, t: nat, a: Action) {
    && Enabled(c, s, t, a)
    && var (m, pc) := Apply(c, s.mem, s.threads[t], a);
       s' == State(m, s.threads[t := pc])
  }

  ghost predicate Next(c: Config, s: State, s': State) {
    NoStall(s') && exists t: nat, a :: NextBy(c, s, s', t, a)
  }

  ghost predicate IsRun(c: Config, run: seq<State>) {
    && ValidConfig(c)
    && |run| > 0 && Init(c, run[0])
    && forall i | 0 <= i < |run| - 1 :: Next(c, run[i], run[i + 1])
  }

  // ---- The invariant

  /** The order of the indices; what was taken is what was put first. */
  ghost predicate Window(c: Config, m: Mem) {
    && |m.slots| == c.size
    && m.consTail <= m.consHead <= m.prodTail <= m.prodHead <= m.consTail + c.size - 1
    && |m.put| == m.prodHead && m.consTail == |m.taken|
    && IsPart(m.put, 0, m.taken)
  }

  predicate IsPart(items: seq<Ptr>, from: nat, part: seq<Ptr>) {
    from + |part| <= |items| && part == items[from..from + |part|]
  }

  /** The slot of index k holds the item that was put there. */
  predicate Holds(c: Config, m: Mem, k: nat) {
    0 < c.size == |m.slots| && k < |m.put| && m.slots[Slot(c, k)] == m.put[k]
  }

  ghost predicate Published(c: Config, m: Mem) {
    forall k: nat | m.consTail <= k < m.prodTail :: Holds(c, m, k)
  }

  /** What a thread may rely on: values it has read are old but were true once, reservations are its own. */
  ghost predicate Own(c: Config, m: Mem, pc: Pc) {
    match pc
    case EnqStart(objs, _) => 1 <= |objs|
    case EnqHead(objs, _, head) =>
      1 <= |objs| && head <= m.prodHead && head <= m.consTail + c.size - 1 && (c.sp ==> head == m.prodHead)
    case EnqTail(objs, _, head, tail) =>
      && 1 <= |objs| && head <= m.prodHead && tail <= m.consTail && head <= tail + c.size - 1
      && (c.sp ==> head == m.prodHead)
    case EnqCopy(objs, mode, head, free, n, done) =>
      && (mode.Fixed? ==> n == |objs|)
      && 1 <= n <= |objs| && done <= n <= free < c.size
      && m.prodTail <= head && head + n <= m.prodHead
      && IsPart(m.put, head, objs[..n])
      && forall k: nat | head <= k < head + done :: Holds(c, m, k)
    case EnqDone(objs, mode, n, quota) =>
      1 <= n <= |objs| && (mode.Fixed? ==> n == |objs|) && (c.watermark == c.size ==> !quota)
    case DeqStart(max, _) => 1 <= max
    case DeqHead(max, _, head) => 1 <= max && head <= m.consHead && (c.sc ==> head == m.consHead)
    case DeqTail(max, _, head, tail) =>
      1 <= max && head <= m.consHead && head <= tail <= m.prodTail && (c.sc ==> head == m.consHead)
    case DeqCopy(max, mode, head, n, out) =>
      && 1 <= n <= max && |out| <= n && (mode.Fixed? ==> n == max)
      && m.consTail <= head && head + n <= m.consHead
      && IsPart(m.put, head, out)
    case DeqDone(max, mode, head, out) =>
      1 <= |out| <= max && (mode.Fixed? ==> |out| == max) && IsPart(m.put, head, out) && IsPart(m.taken, head, out)
    case QueryHalf(prod) => prod <= m.prodTail
    case QueryDone(prod, cons) => prod <= m.prodTail && cons <= m.consTail && prod <= cons + c.size - 1
    case _ => true
  }

  predicate Disjoint(p: Pc, q: Pc)
    requires (p.EnqCopy? || p.DeqCopy?) && (q.EnqCopy? || q.DeqCopy?)
  {
    p.head + p.n <= q.head || q.head + q.n <= p.head
  }

  /** What holds between two threads: reservations of the same kind are disjoint. */
  predicate Apart(c: Config, p: Pc, q: Pc) {
    && (p.EnqCopy? && q.EnqCopy? ==> Disjoint(p, q))
    && (p.DeqCopy? && q.DeqCopy? ==> Disjoint(p, q))
    && (c.sp ==> !(Enqueuing(p) && Enqueuing(q)))
    && (c.sc ==> !(Dequeuing(p) && Dequeuing(q)))
  }

  predicate Fills(pc: Pc, k: nat) {
    pc.EnqCopy? && pc.head <= k < pc.head + pc.n
  }

  predicate Drains(pc: Pc, k: nat) {
    pc.DeqCopy? && pc.head <= k < pc.head + pc.n
  }

  ghost predicate Filled(threads: seq<Pc>, k: nat) {
    exists t | 0 <= t < |threads| :: Fills(threads[t], k)
  }

  ghost predicate Drained(threads: seq<Pc>, k: nat) {
    exists t | 0 <= t < |threads| :: Drains(threads[t], k)
  }

  /** With Own and Apart: the outstanding reservations tile [prodTail, prodHead) and [consTail, consHead). */
  ghost predicate Covered(s: State) {
    && (forall k: nat | s.mem.prodTail <= k < s.mem.prodHead :: Filled(s.threads, k))
    && (forall k: nat | s.mem.consTail <= k < s.mem.consHead :: Drained(s.threads, k))
  }

  ghost predicate AllOwn(c: Config, s: State) {
    forall t | 0 <= t < |s.threads| :: Own(c, s.mem, s.threads[t])
  }

  ghost predicate AllApart(c: Config, threads: seq<Pc>) {
    forall t, u | 0 <= t < |threads| && 0 <= u < |threads| && t != u :: Apart(c, threads[t], threads[u])
  }

  ghost predicate Inv(c: Config, s: State) {
    && 0 < c.size <= 0x0FFF_FFFF
    && Window(c, s.mem) && Published(c, s.mem)
    && AllOwn(c, s) && AllApart(c, s.threads) && Covered(s)
  }

  // ---- Word arithmetic

  /** Distinct indices less than `size` apart use distinct slots. */
  lemma SlotsDiffer(c: Config, j: nat, k: nat)
    requires 0 < c.size && j < k < j + c.size
    ensures Slot(c, j) != Slot(c, k)
  {
    if k >= c.size {
      if j >= c.size {
        SlotsDiffer(c, j - c.size, k - c.size);
      }
    }
  }

  /** The slot the code computes by masking the 32-bit index, on a ring whose size is a power of two. */
  lemma SlotIsMasked(c: Config, k: nat)
    requires ValidConfig(c)
    ensures Slot(c, k) == k % c.size == BitAnd(W32(k), c.size - 1)
  {
    MaskOfWrapped(k, c.size);
    SlotIsMod(c, k);
  }

  lemma {:induction false} SlotIsMod(c: Config, k: nat)
    requires 0 < c.size
    ensures Slot(c, k) == k % c.size
  {
    if k >= c.size {
      SlotIsMod(c, k - c.size);
      var q, r := (k - c.size) / c.size, (k - c.size) % c.size;
      assert k == (q + 1) * c.size + r;
      DivModUnique(k, c.size, q + 1, r);
    }
  }

  /** If the attempt was not overtaken by a full turn, the 32-bit difference is the unbounded one. */
  lemma FreeExact(c: Config, head: nat, tail: nat)
    requires head <= tail + c.size - 1 && c.size - 1 + tail - head < TWO32
    ensures FreeEntries(c, head, tail) == c.size - 1 + tail - head
  {
    var turns := head / TWO32 - tail / TWO32;
    var free := c.size - 1 + tail - head;
    DivModUnique(c.size - 1 + W32(tail) - W32(head), TWO32, turns, free);
  }

  lemma UsedExact(head: nat, tail: nat)
    requires head <= tail && tail - head < TWO32
    ensures UsedEntries(head, tail) == tail - head
  {}

  // ---- Every step keeps the invariant

  lemma InitInv(c: Config, s: State)
    requires ValidConfig(c) && Init(c, s)
    ensures Inv(c, s)
  {}

  /** Coverage survives when only thread t changes, provided it gives up no index that stays in the windows. */
  lemma KeepCovered(s: State, m: Mem, t: nat, pc: Pc)
    requires t < |s.threads| && Covered(s)
    requires s.mem.prodTail <= m.prodTail && s.mem.consTail <= m.consTail
    requires forall k: nat | m.prodTail <= k < m.prodHead ::
      Fills(pc, k) || (k < s.mem.prodHead && !Fills(s.threads[t], k))
    requires forall k: nat | m.consTail <= k < m.consHead ::
      Drains(pc, k) || (k < s.mem.consHead && !Drains(s.threads[t], k))
    ensures Covered(State(m, s.threads[t := pc]))
  {
    var threads := s.threads[t := pc];
    forall k: nat | m.prodTail <= k < m.prodHead ensures Filled(threads, k) {
      if Fills(pc, k) {
        assert Fills(threads[t], k);
      } else {
        assert Filled(s.threads, k);
        var u :| 0 <= u < |s.threads| && Fills(s.threads[u], k);
        assert Fills(threads[u], k);
      }
    }
    forall k: nat | m.consTail <= k < m.consHead ensures Drained(threads, k) {
      if Drains(pc, k) {
        assert Drains(threads[t], k);
      } else {
        assert Drained(s.threads, k);
        var u :| 0 <= u < |s.threads| && Drains(s.threads[u], k);
        assert Drains(threads[u], k);
      }
    }
  }

  /** Thread by thread: the thread that moved, and the others against it. */
  lemma Assemble(c: Config, s: State, m: Mem, t: nat, pc: Pc)
    requires t < |s.threads| && AllApart(c, s.threads) && Own(c, m, pc)
    requires forall u | 0 <= u < |s.threads| && u != t ::
      Own(c, m, s.threads[u]) && Apart(c, pc, s.threads[u]) && Apart(c, s.threads[u], pc)
    ensures AllOwn(c, State(m, s.threads[t := pc])) && AllApart(c, s.threads[t := pc])
  {}

  /** A compare-and-swap that succeeds saw the current head, and its 32-bit free_entries was the true room. */
  lemma ReserveExact(c: Config, m: Mem, p: Pc)
    requires 0 < c.size <= 0x0FFF_FFFF && Window(c, m) && p.EnqTail? && Own(c, m, p) && Recent(m, p)
    requires c.sp || W32(m.prodHead) == W32(p.head)
    ensures p.head == m.prodHead
    ensures FreeEntries(c, p.head, p.tail) == c.size - 1 + p.tail - p.head <= Room(c, m)
  {
    WrapEqual(p.head, m.prodHead);
    FreeExact(c, p.head, p.tail);
  }

  lemma ClaimExact(c: Config, m: Mem, p: Pc)
    requires 0 < c.size <= 0x0FFF_FFFF && Window(c, m) && p.DeqTail? && Own(c, m, p) && Recent(m, p)
    requires c.sc || W32(m.consHead) == W32(p.head)
    ensures p.head == m.consHead
    ensures UsedEntries(p.head, p.tail) == p.tail - p.head <= Entries(m)
  {
    WrapEqual(p.head, m.consHead);
    UsedExact(p.head, p.tail);
  }

  /** Reserving at the head leaves what the other threads rely on. */
  lemma ReserveKeeps(c: Config, m: Mem, p: Pc, q: Pc)
    requires Window(c, m) && Own(c, m, q) && p.EnqTail? && Apart(c, p, q) && p.head == m.prodHead
    ensures var (m', p') := Reserve(c, m, p); Own(c, m', q) && Apart(c, p', q) && Apart(c, q, p')
  {
    var (m', p') := Reserve(c, m, p);
    assert forall k: nat :: Holds(c, m, k) ==> Holds(c, m', k);
    assert m.put <= m'.put;
    if q.EnqCopy? {
      PartOfExtended(m.put, m'.put, q.head, q.objs[..q.n]);
    } else if q.DeqCopy? || q.DeqDone? {
      PartOfExtended(m.put, m'.put, q.head, q.out);
    }
  }

  lemma PartOfExtended(items: seq<Ptr>, more: seq<Ptr>, from: nat, part: seq<Ptr>)
    requires IsPart(items, from, part) && items <= more
    ensures IsPart(more, from, part)
  {
    assert more[from..from + |part|] == items[from..from + |part|];
  }

  lemma InvReserve(c: Config, s: State, t: nat)
    requires Inv(c, s) && NoStall(s) && t < |s.threads| && s.threads[t].EnqTail?
    ensures var (m, pc) := Reserve(c, s.mem, s.threads[t]); Inv(c, State(m, s.threads[t := pc]))
  {
    if Reserve(c, s.mem, s.threads[t]).1.EnqCopy? {
      InvReserveSucceeds(c, s, t);
    } else {
      InvReserveFails(c, s, t);
    }
  }

  lemma InvReserveSucceeds(c: Config, s: State, t: nat)
    requires Inv(c, s) && NoStall(s) && t < |s.threads| && s.threads[t].EnqTail?
    requires Reserve(c, s.mem, s.threads[t]).1.EnqCopy?
    ensures var (m, pc) := Reserve(c, s.mem, s.threads[t]); Inv(c, State(m, s.threads[t := pc]))
  {
    var p := s.threads[t];
    var (m, pc) := Reserve(c, s.mem, p);
    ReserveExact(c, s.mem, p);
    assert forall k: nat :: Holds(c, s.mem, k) ==> Holds(c, m, k);
    ReserveOthers(c, s, t);
    Assemble(c, s, m, t, pc);
    KeepCovered(s, m, t, pc);
  }

  /** A refusal, or another attempt. */
  lemma InvReserveFails(c: Config, s: State, t: nat)
    requires Inv(c, s) && t < |s.threads| && s.threads[t].EnqTail? && !Reserve(c, s.mem, s.threads[t]).1.EnqCopy?
    ensures var (m, pc) := Reserve(c, s.mem, s.threads[t]); Inv(c, State(m, s.threads[t := pc]))
  {
    var (m, pc) := Reserve(c, s.mem, s.threads[t]);
    assert Own(c, s.mem, s.threads[t]);
    Assemble(c, s, m, t, pc);
    KeepCovered(s, m, t, pc);
  }

  lemma ReserveOthers(c: Config, s: State, t: nat)
    requires Inv(c, s) && NoStall(s) && t < |s.threads| && s.threads[t].EnqTail?
    requires Reserve(c, s.mem, s.threads[t]).1.EnqCopy?
    ensures var (m, pc) := Reserve(c, s.mem, s.threads[t]);
            forall u | 0 <= u < |s.threads| && u != t ::
              Own(c, m, s.threads[u]) && Apart(c, pc, s.threads[u]) && Apart(c, s.threads[u], pc)
  {
    var p := s.threads[t];
    var (m, pc) := Reserve(c, s.mem, p);
    ReserveExact(c, s.mem, p);
    forall u | 0 <= u < |s.threads| && u != t
      ensures Own(c, m, s.threads[u]) && Apart(c, pc, s.threads[u]) && Apart(c, s.threads[u], pc)
    {
      ReserveKeeps(c, s.mem, p, s.threads[u]);
    }
  }

  /** Indices inside the window of live slots never collide, so a store touches only the slot of its own index. */
  lemma StoreTouches(c: Config, m: Mem, p: Pc, k: nat)
    requires 0 < c.size && Window(c, m) && p.EnqCopy? && Own(c, m, p) && p.done < p.n
    requires m.consTail <= k < m.prodHead
    ensures Holds(c, StoreOrPublish(c, m, p).0, k) <==> Holds(c, m, k) || k == p.head + p.done
  {
    var j := p.head + p.done;
    if k < j {
      SlotsDiffer(c, k, j);
    } else if j < k {
      SlotsDiffer(c, j, k);
    }
    assert m.put[j] == m.put[p.head..p.head + p.n][p.done];
  }

  lemma InvStore(c: Config, s: State, t: nat)
    requires Inv(c, s) && t < |s.threads| && s.threads[t].EnqCopy? && s.threads[t].done < s.threads[t].n
    ensures var (m, pc) := StoreOrPublish(c, s.mem, s.threads[t]); Inv(c, State(m, s.threads[t := pc]))
  {
    var p := s.threads[t];
    var (m, pc) := StoreOrPublish(c, s.mem, p);
    forall k: nat | s.mem.consTail <= k < s.mem.prodHead
      ensures Holds(c, m, k) <==> Holds(c, s.mem, k) || k == p.head + p.done
    {
      StoreTouches(c, s.mem, p, k);
    }
    forall u | 0 <= u < |s.threads| && u != t
      ensures Own(c, m, s.threads[u]) && Apart(c, pc, s.threads[u]) && Apart(c, s.threads[u], pc)
    {
      StoreKeeps(c, s.mem, p, s.threads[u]);
    }
    Assemble(c, s, m, t, pc);
    KeepCovered(s, m, t, pc);
  }

  /** What other threads rely on survives a store. */
  lemma StoreKeeps(c: Config, m: Mem, p: Pc, q: Pc)
    requires 0 < c.size && Window(c, m) && p.EnqCopy? && p.done < p.n && Own(c, m, p) && Own(c, m, q)
    requires Apart(c, p, q) && Apart(c, q, p)
    ensures var (m', p') := StoreOrPublish(c, m, p); Own(c, m', q) && Apart(c, p', q) && Apart(c, q, p')
  {
    var m' := StoreOrPublish(c, m, p).0;
    if q.EnqCopy? {
      forall k: nat | q.head <= k < q.head + q.done ensures Holds(c, m', k) {
        StoreTouches(c, m, p, k);
      }
    }
  }

  /** Publishing in reservation order leaves what the other threads rely on. */
  lemma PublishKeeps(c: Config, m: Mem, p: Pc, q: Pc)
    requires Window(c, m) && p.EnqCopy? && p.done == p.n && p.head == m.prodTail
    requires Own(c, m, p) && Own(c, m, q) && Apart(c, p, q) && Apart(c, q, p)
    requires |m.slots| == c.size > 0 && StoreOrPublish(c, m, p).1 != p
    ensures var (m', p') := StoreOrPublish(c, m, p); Own(c, m', q) && Apart(c, p', q) && Apart(c, q, p')
  {
    var m' := m.(prodTail := p.head + p.n);
    assert forall k: nat :: Holds(c, m, k) ==> Holds(c, m', k);
    assert q.EnqCopy? ==> p.head + p.n <= q.head;
    assert Own(c, m', q);
  }

  lemma PublishedGrows(c: Config, m: Mem, p: Pc)
    requires 0 < c.size && Window(c, m) && Published(c, m) && p.EnqCopy? && Own(c, m, p)
    requires p.done == p.n && p.head == m.prodTail
    ensures var m' := m.(prodTail := p.head + p.n); Window(c, m') && Published(c, m')
  {
    var m' := m.(prodTail := p.head + p.n);
    forall k: nat | m'.consTail <= k < m'.prodTail ensures Holds(c, m', k) {
      assert Holds(c, m, k);
    }
  }

  lemma InvPublish(c: Config, s: State, t: nat)
    requires Inv(c, s) && t < |s.threads| && s.threads[t].EnqCopy? && s.threads[t].done == s.threads[t].n
    ensures var (m, pc) := StoreOrPublish(c, s.mem, s.threads[t]); Inv(c, State(m, s.threads[t := pc]))
  {
    var p := s.threads[t];
    var (m, pc) := StoreOrPublish(c, s.mem, p);
    if pc == p {
      assert s.threads[t := pc] == s.threads;
      return;
    }
    InTurn(c, s, t);
    PublishedGrows(c, s.mem, p);
    PublishOthers(c, s, t);
    Assemble(c, s, m, t, pc);
    KeepCovered(s, m, t, pc);
  }

  lemma PublishOthers(c: Config, s: State, t: nat)
    requires Inv(c, s) && t < |s.threads| && s.threads[t].EnqCopy? && s.threads[t].done == s.threads[t].n
    requires s.threads[t].head == s.mem.prodTail && StoreOrPublish(c, s.mem, s.threads[t]).1 != s.threads[t]
    ensures var (m, pc) := StoreOrPublish(c, s.mem, s.threads[t]);
            forall u | 0 <= u < |s.threads| && u != t ::
              Own(c, m, s.threads[u]) && Apart(c, pc, s.threads[u]) && Apart(c, s.threads[u], pc)
  {
    var p := s.threads[t];
    var (m, pc) := StoreOrPublish(c, s.mem, p);
    forall u | 0 <= u < |s.threads| && u != t
      ensures Own(c, m, s.threads[u]) && Apart(c, pc, s.threads[u]) && Apart(c, s.threads[u], pc)
    {
      PublishKeeps(c, s.mem, p, s.threads[u]);
    }
  }

  /** The 32-bit comparison with prod.tail lets exactly the oldest reservation publish. */
  lemma InTurn(c: Config, s: State, t: nat)
    requires Inv(c, s) && t < |s.threads| && s.threads[t].EnqCopy?
    requires c.sp || W32(s.mem.prodTail) == W32(s.threads[t].head)
    ensures s.threads[t].head == s.mem.prodTail
  {
    var p := s.threads[t];
    assert Own(c, s.mem, p);
    WrapEqual(s.mem.prodTail, p.head);
    assert Filled(s.threads, s.mem.prodTail);
    var u :| 0 <= u < |s.threads| && Fills(s.threads[u], s.mem.prodTail);
    var q := s.threads[u];
    assert Own(c, s.mem, q);
    assert u == t || Apart(c, q, p);
  }

  lemma ClaimKeeps(c: Config, m: Mem, p: Pc, q: Pc)
    requires Window(c, m) && Own(c, m, q) && p.DeqTail? && Apart(c, p, q) && p.head == m.consHead
    requires Own(c, m, p) && UsedEntries(p.head, p.tail) <= Entries(m)
    ensures var (m', p') := Claim(c, m, p); Own(c, m', q) && Apart(c, p', q) && Apart(c, q, p')
  {
    var (m', p') := Claim(c, m, p);
    assert forall k: nat :: Holds(c, m, k) ==> Holds(c, m', k);
  }

  lemma InvClaim(c: Config, s: State, t: nat)
    requires Inv(c, s) && NoStall(s) && t < |s.threads| && s.threads[t].DeqTail?
    ensures var (m, pc) := Claim(c, s.mem, s.threads[t]); Inv(c, State(m, s.threads[t := pc]))
  {
    if Claim(c, s.mem, s.threads[t]).1.DeqCopy? {
      InvClaimSucceeds(c, s, t);
    } else {
      InvClaimFails(c, s, t);
    }
  }

  lemma InvClaimSucceeds(c: Config, s: State, t: nat)
    requires Inv(c, s) && NoStall(s) && t < |s.threads| && s.threads[t].DeqTail?
    requires Claim(c, s.mem, s.threads[t]).1.DeqCopy?
    ensures var (m, pc) := Claim(c, s.mem, s.threads[t]); Inv(c, State(m, s.threads[t := pc]))
  {
    var p := s.threads[t];
    var (m, pc) := Claim(c, s.mem, p);
    ClaimExact(c, s.mem, p);
    assert forall k: nat :: Holds(c, s.mem, k) ==> Holds(c, m, k);
    ClaimOthers(c, s, t);
    Assemble(c, s, m, t, pc);
    KeepCovered(s, m, t, pc);
  }

  /** A refusal, or another attempt. */
  lemma InvClaimFails(c: Config, s: State, t: nat)
    requires Inv(c, s) && t < |s.threads| && s.threads[t].DeqTail? && !Claim(c, s.mem, s.threads[t]).1.DeqCopy?
    ensures var (m, pc) := Claim(c, s.mem, s.threads[t]); Inv(c, State(m, s.threads[t := pc]))
  {
    var (m, pc) := Claim(c, s.mem, s.threads[t]);
    assert Own(c, s.mem, s.threads[t]);
    Assemble(c, s, m, t, pc);
    KeepCovered(s, m, t, pc);
  }

  lemma ClaimOthers(c: Config, s: State, t: nat)
    requires Inv(c, s) && NoStall(s) && t < |s.threads| && s.threads[t].DeqTail?
    requires Claim(c, s.mem, s.threads[t]).1.DeqCopy?
    ensures var (m, pc) := Claim(c, s.mem, s.threads[t]);
            forall u | 0 <= u < |s.threads| && u != t ::
              Own(c, m, s.threads[u]) && Apart(c, pc, s.threads[u]) && Apart(c, s.threads[u], pc)
  {
    var p := s.threads[t];
    var (m, pc) := Claim(c, s.mem, p);
    ClaimExact(c, s.mem, p);
    forall u | 0 <= u < |s.threads| && u != t
      ensures Own(c, m, s.threads[u]) && Apart(c, pc, s.threads[u]) && Apart(c, s.threads[u], pc)
    {
      ClaimKeeps(c, s.mem, p, s.threads[u]);
    }
  }

  lemma InvLoad(c: Config, s: State, t: nat)
    requires Inv(c, s) && t < |s.threads| && s.threads[t].DeqCopy? && |s.threads[t].out| < s.threads[t].n
    ensures var (m, pc) := LoadOrRelease(c, s.mem, s.threads[t]); Inv(c, State(m, s.threads[t := pc]))
  {
    var p := s.threads[t];
    var (m, pc) := LoadOrRelease(c, s.mem, p);
    assert Own(c, m, p);
    assert Holds(c, m, p.head + |p.out|);
    forall u | 0 <= u < |s.threads| && u != t
      ensures Apart(c, pc, s.threads[u]) && Apart(c, s.threads[u], pc)
    {
      assert Apart(c, p, s.threads[u]);
    }
    Assemble(c, s, m, t, pc);
    KeepCovered(s, m, t, pc);
  }

  lemma ReleaseKeeps(c: Config, m: Mem, p: Pc, q: Pc)
    requires Window(c, m) && p.DeqCopy? && |p.out| == p.n && p.head == m.consTail
    requires Own(c, m, p) && Own(c, m, q) && Apart(c, p, q) && Apart(c, q, p)
    requires |m.slots| == c.size > 0 && LoadOrRelease(c, m, p).1 != p
    ensures var (m', p') := LoadOrRelease(c, m, p); Own(c, m', q) && Apart(c, p', q) && Apart(c, q, p')
  {
    var m' := m.(consTail := p.head + p.n, taken := m.taken + p.out);
    assert forall k: nat :: Holds(c, m, k) ==> Holds(c, m', k);
    assert q.DeqCopy? ==> p.head + p.n <= q.head;
    if q.DeqDone? {
      PartOfExtended(m.taken, m'.taken, q.head, q.out);
    }
    assert Own(c, m', q);
  }

  lemma InvRelease(c: Config, s: State, t: nat)
    requires Inv(c, s) && t < |s.threads| && s.threads[t].DeqCopy? && |s.threads[t].out| == s.threads[t].n
    ensures var (m, pc) := LoadOrRelease(c, s.mem, s.threads[t]); Inv(c, State(m, s.threads[t := pc]))
  {
    var p := s.threads[t];
    var (m, pc) := LoadOrRelease(c, s.mem, p);
    if pc == p {
      assert s.threads[t := pc] == s.threads;
      return;
    }
    InTurnToRelease(c, s, t);
    assert forall k: nat :: Holds(c, s.mem, k) ==> Holds(c, m, k);
    ReleaseOthers(c, s, t);
    Assemble(c, s, m, t, pc);
    KeepCovered(s, m, t, pc);
  }

  lemma ReleaseOthers(c: Config, s: State, t: nat)
    requires Inv(c, s) && t < |s.threads| && s.threads[t].DeqCopy? && |s.threads[t].out| == s.threads[t].n
    requires s.threads[t].head == s.mem.consTail && LoadOrRelease(c, s.mem, s.threads[t]).1 != s.threads[t]
    ensures var (m, pc) := LoadOrRelease(c, s.mem, s.threads[t]);
            forall u | 0 <= u < |s.threads| && u != t ::
              Own(c, m, s.threads[u]) && Apart(c, pc, s.threads[u]) && Apart(c, s.threads[u], pc)
  {
    var p := s.threads[t];
    var (m, pc) := LoadOrRelease(c, s.mem, p);
    forall u | 0 <= u < |s.threads| && u != t
      ensures Own(c, m, s.threads[u]) && Apart(c, pc, s.threads[u]) && Apart(c, s.threads[u], pc)
    {
      ReleaseKeeps(c, s.mem, p, s.threads[u]);
    }
  }

  lemma InTurnToRelease(c: Config, s: State, t: nat)
    requires Inv(c, s) && t < |s.threads| && s.threads[t].DeqCopy?
    requires c.sc || W32(s.mem.consTail) == W32(s.threads[t].head)
    ensures s.threads[t].head == s.mem.consTail
  {
    var p := s.threads[t];
    assert Own(c, s.mem, p);
    WrapEqual(s.mem.consTail, p.head);
    assert Drained(s.threads, s.mem.consTail);
    var u :| 0 <= u < |s.threads| && Drains(s.threads[u], s.mem.consTail);
    var q := s.threads[u];
    assert Own(c, s.mem, q);
    assert u == t || Apart(c, q, p);
  }

  /** Calls, reads and returns change no memory and own no slots. */
  lemma InvLocal(c: Config, s: State, t: nat, a: Action)
    requires Inv(c, s) && Enabled(c, s, t, a)
    requires a.Proceed? ==> var p := s.threads[t]; !(p.EnqTail? || p.EnqCopy? || p.DeqTail? || p.DeqCopy?)
    ensures var (m, pc) := Apply(c, s.mem, s.threads[t], a); Inv(c, State(m, s.threads[t := pc]))
  {
    var (m, pc) := Apply(c, s.mem, s.threads[t], a);
    LocalStep(c, s, t, a);
    forall u | 0 <= u < |s.threads| && u != t
      ensures Apart(c, pc, s.threads[u]) && Apart(c, s.threads[u], pc)
    {
      LocalApart(c, s, t, a, u);
    }
    Assemble(c, s, m, t, pc);
    KeepCovered(s, m, t, pc);
  }

  lemma LocalStep(c: Config, s: State, t: nat, a: Action)
    requires Inv(c, s) && Enabled(c, s, t, a)
    requires a.Proceed? ==> var p := s.threads[t]; !(p.EnqTail? || p.EnqCopy? || p.DeqTail? || p.DeqCopy?)
    ensures var (m, pc) := Apply(c, s.mem, s.threads[t], a);
            && m == s.mem && Own(c, m, pc) && !pc.EnqCopy? && !pc.DeqCopy?
            && !s.threads[t].EnqCopy? && !s.threads[t].DeqCopy?
  {
    assert Own(c, s.mem, s.threads[t]);
  }

  lemma LocalApart(c: Config, s: State, t: nat, a: Action, u: nat)
    requires AllApart(c, s.threads) && Enabled(c, s, t, a) && u < |s.threads| && u != t
    requires a.Proceed? ==> var p := s.threads[t]; !(p.EnqTail? || p.EnqCopy? || p.DeqTail? || p.DeqCopy?)
    ensures var pc := Apply(c, s.mem, s.threads[t], a).1; Apart(c, pc, s.threads[u]) && Apart(c, s.threads[u], pc)
  {
    assert Apart(c, s.threads[t], s.threads[u]);
  }

  lemma InvNext(c: Config, s: State, s': State)
    requires Inv(c, s) && NoStall(s) && Next(c, s, s')
    ensures Inv(c, s')
  {
    var t: nat, a :| NextBy(c, s, s', t, a);
    var p := s.threads[t];
    if a.Proceed? && p.EnqTail? {
      InvReserve(c, s, t);
    } else if a.Proceed? && p.DeqTail? {
      InvClaim(c, s, t);
    } else if a.Proceed? && p.EnqCopy? {
      assert Own(c, s.mem, p);
      if p.done < p.n { InvStore(c, s, t); } else { InvPublish(c, s, t); }
    } else if a.Proceed? && p.DeqCopy? {
      assert Own(c, s.mem, p);
      if |p.out| < p.n { InvLoad(c, s, t); } else { InvRelease(c, s, t); }
    } else {
      InvLocal(c, s, t, a);
    }
  }

  lemma {:induction false} InvRun(c: Config, run: seq<State>, i: nat)
    requires IsRun(c, run) && i < |run|
    ensures Inv(c, run[i]) && NoStall(run[i])
  {
    if i == 0 {
      InitInv(c, run[0]);
    } else {
      InvRun(c, run, i - 1);
      assert Next(c, run[i - 1], run[i]);
      InvNext(c, run[i - 1], run[i]);
    }
  }

  // ---- What holds in every reachable state

  /**
   First in, first out over whole runs: the items handed out so far, in consumer-reservation order, are a prefix
   of the items put, in producer-reservation order; the entries not yet handed out are the next ones and lie in
   their slots; and the items each finished call returned, all it asked for or in a burst at least one, are the
   contiguous stretch it had reserved, of both sequences.
   */
  lemma RingFifo(c: Config, run: seq<State>, i: nat)
    requires IsRun(c, run) && i < |run|
    ensures var m := run[i].mem;
            && m.taken <= m.put && |m.taken| == m.consTail && |m.put| == m.prodHead
            && (forall k: nat | m.consTail <= k < m.prodTail :: Holds(c, m, k))
    ensures forall t | 0 <= t < |run[i].threads| && run[i].threads[t].DeqDone? ::
      Returned(run[i].mem, run[i].threads[t])
  {
    InvRun(c, run, i);
    forall t | 0 <= t < |run[i].threads| && run[i].threads[t].DeqDone?
      ensures Returned(run[i].mem, run[i].threads[t])
    {
      assert Own(c, run[i].mem, run[i].threads[t]);
    }
  }

  /** What a finished dequeue call returned. */
  predicate Returned(m: Mem, pc: Pc)
    requires pc.DeqDone?
  {
    && 1 <= |pc.out| <= pc.max && (pc.mode.Fixed? ==> |pc.out| == pc.max)
    && IsPart(m.put, pc.head, pc.out) && IsPart(m.taken, pc.head, pc.out)
  }

  /**
   The ring never deadlocks: as long as a reservation is outstanding, on either side, some thread that has one can
   store, load, publish or release.
   */
  lemma NeverDeadlocks(c: Config, run: seq<State>, i: nat)
    requires IsRun(c, run) && i < |run|
    requires run[i].mem.prodTail < run[i].mem.prodHead || run[i].mem.consTail < run[i].mem.consHead
    ensures exists t | 0 <= t < |run[i].threads| :: Progresses(c, run[i].mem, run[i].threads[t])
  {
    InvRun(c, run, i);
    var m, threads := run[i].mem, run[i].threads;
    if m.prodTail < m.prodHead {
      assert Filled(threads, m.prodTail);
      var t :| 0 <= t < |threads| && Fills(threads[t], m.prodTail);
      OldestMoves(c, m, threads[t]);
    } else {
      assert Drained(threads, m.consTail);
      var t :| 0 <= t < |threads| && Drains(threads[t], m.consTail);
      OldestMoves(c, m, threads[t]);
    }
  }

  lemma OldestMoves(c: Config, m: Mem, pc: Pc)
    requires 0 < c.size && Window(c, m) && Own(c, m, pc) && (Fills(pc, m.prodTail) || Drains(pc, m.consTail))
    ensures Progresses(c, m, pc)
  {}

  /** A thread with a reservation whose next access changes something: it is not waiting for its turn. */
  predicate Progresses(c: Config, m: Mem, pc: Pc) {
    (pc.EnqCopy? || pc.DeqCopy?) && |m.slots| == c.size > 0 && Advance(c, m, pc) != (m, pc)
  }

  /** The index windows, and: two threads never own the same slot, whether they fill or drain it. */
  lemma SlotOwnership(c: Config, run: seq<State>, i: nat, t: nat, u: nat, j: nat, k: nat)
    requires IsRun(c, run) && i < |run| && t < |run[i].threads| && u < |run[i].threads| && t != u
    requires Fills(run[i].threads[t], j) || Drains(run[i].threads[t], j)
    requires Fills(run[i].threads[u], k) || Drains(run[i].threads[u], k)
    ensures var m := run[i].mem;
            m.consTail <= m.consHead <= m.prodTail <= m.prodHead <= m.consTail + c.size - 1
    ensures Slot(c, j) != Slot(c, k)
  {
    InvRun(c, run, i);
    var s := run[i];
    assert Own(c, s.mem, s.threads[t]) && Own(c, s.mem, s.threads[u]);
    assert Apart(c, s.threads[t], s.threads[u]);
    if j < k { SlotsDiffer(c, j, k); } else { SlotsDiffer(c, k, j); }
  }

  /**
   The outstanding reservations tile the windows: every reserved and unpublished index belongs to exactly one
   producer, every claimed and unreleased one to exactly one consumer.
   */
  lemma ReservationsTile(c: Config, run: seq<State>, i: nat, k: nat)
    requires IsRun(c, run) && i < |run|
    ensures run[i].mem.prodTail <= k < run[i].mem.prodHead <==> Filled(run[i].threads, k)
    ensures run[i].mem.consTail <= k < run[i].mem.consHead <==> Drained(run[i].threads, k)
    ensures forall t, u | 0 <= t < |run[i].threads| && 0 <= u < |run[i].threads| ::
      Fills(run[i].threads[t], k) && Fills(run[i].threads[u], k) ==> t == u
    ensures forall t, u | 0 <= t < |run[i].threads| && 0 <= u < |run[i].threads| ::
      Drains(run[i].threads[t], k) && Drains(run[i].threads[u], k) ==> t == u
  {
    InvRun(c, run, i);
    var s := run[i];
    assert forall t | 0 <= t < |s.threads| :: Own(c, s.mem, s.threads[t]);
    assert forall t, u | 0 <= t < |s.threads| && 0 <= u < |s.threads| && t != u ::
      Apart(c, s.threads[t], s.threads[u]);
  }

  /**
   Whenever a reservation succeeds, its 32-bit free_entries was the unbounded difference of the indices it read. It is
   for all the items of the call, or in a burst that does not fit for as many as fill the ring up.
   */
  lemma ReservationExact(c: Config, run: seq<State>, i: nat, t: nat)
    requires IsRun(c, run) && i + 1 < |run| && t < |run[i].threads| == |run[i + 1].threads|
    requires run[i].threads[t].EnqTail? && run[i + 1].threads[t].EnqCopy?
    ensures var p, p' := run[i].threads[t], run[i + 1].threads[t];
            && p.head == run[i].mem.prodHead
            && p'.free == c.size - 1 + p.tail - p.head <= Room(c, run[i].mem)
            && (p'.n == |p.objs| || (p.mode.Variable? && p'.n < |p.objs| && p.head + p'.n == p.tail + c.size - 1))
            && run[i + 1].mem.prodHead == run[i].mem.prodHead + p'.n
            && run[i + 1].mem.put == run[i].mem.put + p.objs[..p'.n]
  {
    InvRun(c, run, i);
    assert Next(c, run[i], run[i + 1]);
    var u: nat, a :| NextBy(c, run[i], run[i + 1], u, a);
    assert Own(c, run[i].mem, run[i].threads[t]) && Recent(run[i].mem, run[i].threads[t]);
    ReserveExact(c, run[i].mem, run[i].threads[t]);
  }

  /** The same for a consumer's 32-bit entries: all it asked for, or in a burst all that was published at its read. */
  lemma ClaimedExact(c: Config, run: seq<State>, i: nat, t: nat)
    requires IsRun(c, run) && i + 1 < |run| && t < |run[i].threads| == |run[i + 1].threads|
    requires run[i].threads[t].DeqTail? && run[i + 1].threads[t].DeqCopy?
    ensures var p, p' := run[i].threads[t], run[i + 1].threads[t];
            && p.head == run[i].mem.consHead
            && UsedEntries(p.head, p.tail) == p.tail - p.head <= Entries(run[i].mem)
            && (p'.n == p.max || (p.mode.Variable? && p'.n < p.max && p.head + p'.n == p.tail))
            && run[i + 1].mem.consHead == run[i].mem.consHead + p'.n
  {
    InvRun(c, run, i);
    assert Next(c, run[i], run[i + 1]);
    var u: nat, a :| NextBy(c, run[i], run[i + 1], u, a);
    assert Own(c, run[i].mem, run[i].threads[t]) && Recent(run[i].mem, run[i].threads[t]);
    ClaimExact(c, run[i].mem, run[i].threads[t]);
  }

  /** A call to enqueue that is under way or has just ended. */
  predicate InOrAfterEnqueue(pc: Pc) {
    Enqueuing(pc) || pc.EnqDone? || pc.EnqRefused?
  }

  predicate InOrAfterDequeue(pc: Pc) {
    Dequeuing(pc) || pc.DeqDone? || pc.DeqRefused?
  }

  /** The step is a call, and no other action explains it. */
  ghost predicate Calls(c: Config, s: State, s': State, t: nat, a: Action) {
    NextBy(c, s, s', t, a) && forall b | NextBy(c, s, s', t, b) :: b == a
  }

  /** What an enqueue works on is what its caller passed. */
  lemma {:induction false} EnqueueCall(c: Config, run: seq<State>, i: nat, t: nat) returns (j: nat)
    requires IsRun(c, run) && i < |run| && t < |run[i].threads| && InOrAfterEnqueue(run[i].threads[t])
    ensures j < i && var p := run[i].threads[t]; Calls(c, run[j], run[j + 1], t, CallEnqueue(p.objs, p.mode))
  {
    assert Next(c, run[i - 1], run[i]);
    var called := EnqueueGoesOn(c, run[i - 1], run[i], t);
    if called {
      j := i - 1;
    } else {
      j := EnqueueCall(c, run, i - 1, t);
    }
  }

  lemma EnqueueGoesOn(c: Config, s: State, s': State, t: nat) returns (called: bool)
    requires Next(c, s, s') && t < |s'.threads| && InOrAfterEnqueue(s'.threads[t])
    ensures t < |s.threads|
    ensures var p, p' := s.threads[t], s'.threads[t];
            if called then Calls(c, s, s', t, CallEnqueue(p'.objs, p'.mode))
            else InOrAfterEnqueue(p) && p.objs == p'.objs && p.mode == p'.mode
  {
    var u: nat, a :| NextBy(c, s, s', u, a);
    called := u == t && a.CallEnqueue?;
  }

  /** And a dequeue is for the number its caller asked for. */
  lemma {:induction false} DequeueCall(c: Config, run: seq<State>, i: nat, t: nat) returns (j: nat)
    requires IsRun(c, run) && i < |run| && t < |run[i].threads| && InOrAfterDequeue(run[i].threads[t])
    ensures j < i && var p := run[i].threads[t]; Calls(c, run[j], run[j + 1], t, CallDequeue(p.max, p.mode))
  {
    assert Next(c, run[i - 1], run[i]);
    var called := DequeueGoesOn(c, run[i - 1], run[i], t);
    if called {
      j := i - 1;
    } else {
      j := DequeueCall(c, run, i - 1, t);
    }
  }

  lemma DequeueGoesOn(c: Config, s: State, s': State, t: nat) returns (called: bool)
    requires Next(c, s, s') && t < |s'.threads| && InOrAfterDequeue(s'.threads[t])
    ensures t < |s.threads|
    ensures var p, p' := s.threads[t], s'.threads[t];
            if called then Calls(c, s, s', t, CallDequeue(p'.max, p'.mode))
            else InOrAfterDequeue(p) && p.max == p'.max && p.mode == p'.mode
  {
    var u: nat, a :| NextBy(c, s, s', u, a);
    called := u == t && a.CallDequeue?;
  }

  /**
   The quota flag of a finished enqueue says whether the ring, as full as it was when the call read its indices at j,
   holds at least `watermark` entries with the items of the call; and the number it returns is that of the items.
   */
  lemma QuotaExact(c: Config, run: seq<State>, i: nat, t: nat) returns (j: nat)
    requires IsRun(c, run) && i + 1 < |run| && t < |run[i].threads| == |run[i + 1].threads|
    requires run[i].threads[t].EnqCopy? && run[i + 1].threads[t].EnqDone?
    ensures j < i && Reserved(run, t, j, i)
    ensures run[i + 1].threads[t].n == run[i].threads[t].n
    ensures run[i + 1].threads[t].quota <==>
            run[i].threads[t].head + run[i].threads[t].n - run[j].threads[t].tail >= c.watermark
  {
    InvRun(c, run, i);
    assert Next(c, run[i], run[i + 1]);
    var u: nat, a :| NextBy(c, run[i], run[i + 1], u, a);
    assert Own(c, run[i].mem, run[i].threads[t]);
    j := ReservedAt(c, run, i, t);
  }

  /** Thread t reserved in the step from j what it is copying in state i and all states between. */
  ghost predicate Reserved(run: seq<State>, t: nat, j: nat, i: nat)
    requires j < i < |run|
  {
    && t < |run[j].threads| && run[j].threads[t].EnqTail?
    && forall k | j < k <= i ::
         && t < |run[k].threads| && run[k].threads[t].EnqCopy? && run[k].threads[t].objs == run[j].threads[t].objs
         && run[k].threads[t].head == run[j].threads[t].head
  }

  lemma {:induction false} ReservedAt(c: Config, run: seq<State>, i: nat, t: nat) returns (j: nat)
    requires IsRun(c, run) && i < |run| && t < |run[i].threads| && run[i].threads[t].EnqCopy?
    ensures j < i && Reserved(run, t, j, i)
    ensures run[i].threads[t].free == c.size - 1 + run[j].threads[t].tail - run[j].threads[t].head
  {
    assert i > 0;
    CopySource(c, run, i - 1, t);
    if run[i - 1].threads[t].EnqCopy? {
      j := ReservedAt(c, run, i - 1, t);
    } else {
      j := i - 1;
      ReservationExact(c, run, j, t);
    }
  }

  /** A thread that copies was copying the same items, or has just reserved them. */
  lemma CopySource(c: Config, run: seq<State>, i: nat, t: nat)
    requires IsRun(c, run) && i + 1 < |run| && t < |run[i + 1].threads| && run[i + 1].threads[t].EnqCopy?
    ensures t < |run[i].threads| == |run[i + 1].threads|
    ensures var p, q := run[i].threads[t], run[i + 1].threads[t];
            && (p.EnqCopy? || p.EnqTail?) && p.objs == q.objs && p.head == q.head
            && (p.EnqCopy? ==> p.free == q.free)
  {
    assert Next(c, run[i], run[i + 1]);
    var u: nat, a :| NextBy(c, run[i], run[i + 1], u, a);
  }

  // ---- Refusals

  /** The published tails never move back. */
  lemma TailsGrow(c: Config, s: State, s': State)
    requires Inv(c, s) && NoStall(s) && Next(c, s, s')
    ensures s.mem.consTail <= s'.mem.consTail && s.mem.prodTail <= s'.mem.prodTail
  {
    var t: nat, a :| NextBy(c, s, s', t, a);
    assert Own(c, s.mem, s.threads[t]);
  }

  lemma TailsGrowAt(c: Config, run: seq<State>, i: nat)
    requires IsRun(c, run) && i + 1 < |run|
    ensures run[i].mem.consTail <= run[i + 1].mem.consTail && run[i].mem.prodTail <= run[i + 1].mem.prodTail
  {
    InvRun(c, run, i);
    TailsGrow(c, run[i], run[i + 1]);
  }

  /** Thread t is inside one and the same enqueue call from state j to state i. */
  ghost predicate InEnqueue(run: seq<State>, t: nat, j: nat, i: nat, objs: seq<Ptr>, mode: Mode)
    requires j <= i < |run|
  {
    forall k | j <= k <= i ::
      && t < |run[k].threads| && Enqueuing(run[k].threads[t])
      && run[k].threads[t].objs == objs && run[k].threads[t].mode == mode
  }

  ghost predicate InDequeue(run: seq<State>, t: nat, j: nat, i: nat, max: nat, mode: Mode)
    requires j <= i < |run|
  {
    forall k | j <= k <= i ::
      && t < |run[k].threads| && Dequeuing(run[k].threads[t])
      && run[k].threads[t].max == max && run[k].threads[t].mode == mode
  }

  /** How a thread comes to hold a head it has read. */
  lemma ReadSteps(c: Config, s: State, s': State, t: nat)
    requires Next(c, s, s') && t < |s'.threads|
    ensures |s.threads| == |s'.threads|
    ensures var p, p' := s.threads[t], s'.threads[t];
            && (p'.EnqHead? ==>
                  p' == p || (p == EnqStart(p'.objs, p'.mode) && p'.head == s.mem.prodHead && s'.mem == s.mem))
            && (p'.EnqTail? ==>
                  p' == p || (p == EnqHead(p'.objs, p'.mode, p'.head) && p'.tail == s.mem.consTail))
            && (p'.DeqHead? ==>
                  p' == p || (p == DeqStart(p'.max, p'.mode) && p'.head == s.mem.consHead && s'.mem == s.mem))
            && (p'.DeqTail? ==>
                  p' == p || (p == DeqHead(p'.max, p'.mode, p'.head) && p'.tail == s.mem.prodTail))
  {
    var u: nat, a :| NextBy(c, s, s', u, a);
  }

  /** The instant at which the current attempt read prod.head: the indices it works with bound the room then. */
  lemma {:induction false} HeadReadAt(c: Config, run: seq<State>, i: nat, t: nat) returns (j: nat)
    requires IsRun(c, run) && i < |run| && t < |run[i].threads|
    requires run[i].threads[t].EnqHead? || run[i].threads[t].EnqTail?
    ensures var p := run[i].threads[t];
            && j <= i && InEnqueue(run, t, j, i, p.objs, p.mode)
            && run[j].mem.prodHead == p.head
            && run[j].mem.consTail <= (if p.EnqHead? then run[i].mem.consTail else p.tail)
  {
    j := i;
    if i > 0 {
      assert Next(c, run[i - 1], run[i]);
      InvRun(c, run, i - 1);
      TailsGrow(c, run[i - 1], run[i]);
      ReadSteps(c, run[i - 1], run[i], t);
      if !run[i - 1].threads[t].EnqStart? {
        j := HeadReadAt(c, run, i - 1, t);
      }
    }
  }

  lemma {:induction false} ConsHeadReadAt(c: Config, run: seq<State>, i: nat, t: nat) returns (j: nat)
    requires IsRun(c, run) && i < |run| && t < |run[i].threads|
    requires run[i].threads[t].DeqHead? || run[i].threads[t].DeqTail?
    ensures var p := run[i].threads[t];
            && j <= i && InDequeue(run, t, j, i, p.max, p.mode)
            && run[j].mem.consHead == p.head
            && run[j].mem.prodTail <= (if p.DeqHead? then run[i].mem.prodTail else p.tail)
  {
    j := i;
    if i > 0 {
      assert Next(c, run[i - 1], run[i]);
      InvRun(c, run, i - 1);
      TailsGrow(c, run[i - 1], run[i]);
      ReadSteps(c, run[i - 1], run[i], t);
      if !run[i - 1].threads[t].DeqStart? {
        j := ConsHeadReadAt(c, run, i - 1, t);
      }
    }
  }

  /**
   A call is refused for lack of room only if at some instant during that call the unreserved room really was
   smaller than the request (zero for a burst), although the two indices are read in separate steps. Unlike a
   reservation, a refusal is not confirmed by a compare-and-swap, so here the indices must not have advanced by more
   than 2^32 - size in between: beyond that free_entries itself wraps.
   */
  lemma NoRoomJustified(c: Config, run: seq<State>, i: nat, t: nat)
    requires IsRun(c, run) && i + 1 < |run| && t < |run[i].threads| == |run[i + 1].threads|
    requires run[i].threads[t].EnqTail? && run[i + 1].threads[t].EnqRefused?
    requires run[i].mem.prodHead - run[i].threads[t].head <= TWO32 - c.size
    ensures var p := run[i].threads[t];
            exists j: nat :: j <= i && InEnqueue(run, t, j, i, p.objs, p.mode)
              && Room(c, run[j].mem) < Need(|p.objs|, p.mode)
  {
    var p := run[i].threads[t];
    InvRun(c, run, i);
    assert Own(c, run[i].mem, p) && Recent(run[i].mem, p);
    assert Next(c, run[i], run[i + 1]);
    var u: nat, a :| NextBy(c, run[i], run[i + 1], u, a);
    FreeExact(c, p.head, p.tail);
    var j := HeadReadAt(c, run, i, t);
  }

  lemma NoEntryJustified(c: Config, run: seq<State>, i: nat, t: nat)
    requires IsRun(c, run) && i + 1 < |run| && t < |run[i].threads| == |run[i + 1].threads|
    requires run[i].threads[t].DeqTail? && run[i + 1].threads[t].DeqRefused?
    requires run[i].mem.consHead - run[i].threads[t].head <= TWO32 - c.size
    ensures var p := run[i].threads[t];
            exists j: nat :: j <= i && InDequeue(run, t, j, i, p.max, p.mode)
              && Entries(run[j].mem) < Need(p.max, p.mode)
  {
    var p := run[i].threads[t];
    InvRun(c, run, i);
    assert Own(c, run[i].mem, p) && Recent(run[i].mem, p);
    assert Next(c, run[i], run[i + 1]);
    var u: nat, a :| NextBy(c, run[i], run[i + 1], u, a);
    UsedExact(p.head, p.tail);
    var j := ConsHeadReadAt(c, run, i, t);
    assert Entries(run[j].mem) <= p.tail - p.head;
  }

  // ---- Queries

  lemma WrappedDifferences(tail: nat, used: nat)
    requires used < TWO32
    ensures W32(W32(tail + used) - W32(tail)) == used
    ensures W32(W32(tail) - W32(tail + used) - 1) == TWO32 - 1 - used
  {}

  lemma CountExact(size: nat, used: nat)
    requires IsPow2(size) && 0 < size <= TWO32 && used < size
    ensures used % size == used && (TWO32 - 1 - used) % size == size - 1 - used
  {
    DivModUnique(used, size, 0, used);
    FreeRemainder(size, used);
  }

  lemma FreeRemainder(size: nat, used: nat)
    requires IsPow2(size) && 0 < size <= TWO32 && used < size
    ensures (TWO32 - 1 - used) % size == size - 1 - used
  {
    var k: nat :| Pow2(k) == size;
    var f := Cofactor(k);
    assert (f - 1) * size == f * size - size;
    DivModUnique(TWO32 - 1 - used, size, f - 1, size - 1 - used);
  }

  /** What the four queries compute from the two tails they loaded, in 32 bits. */
  function QueryCount(c: Config, prod: nat, cons: nat): nat
    requires 0 < c.size
  {
    BitAnd(W32(W32(prod) - W32(cons)), c.size - 1)
  }

  function QueryFree(c: Config, prod: nat, cons: nat): nat
    requires 0 < c.size
  {
    BitAnd(W32(W32(cons) - W32(prod) - 1), c.size - 1)
  }

  predicate QueryFull(c: Config, prod: nat, cons: nat)
    requires 0 < c.size
  {
    QueryFree(c, prod, cons) == 0
  }

  predicate QueryEmpty(prod: nat, cons: nat) {
    W32(cons) == W32(prod)
  }

  lemma QueriesOfWindow(c: Config, prod: nat, cons: nat)
    requires ValidConfig(c) && cons <= prod <= cons + c.size - 1
    ensures QueryCount(c, prod, cons) == prod - cons && QueryFree(c, prod, cons) == c.size - 1 - (prod - cons)
    ensures QueryEmpty(prod, cons) <==> prod == cons
  {
    var used := prod - cons;
    WrapEqual(cons, prod);
    WrappedDifferences(cons, used);
    MaskOfWord(used, c.size);
    MaskOfWord(TWO32 - 1 - used, c.size);
    CountExact(c.size, used);
  }

  lemma MaskedBelow(c: Config, x: nat)
    requires ValidConfig(c) && x < TWO32
    ensures BitAnd(x, c.size - 1) < c.size
  {
    MaskOfWord(x, c.size);
  }

  /** Thread t is inside one and the same query from state j to state i. */
  ghost predicate InQuery(run: seq<State>, t: nat, j: nat, i: nat)
    requires j <= i < |run|
  {
    forall k | j <= k <= i :: t < |run[k].threads| && (run[k].threads[t].QueryStart? || run[k].threads[t].QueryHalf?)
  }

  /** The instant of the first load. */
  lemma {:induction false} ProdTailReadAt(c: Config, run: seq<State>, i: nat, t: nat) returns (j: nat)
    requires IsRun(c, run) && i < |run| && t < |run[i].threads| && run[i].threads[t].QueryHalf?
    ensures j <= i && InQuery(run, t, j, i) && run[j].mem.prodTail == run[i].threads[t].prod
    ensures run[j].mem.consTail <= run[i].mem.consTail && run[j].mem.prodTail <= run[i].mem.prodTail
  {
    j := i;
    if i > 0 {
      assert Next(c, run[i - 1], run[i]);
      TailsGrowAt(c, run, i - 1);
      QuerySteps(c, run[i - 1], run[i], t);
      if run[i - 1].threads[t].QueryHalf? {
        j := ProdTailReadAt(c, run, i - 1, t);
      } else {
        j := i - 1;
      }
    }
  }

  lemma QuerySteps(c: Config, s: State, s': State, t: nat)
    requires Next(c, s, s') && t < |s'.threads|
    ensures |s.threads| == |s'.threads|
    ensures var p, p' := s.threads[t], s'.threads[t];
            && (p'.QueryHalf? ==> p' == p || (p.QueryStart? && p'.prod == s.mem.prodTail && s'.mem == s.mem))
            && (p'.QueryDone? ==>
                  p' == p || (p == QueryHalf(p'.prod) && p'.cons == s.mem.consTail && s'.mem == s.mem))
  {
    var u: nat, a :| NextBy(c, s, s', u, a);
  }

  /**
   odph_ring_count, odph_ring_free_count, odph_ring_full and odph_ring_empty load prod.tail at one instant j and
   cons.tail at a later one. Their results are exact for those two values if and only if the second has not passed
   the first; they are then at most the number of entries at either instant. That is so whenever one of the tails
   did not move in between, but not otherwise (MiscountedRun).
   */
  lemma QueriesExact(c: Config, run: seq<State>, i: nat, t: nat) returns (j: nat)
    requires IsRun(c, run) && i + 1 < |run| && t < |run[i].threads| == |run[i + 1].threads|
    requires run[i].threads[t].QueryHalf? && run[i + 1].threads[t].QueryDone?
    ensures j <= i && InQuery(run, t, j, i)
    ensures var QueryDone(prod, cons) := run[i + 1].threads[t];
            && prod == run[j].mem.prodTail && cons == run[i].mem.consTail
            && (QueryCount(c, prod, cons) == prod - cons <==> cons <= prod)
            && (QueryFree(c, prod, cons) == c.size - 1 - (prod - cons) <==> cons <= prod)
            && (cons <= prod ==>
                  && (QueryFull(c, prod, cons) <==> prod - cons == c.size - 1)
                  && (QueryEmpty(prod, cons) <==> prod == cons)
                  && prod - cons <= run[j].mem.prodTail - run[j].mem.consTail
                  && prod - cons <= run[i].mem.prodTail - run[i].mem.consTail)
            && (run[i].mem.prodTail == prod || run[j].mem.consTail == cons ==> cons <= prod)
  {
    j := ProdTailReadAt(c, run, i, t);
    InvRun(c, run, i);
    InvRun(c, run, i + 1);
    InvRun(c, run, j);
    assert Next(c, run[i], run[i + 1]);
    QuerySteps(c, run[i], run[i + 1], t);
    var QueryDone(prod, cons) := run[i + 1].threads[t];
    assert Own(c, run[i + 1].mem, run[i + 1].threads[t]);
    MaskedBelow(c, W32(W32(cons) - W32(prod) - 1));
    if cons <= prod {
      QueriesOfWindow(c, prod, cons);
    }
  }

  // ---- A query that is wrong

  /** Thread t's query loaded both tails from an empty ring, at j and at i, and counts an entry and a full ring. */
  ghost predicate Miscounts(c: Config, run: seq<State>, t: nat, j: nat, i: nat) {
    && IsRun(c, run) && j <= i && i + 1 < |run| && InQuery(run, t, j, i)
    && t < |run[i + 1].threads| && run[i + 1].threads[t].QueryDone?
    && run[j].mem.prodTail == run[j].mem.consTail && run[i].mem.prodTail == run[i].mem.consTail
    && var QueryDone(prod, cons) := run[i + 1].threads[t];
       && prod == run[j].mem.prodTail && cons == run[i].mem.consTail
       && QueryCount(c, prod, cons) == 1 && QueryFull(c, prod, cons)
  }

  /** A ring of two slots with one thread that queries and one that puts an item and takes it out. */
  const TWO_SLOTS := Config(2, 2, false, false)

  function Stepped(c: Config, s: State, t: nat, a: Action): State
    requires t < |s.threads| && |s.mem.slots| == c.size > 0
  {
    var (m, pc) := Apply(c, s.mem, s.threads[t], a);
    State(m, s.threads[t := pc])
  }

  lemma RunExtends(c: Config, run: seq<State>, t: nat, a: Action) returns (run': seq<State>)
    requires IsRun(c, run) && Enabled(c, run[|run| - 1], t, a) && NoStall(Stepped(c, run[|run| - 1], t, a))
    ensures run' == run + [Stepped(c, run[|run| - 1], t, a)] && IsRun(c, run')
  {
    var last := run[|run| - 1];
    var next := Stepped(c, last, t, a);
    run' := run + [next];
    assert NextBy(c, last, next, t, a);
    assert Next(c, last, next);
    forall i | 0 <= i < |run'| - 1 ensures Next(c, run'[i], run'[i + 1]) {
      assert i < |run| - 1 ==> Next(c, run[i], run[i + 1]);
    }
  }

  /** One more step of the second thread, in the run below. */
  lemma Other(run: seq<State>, a: Action, m: Mem, pc: Pc) returns (run': seq<State>)
    requires IsRun(TWO_SLOTS, run) && |run| > 2 && InQuery(run, 0, 2, |run| - 1)
    requires |run[|run| - 1].threads| == 2 && run[|run| - 1].threads[0] == QueryHalf(0)
    requires Enabled(TWO_SLOTS, run[|run| - 1], 1, a)
    requires Apply(TWO_SLOTS, run[|run| - 1].mem, run[|run| - 1].threads[1], a) == (m, pc) && Recent(m, pc)
    ensures IsRun(TWO_SLOTS, run') && |run'| == |run| + 1 && run <= run' && InQuery(run', 0, 2, |run'| - 1)
    ensures run'[|run|] == State(m, [QueryHalf(0), pc])
  {
    run' := RunExtends(TWO_SLOTS, run, 1, a);
    assert run'[|run|].threads == [QueryHalf(0), pc];
  }

  lemma HalfQueried() returns (run: seq<State>)
    ensures IsRun(TWO_SLOTS, run) && |run| == 3 && InQuery(run, 0, 2, 2)
    ensures run[2] == State(Mem([0, 0], 0, 0, 0, 0, [], []), [QueryHalf(0), Idle])
  {
    var s0 := State(Mem([0, 0], 0, 0, 0, 0, [], []), [Idle, Idle]);
    assert Pow2(1) == 2;
    run := [s0];
    assert IsRun(TWO_SLOTS, run);
    run := RunExtends(TWO_SLOTS, run, 0, CallQuery);
    run := RunExtends(TWO_SLOTS, run, 0, Proceed);
    assert run[2].threads == [QueryHalf(0), Idle];
  }

  lemma ReservedOne(before: seq<State>) returns (run: seq<State>)
    requires IsRun(TWO_SLOTS, before) && |before| == 3 && InQuery(before, 0, 2, 2)
    requires before[2] == State(Mem([0, 0], 0, 0, 0, 0, [], []), [QueryHalf(0), Idle])
    ensures IsRun(TWO_SLOTS, run) && |run| > 3 && before <= run && InQuery(run, 0, 2, |run| - 1)
    ensures run[|run| - 1] ==
            State(Mem([0, 0], 1, 0, 0, 0, [7], []), [QueryHalf(0), EnqCopy([7], Fixed, 0, 1, 1, 0)])
  {
    var m := before[2].mem;
    assert [7][..1] == [7] && [] + [7] == [7];
    run := Other(before, CallEnqueue([7], Fixed), m, EnqStart([7], Fixed));
    run := Other(run, Proceed, m, EnqHead([7], Fixed, 0));
    run := Other(run, Proceed, m, EnqTail([7], Fixed, 0, 0));
    run := Other(run, Proceed, m.(prodHead := 1, put := [7]), EnqCopy([7], Fixed, 0, 1, 1, 0));
  }

  lemma PutOne(before: seq<State>) returns (run: seq<State>)
    requires IsRun(TWO_SLOTS, before) && |before| > 3 && InQuery(before, 0, 2, |before| - 1)
    requires before[|before| - 1] ==
             State(Mem([0, 0], 1, 0, 0, 0, [7], []), [QueryHalf(0), EnqCopy([7], Fixed, 0, 1, 1, 0)])
    ensures IsRun(TWO_SLOTS, run) && |run| > 3 && before <= run && InQuery(run, 0, 2, |run| - 1)
    ensures run[|run| - 1] == State(Mem([7, 0], 1, 1, 0, 0, [7], []), [QueryHalf(0), Idle])
  {
    var stored := before[|before| - 1].mem.(slots := [7, 0]);
    var published := stored.(prodTail := 1);
    assert [0, 0][0 := 7] == [7, 0];
    run := Other(before, Proceed, stored, EnqCopy([7], Fixed, 0, 1, 1, 1));
    run := Other(run, Proceed, published, EnqDone([7], Fixed, 1, false));
    run := Other(run, Proceed, published, Idle);
  }

  lemma ClaimedOne(before: seq<State>) returns (run: seq<State>)
    requires IsRun(TWO_SLOTS, before) && |before| > 3 && InQuery(before, 0, 2, |before| - 1)
    requires before[|before| - 1] == State(Mem([7, 0], 1, 1, 0, 0, [7], []), [QueryHalf(0), Idle])
    ensures IsRun(TWO_SLOTS, run) && |run| > 3 && before <= run && InQuery(run, 0, 2, |run| - 1)
    ensures run[|run| - 1] ==
            State(Mem([7, 0], 1, 1, 1, 0, [7], []), [QueryHalf(0), DeqCopy(1, Fixed, 0, 1, [])])
  {
    var m := before[|before| - 1].mem;
    run := Other(before, CallDequeue(1, Fixed), m, DeqStart(1, Fixed));
    run := Other(run, Proceed, m, DeqHead(1, Fixed, 0));
    run := Other(run, Proceed, m, DeqTail(1, Fixed, 0, 1));
    run := Other(run, Proceed, m.(consHead := 1), DeqCopy(1, Fixed, 0, 1, []));
  }

  lemma TakeOne(before: seq<State>) returns (run: seq<State>)
    requires IsRun(TWO_SLOTS, before) && |before| > 3 && InQuery(before, 0, 2, |before| - 1)
    requires before[|before| - 1] ==
             State(Mem([7, 0], 1, 1, 1, 0, [7], []), [QueryHalf(0), DeqCopy(1, Fixed, 0, 1, [])])
    ensures IsRun(TWO_SLOTS, run) && |run| > 3 && before <= run && InQuery(run, 0, 2, |run| - 1)
    ensures run[|run| - 1] ==
            State(Mem([7, 0], 1, 1, 1, 1, [7], [7]), [QueryHalf(0), DeqDone(1, Fixed, 0, [7])])
  {
    var m := before[|before| - 1].mem;
    assert [] + [7] == [7];
    run := Other(before, Proceed, m, DeqCopy(1, Fixed, 0, 1, [7]));
    run := Other(run, Proceed, m.(consTail := 1, taken := [7]), DeqDone(1, Fixed, 0, [7]));
  }

  /** The queries can be wrong: here the ring is empty at both loads and reported to hold an entry and be full. */
  lemma MiscountedRun()
    ensures exists c, run, t: nat, j: nat, i: nat :: Miscounts(c, run, t, j, i)
  {
    var half := HalfQueried();
    var reserved := ReservedOne(half);
    var put := PutOne(reserved);
    var claimed := ClaimedOne(put);
    var run := TakeOne(claimed);
    var i := |run| - 1;
    assert run[2] == half[2];
    var all := RunExtends(TWO_SLOTS, run, 0, Proceed);
    assert all[i + 1].threads[0] == QueryDone(0, 1);
    assert BitAnd(TWO32 - 1, 1) == 2 * BitAnd((TWO32 - 1) / 2, 0) + 1;
    assert Miscounts(TWO_SLOTS, all, 0, 2, i);
  }
}
