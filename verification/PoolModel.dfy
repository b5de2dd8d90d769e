/**
 The buffer pool as a step machine over any number of threads: two shared free lists, of headers and of data blocks,
 and a cache of headers per thread. Each primitive (get_blk, ret_blk, the pop of get_buf, the push of ret_buf, the
 counting that either does after its unlock, an access to the thread's own cache) is one step, so that allocations,
 frees and flushes of different threads interleave.
 */
module PoolModel {
  import opened Cardinality
  import opened Options
  import opened Words

  /** ODP_BUFFER_MAX_SEG. */
  const MAX_SEG: nat := 6

  /**
   inlined: data of up to ODP_MAX_INLINE_BUF bytes lives in the header (hdrdata), which has no blocks. raw: a pool of
   plain buffers; a raw or inlined buffer keeps its data when it is freed.
   */
  datatype Config = Config(
    segSize: nat, unsegmented: bool, raw: bool, inlined: bool, headroom: nat, tailroom: nat, lowWm: nat, highWm: nat)

  predicate ConfigOk(c: Config) {
    && (c.inlined ==> c.unsegmented) && (c.raw ==> c.unsegmented) && (!c.inlined ==> c.segSize > 0)
    && (c.unsegmented ==> c.raw || c.inlined)
  }

  /** addr[..segcount]: the blocks of a buffer. */
  datatype Hdr = Hdr(addr: seq<nat>, size: nat)

  datatype Local = Local(cache: seq<nat>, allocs: nat, frees: nat)

  /** What a thread does when its ret_buf is through. */
  datatype After = Freed | AllocFailed | RefillFailed(tot: nat) | Flushed(n: nat, destroy: bool)

  /** Popped and Pushed: get_buf and ret_buf after their unlock, before bufcount and the statistics are updated. */
  datatype Pc =
    | Idle
    | Attach(h: nat, tot: nat, needed: int, cached: bool)
    | AskPool(tot: nat)
    | Popped(h: nat, tot: nat)
    | Return(h: nat, after: After)
    | Pushed(after: After)
    | Flush(n: nat, destroy: bool)

  /** Where a header is. */
  datatype Place = InPool | InCache(t: nat) | Hand(t: nat) | Allocated

  /** bufCount is bufcount before it is cut to 32 bits. */
  datatype State = State(
    cfg: Config, hdrs: seq<Hdr>, bufFree: seq<nat>, blkFree: seq<nat>, bufCount: int,
    allocs: int, frees: int, lowWmAssert: bool, locals: seq<Local>, pcs: seq<Pc>,
    place: seq<Place>, owner: seq<Option<nat>>, gone: bool)

  function HandOf(pc: Pc): Option<nat> {
    match pc
    case Attach(h, _, _, _) => Some(h)
    case Popped(h, _) => Some(h)
    case Return(h, _) => Some(h)
    case _ => None
  }

  predicate KeepsData(c: Config) {
    c.inlined || c.raw
  }

  predicate Sized(s: State) {
    |s.place| == |s.hdrs| < TWO32 && |s.locals| == |s.pcs| && ConfigOk(s.cfg)
  }

  // ---- Steps

  function SetPc(s: State, t: nat, pc: Pc): State
    requires t < |s.pcs|
  {
    s.(pcs := s.pcs[t := pc])
  }

  /** buffer_alloc rejects what no buffer of the pool can hold. */
  predicate TooBig(c: Config, tot: nat) {
    if c.unsegmented then tot > c.segSize else tot > c.segSize * MAX_SEG
  }

  /** buffer_alloc with the start of get_local_buf: the first cached header is taken, if there is one. */
  function StepAlloc(s: State, t: nat, size: nat): State
    requires Sized(s) && t < |s.pcs| && (s.locals[t].cache != [] ==> s.locals[t].cache[0] < |s.hdrs|)
  {
    var tot := s.cfg.headroom + size + s.cfg.tailroom;
    var l := s.locals[t];
    if TooBig(s.cfg, tot) then s
    else if l.cache == [] then SetPc(s, t, AskPool(tot))
    else
      var h := l.cache[0];
      if s.hdrs[h].size < tot then
        s.(locals := s.locals[t := l.(cache := l.cache[1..])], place := s.place[h := Hand(t)],
           pcs := s.pcs[t := Attach(h, tot, tot - s.hdrs[h].size, true)])
      else
        s.(locals := s.locals[t := l.(cache := l.cache[1..], allocs := l.allocs + 1)],
           place := s.place[h := Allocated])
  }

  /** get_buf up to its unlock. */
  function StepGetBuf(s: State, t: nat): State
    requires Sized(s) && t < |s.pcs| && s.pcs[t].AskPool?
    requires s.bufFree != [] ==> s.bufFree[0] < |s.hdrs|
  {
    if s.bufFree == [] then SetPc(s, t, Idle)
    else
      var h := s.bufFree[0];
      s.(bufFree := s.bufFree[1..], place := s.place[h := Hand(t)], pcs := s.pcs[t := Popped(h, s.pcs[t].tot)])
  }

  /** The rest of get_buf, and the test whether blocks are missing. */
  function StepCountGet(s: State, t: nat): State
    requires Sized(s) && t < |s.pcs| && s.pcs[t].Popped? && s.pcs[t].h < |s.hdrs|
  {
    var Popped(h, tot) := s.pcs[t];
    var s1 := s.(bufCount := s.bufCount - 1, allocs := s.allocs + 1,
                 lowWmAssert := s.lowWmAssert || W32(s.bufCount - 1) == s.cfg.lowWm);
    if s.hdrs[h].size < tot then s1.(pcs := s.pcs[t := Attach(h, tot, tot - s.hdrs[h].size, false)])
    else s1.(place := s.place[h := Allocated], pcs := s.pcs[t := Idle])
  }

  /** One round of the loop that attaches blocks: get_blk, and the end of the loop when enough is there. */
  function StepGetBlk(s: State, t: nat): State
    requires Sized(s) && t < |s.pcs| && s.pcs[t].Attach? && s.pcs[t].h < |s.hdrs|
    requires s.blkFree != [] ==> s.blkFree[0] < |s.owner|
  {
    var Attach(h, tot, needed, cached) := s.pcs[t];
    if s.blkFree == [] then
      SetPc(s, t, Return(h, if cached then RefillFailed(tot) else AllocFailed))
    else
      var b := s.blkFree[0];
      var addr := s.hdrs[h].addr + [b];
      var s1 := s.(blkFree := s.blkFree[1..], owner := s.owner[b := Some(h)]);
      if needed - s.cfg.segSize > 0 then
        s1.(hdrs := s.hdrs[h := s.hdrs[h].(addr := addr)],
            pcs := s.pcs[t := Attach(h, tot, needed - s.cfg.segSize, cached)])
      else
        s1.(hdrs := s.hdrs[h := Hdr(addr, |addr| * s.cfg.segSize)], place := s.place[h := Allocated],
            pcs := s.pcs[t := Idle],
            locals := if cached then s.locals[t := s.locals[t].(allocs := s.locals[t].allocs + 1)] else s.locals)
  }

  /** One round of the loop of ret_buf: ret_blk of the last block. */
  function StepRetBlk(s: State, t: nat): State
    requires Sized(s) && t < |s.pcs| && s.pcs[t].Return? && s.pcs[t].h < |s.hdrs|
    requires var addr := s.hdrs[s.pcs[t].h].addr; addr != [] && addr[|addr| - 1] < |s.owner|
  {
    var h := s.pcs[t].h;
    var addr := s.hdrs[h].addr;
    var b := addr[|addr| - 1];
    s.(hdrs := s.hdrs[h := s.hdrs[h].(addr := addr[..|addr| - 1])], blkFree := [b] + s.blkFree,
       owner := s.owner[b := None])
  }

  /** What the caller of ret_buf does next, and to the thread's counters. */
  function Resume(after: After): Pc {
    match after
    case Freed => Idle
    case AllocFailed => Idle
    case RefillFailed(tot) => AskPool(tot)
    case Flushed(n, destroy) => Flush(n + 1, destroy)
  }

  function Settled(l: Local, after: After): Local
    requires after.RefillFailed? ==> l.frees > 0
  {
    if after.RefillFailed? then l.(frees := l.frees - 1) else l
  }

  /** The header goes on the free list, up to the unlock of ret_buf. */
  function StepRetBuf(s: State, t: nat): State
    requires Sized(s) && t < |s.pcs| && s.pcs[t].Return? && s.pcs[t].h < |s.hdrs|
  {
    var Return(h, after) := s.pcs[t];
    s.(hdrs := if KeepsData(s.cfg) then s.hdrs else s.hdrs[h := s.hdrs[h].(size := 0)],
       bufFree := [h] + s.bufFree, place := s.place[h := InPool], pcs := s.pcs[t := Pushed(after)])
  }

  /** The rest of ret_buf, and what its caller does to the thread's counters. */
  function StepCountRet(s: State, t: nat): State
    requires Sized(s) && t < |s.pcs| && s.pcs[t].Pushed?
    requires s.pcs[t].after.RefillFailed? ==> s.locals[t].frees > 0
  {
    var after := s.pcs[t].after;
    s.(bufCount := s.bufCount + 1, frees := s.frees + 1,
       lowWmAssert := s.lowWmAssert && W32(s.bufCount + 1) != s.cfg.highWm,
       pcs := s.pcs[t := Resume(after)], locals := s.locals[t := Settled(s.locals[t], after)])
  }

  /** odp_buffer_free: back to the pool while buffers are low, else to the thread's cache. */
  function StepFree(s: State, t: nat, h: nat): State
    requires Sized(s) && t < |s.pcs| && h < |s.hdrs|
  {
    if s.lowWmAssert then s.(place := s.place[h := Hand(t)], pcs := s.pcs[t := Return(h, Freed)])
    else
      var l := s.locals[t];
      s.(locals := s.locals[t := l.(cache := [h] + l.cache, frees := l.frees + 1)],
         place := s.place[h := InCache(t)])
  }

  /** One round of flush_cache, or its end; odp_pool_destroy then compares bufcount with the number of headers. */
  function StepFlush(s: State, t: nat): State
    requires Sized(s) && t < |s.pcs| && s.pcs[t].Flush?
    requires s.locals[t].cache != [] ==> s.locals[t].cache[0] < |s.hdrs|
  {
    var Flush(n, destroy) := s.pcs[t];
    var l := s.locals[t];
    if l.cache != [] then
      var h := l.cache[0];
      s.(locals := s.locals[t := l.(cache := l.cache[1..])], place := s.place[h := Hand(t)],
         pcs := s.pcs[t := Return(h, Flushed(n, destroy))])
    else
      s.(allocs := s.allocs + l.allocs, frees := s.frees + (l.frees - n), locals := s.locals[t := Local([], 0, 0)],
         pcs := s.pcs[t := Idle], gone := destroy && W32(s.bufCount) >= |s.hdrs|)
  }

  // ---- The invariant

  predicate Distinct(list: seq<nat>) {
    forall i, j | 0 <= i < j < |list| :: list[i] != list[j]
  }

  /** The size counts the blocks, except while blocks are being attached or returned. */
  predicate SizeOk(s: State, h: nat)
    requires Sized(s) && h < |s.hdrs|
  {
    var Hdr(addr, size) := s.hdrs[h];
    if s.cfg.inlined then addr == [] && size == s.cfg.segSize
    else s.place[h].Hand? || size == |addr| * s.cfg.segSize
  }

  predicate HeaderOk(s: State, h: nat)
    requires Sized(s) && h < |s.hdrs|
  {
    && SizeOk(s, h)
    && |s.hdrs[h].addr| <= (if s.cfg.unsegmented then 1 else MAX_SEG)
    && match s.place[h]
       case InPool => h in s.bufFree
       case InCache(t) => t < |s.locals| && h in s.locals[t].cache
       case Hand(t) => t < |s.pcs| && HandOf(s.pcs[t]) == Some(h)
       case Allocated => true
  }

  /** Headers the thread's own counters still show in its cache: taken out to be refilled, returned or flushed. */
  function Pending(pc: Pc): nat {
    match pc
    case Attach(_, _, _, cached) => if cached then 1 else 0
    case Return(_, RefillFailed(_)) => 1
    case Return(_, Flushed(n, _)) => n + 1
    case Pushed(RefillFailed(_)) => 1
    case Pushed(Flushed(n, _)) => n + 1
    case Flush(n, _) => n
    case _ => 0
  }

  predicate PcOk(s: State, t: nat, pc: Pc)
    requires Sized(s)
  {
    match pc
    case Idle => true
    case AskPool(tot) => !TooBig(s.cfg, tot)
    case Flush(_, _) => true
    case Attach(h, tot, needed, _) =>
      && h < |s.hdrs| && s.place[h] == Hand(t) && !s.cfg.inlined && !TooBig(s.cfg, tot)
      && needed > 0 && needed == tot - |s.hdrs[h].addr| * s.cfg.segSize
      && (s.cfg.raw ==> s.hdrs[h].size == |s.hdrs[h].addr| * s.cfg.segSize)
    case Popped(h, tot) =>
      && h < |s.hdrs| && s.place[h] == Hand(t) && !TooBig(s.cfg, tot)
      && (!s.cfg.inlined ==> s.hdrs[h].size == |s.hdrs[h].addr| * s.cfg.segSize)
    case Pushed(after) => after.RefillFailed? ==> !TooBig(s.cfg, after.tot)
    case Return(h, after) =>
      && h < |s.hdrs| && s.place[h] == Hand(t)
      && (!s.cfg.inlined && s.cfg.raw ==> s.hdrs[h].size == |s.hdrs[h].addr| * s.cfg.segSize)
      && (after.RefillFailed? ==> !TooBig(s.cfg, after.tot))
  }

  predicate ThreadOk(s: State, t: nat)
    requires Sized(s) && t < |s.pcs|
  {
    var l := s.locals[t];
    && PcOk(s, t, s.pcs[t])
    && (forall k | 0 <= k < |l.cache| :: l.cache[k] < |s.hdrs| && s.place[l.cache[k]] == InCache(t))
    && Distinct(l.cache)
    && l.frees - l.allocs == |l.cache| + Pending(s.pcs[t])
  }

  predicate PoolOk(s: State)
    requires Sized(s)
  {
    && (forall k | 0 <= k < |s.bufFree| :: s.bufFree[k] < |s.hdrs| && s.place[s.bufFree[k]] == InPool)
    && Distinct(s.bufFree)
  }

  /** By how much a thread between unlock and counting makes bufcount differ from the length of the free list. */
  function Uncounted(pc: Pc): int {
    if pc.Popped? then 1 else if pc.Pushed? then -1 else 0
  }

  /** The same for the threads below k. */
  function Between(pcs: seq<Pc>, k: nat): int
    requires k <= |pcs|
  {
    if k == 0 then 0 else Between(pcs, k - 1) + Uncounted(pcs[k - 1])
  }

  predicate CountOk(s: State) {
    s.bufCount == |s.bufFree| + Between(s.pcs, |s.pcs|) && s.allocs - s.frees == |s.hdrs| - s.bufCount
  }

  /** Every block is on the free list or in the array of the one header that owns it. */
  predicate BlockOk(s: State, b: nat)
    requires b < |s.owner|
  {
    match s.owner[b]
    case None => b in s.blkFree
    case Some(h) => h < |s.hdrs| && b in s.hdrs[h].addr
  }

  predicate BlkFreeOk(s: State) {
    (forall k | 0 <= k < |s.blkFree| :: s.blkFree[k] < |s.owner| && s.owner[s.blkFree[k]] == None)
    && Distinct(s.blkFree)
  }

  predicate AddrOk(s: State, h: nat)
    requires h < |s.hdrs|
  {
    var addr := s.hdrs[h].addr;
    (forall k | 0 <= k < |addr| :: addr[k] < |s.owner| && s.owner[addr[k]] == Some(h)) && Distinct(addr)
  }

  ghost predicate Headers(s: State) requires Sized(s) { forall h: nat | h < |s.hdrs| :: HeaderOk(s, h) }
  ghost predicate Threads(s: State) requires Sized(s) { forall t: nat | t < |s.pcs| :: ThreadOk(s, t) }

  ghost predicate Blocks(s: State) {
    && (forall b: nat | b < |s.owner| :: BlockOk(s, b)) && BlkFreeOk(s)
    && (forall h: nat | h < |s.hdrs| :: AddrOk(s, h))
  }

  ghost predicate Inv(s: State) {
    Sized(s) && Headers(s) && Threads(s) && PoolOk(s) && CountOk(s) && Blocks(s)
  }

  // ---- Steps touch one thread and at most one header

  predicate Touches(s: State, s': State, t: nat, h: nat)
    requires Sized(s) && Sized(s')
  {
    && |s'.hdrs| == |s.hdrs| && |s'.pcs| == |s.pcs| && t < |s.pcs| && h < |s.hdrs| && s'.cfg == s.cfg
    && (forall x: nat | x < |s.hdrs| && x != h :: s'.hdrs[x] == s.hdrs[x] && s'.place[x] == s.place[x])
    && (forall u: nat | u < |s.pcs| && u != t :: s'.pcs[u] == s.pcs[u] && s'.locals[u] == s.locals[u])
  }

  lemma HeadersKept(s: State, s': State, t: nat, h: nat)
    requires Sized(s) && Sized(s') && Headers(s) && Touches(s, s', t, h)
    requires HandOf(s.pcs[t]).Some? ==> HandOf(s.pcs[t]).value == h
    requires forall x | x in s.bufFree && x != h :: x in s'.bufFree
    requires forall x | x in s.locals[t].cache && x != h :: x in s'.locals[t].cache
    requires HeaderOk(s', h)
    ensures Headers(s')
  {
    forall x: nat | x < |s'.hdrs| ensures HeaderOk(s', x) {
      assert HeaderOk(s, x);
    }
  }

  /** The header is not with a thread other than t. */
  predicate NotElsewhere(place: Place, t: nat) {
    (place.InCache? ==> place.t == t) && (place.Hand? ==> place.t == t)
  }

  lemma ThreadsKept(s: State, s': State, t: nat, h: nat)
    requires Sized(s) && Sized(s') && Threads(s) && Touches(s, s', t, h) && NotElsewhere(s.place[h], t)
    requires ThreadOk(s', t)
    ensures Threads(s')
  {
    forall u: nat | u < |s'.pcs| ensures ThreadOk(s', u) {
      assert ThreadOk(s, u);
    }
  }

  lemma {:induction false} BetweenMoves(pcs: seq<Pc>, t: nat, pc: Pc, k: nat)
    requires t < |pcs| && k <= |pcs|
    ensures Between(pcs[t := pc], k) == Between(pcs, k) + if t < k then Uncounted(pc) - Uncounted(pcs[t]) else 0
  {
    if k > 0 {
      BetweenMoves(pcs, t, pc, k - 1);
    }
  }

  /** One thread moves, and the counts with it. */
  lemma CountKept(s: State, s': State, t: nat)
    requires CountOk(s) && t < |s.pcs| == |s'.pcs| && s'.pcs == s.pcs[t := s'.pcs[t]] && |s'.hdrs| == |s.hdrs|
    requires s'.bufCount - |s'.bufFree| - Uncounted(s'.pcs[t]) == s.bufCount - |s.bufFree| - Uncounted(s.pcs[t])
    requires s'.allocs - s'.frees + s'.bufCount == s.allocs - s.frees + s.bufCount
    ensures CountOk(s')
  {
    BetweenMoves(s.pcs, t, s'.pcs[t], |s.pcs|);
  }

  lemma BlocksKept(s: State, s': State)
    requires Blocks(s) && s'.owner == s.owner && s'.blkFree == s.blkFree && |s'.hdrs| == |s.hdrs|
    requires forall x: nat | x < |s.hdrs| :: s'.hdrs[x].addr == s.hdrs[x].addr
    ensures Blocks(s')
  {
    forall b: nat | b < |s'.owner| ensures BlockOk(s', b) {
      assert BlockOk(s, b);
    }
    forall x: nat | x < |s'.hdrs| ensures AddrOk(s', x) {
      assert AddrOk(s, x);
    }
  }

  lemma BlocksAttached(s: State, s': State, h: nat)
    requires Blocks(s) && s.blkFree != [] && h < |s.hdrs| == |s'.hdrs| && s.blkFree[0] < |s.owner|
    requires s'.blkFree == s.blkFree[1..] && s'.owner == s.owner[s.blkFree[0] := Some(h)]
    requires s'.hdrs[h].addr == s.hdrs[h].addr + [s.blkFree[0]]
    requires forall x: nat | x < |s.hdrs| && x != h :: s'.hdrs[x] == s.hdrs[x]
    ensures Blocks(s')
  {
    var b0 := s.blkFree[0];
    assert s.owner[b0] == None;
    forall b: nat | b < |s'.owner| ensures BlockOk(s', b) {
      assert BlockOk(s, b);
      if s.owner[b] == None && b != b0 {
        var k :| 0 <= k < |s.blkFree| && s.blkFree[k] == b;
        assert s'.blkFree[k - 1] == b;
      } else if b == b0 {
        assert s'.hdrs[h].addr[|s.hdrs[h].addr|] == b0;
      } else if s.owner[b] == Some(h) {
        assert b in s'.hdrs[h].addr;
      }
    }
    forall x: nat | x < |s'.hdrs| ensures AddrOk(s', x) {
      assert AddrOk(s, x);
    }
  }

  lemma BlocksDetached(s: State, s': State, h: nat)
    requires Blocks(s) && h < |s.hdrs| == |s'.hdrs| && s.hdrs[h].addr != []
    requires var addr := s.hdrs[h].addr;
             var b := addr[|addr| - 1];
             && b < |s.owner| && s'.blkFree == [b] + s.blkFree && s'.owner == s.owner[b := None]
             && s'.hdrs[h].addr == addr[..|addr| - 1]
    requires forall x: nat | x < |s.hdrs| && x != h :: s'.hdrs[x] == s.hdrs[x]
    ensures Blocks(s')
  {
    var addr := s.hdrs[h].addr;
    var b0 := addr[|addr| - 1];
    assert AddrOk(s, h);
    forall b: nat | b < |s'.owner| ensures BlockOk(s', b) {
      assert BlockOk(s, b);
      if b == b0 || s.owner[b] == None {
        assert b in s'.blkFree;
      } else if s.owner[b] == Some(h) {
        var k :| 0 <= k < |addr| && addr[k] == b;
        assert s'.hdrs[h].addr[k] == b;
      }
    }
    forall x: nat | x < |s'.hdrs| ensures AddrOk(s', x) {
      assert AddrOk(s, x);
    }
  }

  /** A list without its first element: the rest is still there, and distinct. */
  lemma TailKeeps(list: seq<nat>)
    requires list != [] && Distinct(list)
    ensures Distinct(list[1..]) && list[0] !in list[1..]
    ensures forall x | x in list && x != list[0] :: x in list[1..]
  {
    forall x | x in list && x != list[0] ensures x in list[1..] {
      var k :| 0 <= k < |list| && list[k] == x;
      assert list[1..][k - 1] == x;
    }
  }

  // ---- Every step keeps the invariant

  lemma InvGoto(s: State, t: nat, pc: Pc)
    requires Inv(s) && t < |s.pcs| && HandOf(s.pcs[t]) == None && HandOf(pc) == None
    requires PcOk(s, t, pc) && Pending(pc) == Pending(s.pcs[t]) && Uncounted(pc) == Uncounted(s.pcs[t])
    ensures Inv(SetPc(s, t, pc))
  {
    var s' := SetPc(s, t, pc);
    forall h: nat | h < |s'.hdrs| ensures HeaderOk(s', h) {
      assert HeaderOk(s, h);
    }
    forall u: nat | u < |s'.pcs| ensures ThreadOk(s', u) {
      assert ThreadOk(s, u);
    }
    CountKept(s, s', t);
    BlocksKept(s, s');
  }

  lemma SizeGap(c: Config, addr: nat, tot: nat)
    requires ConfigOk(c) && !c.inlined && !TooBig(c, tot) && addr * c.segSize < tot
    ensures addr < if c.unsegmented then 1 else MAX_SEG
  {}

  lemma InvAlloc(s: State, t: nat, size: nat)
    requires Inv(s) && t < |s.pcs| && s.pcs[t] == Idle
    ensures s.locals[t].cache != [] ==> s.locals[t].cache[0] < |s.hdrs|
    ensures Inv(StepAlloc(s, t, size))
  {
    var tot := s.cfg.headroom + size + s.cfg.tailroom;
    var l := s.locals[t];
    assert ThreadOk(s, t);
    if !TooBig(s.cfg, tot) {
      if l.cache == [] {
        InvGoto(s, t, AskPool(tot));
      } else {
        InvAllocCached(s, t, size);
      }
    }
  }

  lemma InvAllocCached(s: State, t: nat, size: nat)
    requires Inv(s) && t < |s.pcs| && s.pcs[t] == Idle && s.locals[t].cache != [] && s.locals[t].cache[0] < |s.hdrs|
    requires !TooBig(s.cfg, s.cfg.headroom + size + s.cfg.tailroom)
    ensures Inv(StepAlloc(s, t, size))
  {
    var s', h := StepAlloc(s, t, size), s.locals[t].cache[0];
    TailKeeps(s.locals[t].cache) by {
      assert ThreadOk(s, t);
    }
    AllocOk(s, t, size);
    assert s.place[h] == InCache(t) by {
      assert ThreadOk(s, t);
    }
    HeadersKept(s, s', t, h);
    ThreadsKept(s, s', t, h);
    CountKept(s, s', t);
    BlocksKept(s, s');
  }

  lemma AllocOk(s: State, t: nat, size: nat)
    requires Inv(s) && t < |s.pcs| && s.pcs[t] == Idle && s.locals[t].cache != [] && s.locals[t].cache[0] < |s.hdrs|
    requires !TooBig(s.cfg, s.cfg.headroom + size + s.cfg.tailroom)
    ensures var s' := StepAlloc(s, t, size); HeaderOk(s', s.locals[t].cache[0]) && ThreadOk(s', t)
  {
    var s', h := StepAlloc(s, t, size), s.locals[t].cache[0];
    assert ThreadOk(s, t) && HeaderOk(s, h);
    TailKeeps(s.locals[t].cache);
  }

  lemma InvGetBuf(s: State, t: nat)
    requires Inv(s) && t < |s.pcs| && s.pcs[t].AskPool?
    ensures s.bufFree != [] ==> s.bufFree[0] < |s.hdrs|
    ensures Inv(StepGetBuf(s, t))
  {
    assert ThreadOk(s, t);
    if s.bufFree == [] {
      InvGoto(s, t, Idle);
    } else {
      var s', h := StepGetBuf(s, t), s.bufFree[0];
      TailKeeps(s.bufFree);
      assert HeaderOk(s, h);
      HeadersKept(s, s', t, h);
      ThreadsKept(s, s', t, h);
      CountKept(s, s', t);
      BlocksKept(s, s');
    }
  }

  lemma InvCountGet(s: State, t: nat)
    requires Inv(s) && t < |s.pcs| && s.pcs[t].Popped?
    ensures s.pcs[t].h < |s.hdrs|
    ensures Inv(StepCountGet(s, t))
  {
    assert ThreadOk(s, t);
    var s', h := StepCountGet(s, t), s.pcs[t].h;
    CountGetOk(s, t);
    HeadersKept(s, s', t, h);
    ThreadsKept(s, s', t, h);
    CountKept(s, s', t);
    BlocksKept(s, s');
  }

  lemma CountGetOk(s: State, t: nat)
    requires Inv(s) && t < |s.pcs| && s.pcs[t].Popped? && s.pcs[t].h < |s.hdrs|
    ensures var s' := StepCountGet(s, t); HeaderOk(s', s.pcs[t].h) && ThreadOk(s', t)
  {
    assert ThreadOk(s, t) && HeaderOk(s, s.pcs[t].h);
  }

  lemma InvGetBlk(s: State, t: nat)
    requires Inv(s) && t < |s.pcs| && s.pcs[t].Attach?
    ensures s.pcs[t].h < |s.hdrs| && (s.blkFree != [] ==> s.blkFree[0] < |s.owner|)
    ensures Inv(StepGetBlk(s, t))
  {
    var h := s.pcs[t].h;
    assert h < |s.hdrs| && s.place[h] == Hand(t) by {
      assert ThreadOk(s, t);
    }
    var s' := StepGetBlk(s, t);
    GetBlkOk(s, t);
    HeadersKept(s, s', t, h);
    ThreadsKept(s, s', t, h);
    CountKept(s, s', t);
    GetBlkBlocks(s, t);
  }

  lemma GetBlkBlocks(s: State, t: nat)
    requires Sized(s) && Blocks(s) && t < |s.pcs| && s.pcs[t].Attach? && s.pcs[t].h < |s.hdrs|
    requires s.blkFree != [] ==> s.blkFree[0] < |s.owner|
    ensures Blocks(StepGetBlk(s, t))
  {
    if s.blkFree == [] {
      BlocksKept(s, StepGetBlk(s, t));
    } else {
      BlocksAttached(s, StepGetBlk(s, t), s.pcs[t].h);
    }
  }

  lemma GetBlkOk(s: State, t: nat)
    requires Inv(s) && t < |s.pcs| && s.pcs[t].Attach? && s.pcs[t].h < |s.hdrs|
    requires s.blkFree != [] ==> s.blkFree[0] < |s.owner|
    ensures var s' := StepGetBlk(s, t); HeaderOk(s', s.pcs[t].h) && ThreadOk(s', t)
  {
    var Attach(h, tot, needed, cached) := s.pcs[t];
    assert ThreadOk(s, t) && HeaderOk(s, h);
    SizeGap(s.cfg, |s.hdrs[h].addr|, tot);
    OneBlockMore(|s.hdrs[h].addr|, s.cfg.segSize);
  }

  lemma OneBlockMore(n: nat, segSize: nat)
    ensures (n + 1) * segSize == n * segSize + segSize
  {}

  lemma InvRetBlk(s: State, t: nat)
    requires Inv(s) && t < |s.pcs| && s.pcs[t].Return? && !KeepsData(s.cfg)
    requires s.pcs[t].h < |s.hdrs| && s.hdrs[s.pcs[t].h].addr != []
    ensures var addr := s.hdrs[s.pcs[t].h].addr; addr[|addr| - 1] < |s.owner|
    ensures Inv(StepRetBlk(s, t))
  {
    assert ThreadOk(s, t);
    var h := s.pcs[t].h;
    assert HeaderOk(s, h) && AddrOk(s, h);
    var s' := StepRetBlk(s, t);
    HeadersKept(s, s', t, h);
    ThreadsKept(s, s', t, h);
    CountKept(s, s', t);
    BlocksDetached(s, s', h);
  }

  lemma InvRetBuf(s: State, t: nat)
    requires Inv(s) && t < |s.pcs| && s.pcs[t].Return? && s.pcs[t].h < |s.hdrs|
    requires KeepsData(s.cfg) || s.hdrs[s.pcs[t].h].addr == []
    ensures Inv(StepRetBuf(s, t))
  {
    assert ThreadOk(s, t);
    var h := s.pcs[t].h;
    var s' := StepRetBuf(s, t);
    RetBufOk(s, t);
    HeadersKept(s, s', t, h);
    ThreadsKept(s, s', t, h);
    CountKept(s, s', t);
    BlocksKept(s, s');
  }

  lemma RetBufOk(s: State, t: nat)
    requires Inv(s) && t < |s.pcs| && s.pcs[t].Return? && s.pcs[t].h < |s.hdrs|
    requires KeepsData(s.cfg) || s.hdrs[s.pcs[t].h].addr == []
    ensures var s' := StepRetBuf(s, t); HeaderOk(s', s.pcs[t].h) && ThreadOk(s', t)
  {
    assert ThreadOk(s, t) && HeaderOk(s, s.pcs[t].h);
    assert StepRetBuf(s, t).bufFree[0] == s.pcs[t].h;
  }

  lemma InvCountRet(s: State, t: nat)
    requires Inv(s) && t < |s.pcs| && s.pcs[t].Pushed?
    ensures s.pcs[t].after.RefillFailed? ==> s.locals[t].frees > 0
    ensures Inv(StepCountRet(s, t))
  {
    assert ThreadOk(s, t);
    var s' := StepCountRet(s, t);
    forall h: nat | h < |s'.hdrs| ensures HeaderOk(s', h) {
      assert HeaderOk(s, h);
    }
    forall u: nat | u < |s'.pcs| ensures ThreadOk(s', u) {
      assert ThreadOk(s, u);
    }
    CountKept(s, s', t);
    BlocksKept(s, s');
  }

  lemma InvFree(s: State, t: nat, h: nat)
    requires Inv(s) && t < |s.pcs| && s.pcs[t] == Idle && h < |s.hdrs| && s.place[h] == Allocated
    ensures Inv(StepFree(s, t, h))
  {
    var s' := StepFree(s, t, h);
    FreeOk(s, t, h);
    HeadersKept(s, s', t, h);
    ThreadsKept(s, s', t, h);
    CountKept(s, s', t);
    BlocksKept(s, s');
  }

  lemma FreeOk(s: State, t: nat, h: nat)
    requires Inv(s) && t < |s.pcs| && s.pcs[t] == Idle && h < |s.hdrs| && s.place[h] == Allocated
    ensures var s' := StepFree(s, t, h); HeaderOk(s', h) && ThreadOk(s', t)
  {
    assert ThreadOk(s, t) && HeaderOk(s, h);
  }

  lemma InvFlush(s: State, t: nat)
    requires Inv(s) && t < |s.pcs| && s.pcs[t].Flush?
    ensures s.locals[t].cache != [] ==> s.locals[t].cache[0] < |s.hdrs|
    ensures Inv(StepFlush(s, t))
  {
    assert ThreadOk(s, t);
    var s', l := StepFlush(s, t), s.locals[t];
    if l.cache != [] {
      var h := l.cache[0];
      TailKeeps(l.cache);
      assert HeaderOk(s, h);
      HeadersKept(s, s', t, h);
      ThreadsKept(s, s', t, h);
    } else {
      FlushEnds(s, t);
    }
    CountKept(s, s', t);
    BlocksKept(s, s');
  }

  lemma FlushEnds(s: State, t: nat)
    requires Inv(s) && t < |s.pcs| && s.pcs[t].Flush? && s.locals[t].cache == []
    ensures var s' := StepFlush(s, t); Headers(s') && Threads(s') && PoolOk(s')
  {
    var s' := StepFlush(s, t);
    assert ThreadOk(s, t);
    forall h: nat | h < |s'.hdrs| ensures HeaderOk(s', h) {
      assert HeaderOk(s, h);
    }
    forall u: nat | u < |s'.pcs| ensures ThreadOk(s', u) {
      assert ThreadOk(s, u);
    }
  }

  // ---- Whole runs

  datatype Op =
    | OpAlloc(t: nat, size: nat)
    | OpGetBuf(t: nat)
    | OpCountGet(t: nat)
    | OpGetBlk(t: nat)
    | OpRetBlk(t: nat)
    | OpRetBuf(t: nat)
    | OpCountRet(t: nat)
    | OpFree(t: nat, h: nat)
    | OpFlush(t: nat, destroy: bool)
    | OpFlushStep(t: nat)

  /** What a thread may do where it is; callers free buffers that are allocated, and no pool that is gone is used. */
  predicate Enabled(s: State, op: Op) {
    && !s.gone && op.t < |s.pcs| == |s.locals|
    && match op
       case OpAlloc(t, _) => s.pcs[t] == Idle
       case OpGetBuf(t) => s.pcs[t].AskPool?
       case OpCountGet(t) => s.pcs[t].Popped?
       case OpCountRet(t) => s.pcs[t].Pushed?
       case OpGetBlk(t) => s.pcs[t].Attach?
       case OpRetBlk(t) =>
         s.pcs[t].Return? && s.pcs[t].h < |s.hdrs| && !KeepsData(s.cfg) && s.hdrs[s.pcs[t].h].addr != []
       case OpRetBuf(t) =>
         s.pcs[t].Return? && s.pcs[t].h < |s.hdrs| && (KeepsData(s.cfg) || s.hdrs[s.pcs[t].h].addr == [])
       case OpFree(t, h) => s.pcs[t] == Idle && h < |s.hdrs| == |s.place| && s.place[h] == Allocated
       case OpFlush(t, _) => s.pcs[t] == Idle
       case OpFlushStep(t) => s.pcs[t].Flush?
  }

  /** What the step needs to be defined at all; in particular the local free count is not zero when it is taken down. */
  predicate Ready(s: State, op: Op)
    requires Enabled(s, op)
  {
    && Sized(s)
    && match op
       case OpAlloc(t, _) => s.locals[t].cache != [] ==> s.locals[t].cache[0] < |s.hdrs|
       case OpGetBuf(_) => s.bufFree != [] ==> s.bufFree[0] < |s.hdrs|
       case OpCountGet(t) => s.pcs[t].h < |s.hdrs|
       case OpGetBlk(t) => s.pcs[t].h < |s.hdrs| && (s.blkFree != [] ==> s.blkFree[0] < |s.owner|)
       case OpRetBlk(t) => var addr := s.hdrs[s.pcs[t].h].addr; addr[|addr| - 1] < |s.owner|
       case OpCountRet(t) => s.pcs[t].after.RefillFailed? ==> s.locals[t].frees > 0
       case OpFlushStep(t) => s.locals[t].cache != [] ==> s.locals[t].cache[0] < |s.hdrs|
       case _ => true
  }

  function Step(s: State, op: Op): State
    requires Enabled(s, op) && Ready(s, op)
  {
    match op
    case OpAlloc(t, size) => StepAlloc(s, t, size)
    case OpGetBuf(t) => StepGetBuf(s, t)
    case OpCountGet(t) => StepCountGet(s, t)
    case OpCountRet(t) => StepCountRet(s, t)
    case OpGetBlk(t) => StepGetBlk(s, t)
    case OpRetBlk(t) => StepRetBlk(s, t)
    case OpRetBuf(t) => StepRetBuf(s, t)
    case OpFree(t, h) => StepFree(s, t, h)
    case OpFlush(t, destroy) => SetPc(s, t, Flush(0, destroy))
    case OpFlushStep(t) => StepFlush(s, t)
  }

  predicate Next(s: State, op: Op, s': State) {
    Enabled(s, op) && Ready(s, op) && s' == Step(s, op)
  }

  function Upto(n: nat): (r: seq<nat>)
    ensures |r| == n && forall i | 0 <= i < n :: r[i] == i
  {
    seq(n, i requires 0 <= i => i)
  }

  /** A new pool: all headers and all blocks on their free lists, in ascending order. */
  predicate Init(s: State) {
    && Sized(s) && s.bufFree == Upto(|s.hdrs|) && s.blkFree == Upto(|s.owner|)
    && s.bufCount == |s.hdrs| && s.allocs == s.frees == 0
    && (forall h | 0 <= h < |s.hdrs| ::
          s.place[h] == InPool && s.hdrs[h] == Hdr([], if s.cfg.inlined then s.cfg.segSize else 0))
    && (forall b | 0 <= b < |s.owner| :: s.owner[b] == None)
    && (forall t | 0 <= t < |s.pcs| ::
          s.pcs[t] == Idle && s.locals[t].cache == [] && s.locals[t].allocs == s.locals[t].frees)
  }

  predicate IsRun(ss: seq<State>, ops: seq<Op>) {
    && |ss| == |ops| + 1 && Init(ss[0])
    && forall i | 0 <= i < |ops| :: Next(ss[i], ops[i], ss[i + 1])
  }

  lemma InvInit(s: State)
    requires Init(s)
    ensures Inv(s)
  {
    forall h: nat | h < |s.hdrs| ensures HeaderOk(s, h) && AddrOk(s, h) {
      assert s.bufFree[h] == h;
    }
    forall t: nat | t < |s.pcs| ensures ThreadOk(s, t) {
      assert s.pcs[t] == Idle;
    }
    forall b: nat | b < |s.owner| ensures BlockOk(s, b) {
      assert s.blkFree[b] == b;
    }
    IdleSums(s.pcs, |s.pcs|);
  }

  lemma NeverStuck(s: State, op: Op)
    requires Inv(s) && Enabled(s, op)
    ensures Ready(s, op)
  {
    var t := op.t;
    assert ThreadOk(s, t);
    match op
    case OpRetBlk(_) => InvRetBlk(s, t);
    case OpCountRet(_) => InvCountRet(s, t);
    case _ =>
  }

  lemma InvStep(s: State, op: Op, s': State)
    requires Inv(s) && Next(s, op, s')
    ensures Inv(s')
  {
    var t := op.t;
    match op
    case OpAlloc(_, size) => InvAlloc(s, t, size);
    case OpGetBuf(_) => InvGetBuf(s, t);
    case OpCountGet(_) => InvCountGet(s, t);
    case OpCountRet(_) => InvCountRet(s, t);
    case OpGetBlk(_) => InvGetBlk(s, t);
    case OpRetBlk(_) => InvRetBlk(s, t);
    case OpRetBuf(_) => InvRetBuf(s, t);
    case OpFree(_, h) => InvFree(s, t, h);
    case OpFlush(_, destroy) => InvGoto(s, t, Flush(0, destroy));
    case OpFlushStep(_) => InvFlush(s, t);
  }

  lemma {:induction false} InvRun(ss: seq<State>, ops: seq<Op>, i: nat)
    requires IsRun(ss, ops) && i < |ss|
    ensures Inv(ss[i])
  {
    if i == 0 {
      InvInit(ss[0]);
    } else {
      InvRun(ss, ops, i - 1);
      InvStep(ss[i - 1], ops[i - 1], ss[i]);
    }
  }

  // ---- Conservation

  function PositionsIn(list: seq<nat>, x: nat): set<nat> {
    set k: nat | k < |list| && list[k] == x
  }

  function InCaches(s: State, h: nat): set<(nat, nat)> {
    set t: nat, k: nat | t < |s.locals| && k < |s.locals[t].cache| && s.locals[t].cache[k] == h :: (t, k)
  }

  function InHands(s: State, h: nat): set<nat> {
    set t: nat | t < |s.pcs| && HandOf(s.pcs[t]) == Some(h)
  }

  lemma OnePosition(list: seq<nat>, x: nat)
    requires Distinct(list)
    ensures |PositionsIn(list, x)| == if x in list then 1 else 0
  {
    if x in list {
      var k: nat :| k < |list| && list[k] == x;
      assert PositionsIn(list, x) == {k};
    } else {
      assert PositionsIn(list, x) == {};
    }
  }

  /**
   In every state of every run, mid-operation or not, each header is in exactly one place: once in the pool's free
   list, once in one thread's cache, in one thread's hands, or allocated to the application.
   */
  lemma HeaderConservation(ss: seq<State>, ops: seq<Op>, i: nat, h: nat)
    requires IsRun(ss, ops) && i < |ss| && h < |ss[i].hdrs| == |ss[i].place|
    ensures var s := ss[i];
            |PositionsIn(s.bufFree, h)| + |InCaches(s, h)| + |InHands(s, h)|
            + (if s.place[h] == Allocated then 1 else 0) == 1
  {
    InvRun(ss, ops, i);
    var s := ss[i];
    assert HeaderOk(s, h);
    OnePosition(s.bufFree, h);
    HandsExact(s, h);
    CachesExact(s, h);
  }

  lemma HandsExact(s: State, h: nat)
    requires Inv(s) && h < |s.hdrs|
    ensures InHands(s, h) == if s.place[h].Hand? then {s.place[h].t} else {}
  {
    assert HeaderOk(s, h);
    forall t: nat | t < |s.pcs| ensures HandOf(s.pcs[t]) == Some(h) ==> s.place[h] == Hand(t) {
      assert ThreadOk(s, t);
    }
  }

  lemma CachesExact(s: State, h: nat)
    requires Inv(s) && h < |s.hdrs|
    ensures |InCaches(s, h)| == if s.place[h].InCache? then 1 else 0
  {
    assert HeaderOk(s, h);
    forall p | p in InCaches(s, h) ensures s.place[h] == InCache(p.0) {
      assert ThreadOk(s, p.0);
    }
    if s.place[h].InCache? {
      var t := s.place[h].t;
      assert ThreadOk(s, t);
      var k: nat :| k < |s.locals[t].cache| && s.locals[t].cache[k] == h;
      assert (t, k) in InCaches(s, h);
      assert InCaches(s, h) == {(t, k)};
    }
  }

  /** The places of a block in the address arrays. */
  function InArrays(s: State, b: nat): set<(nat, nat)> {
    set h: nat, k: nat | h < |s.hdrs| && k < |s.hdrs[h].addr| && s.hdrs[h].addr[k] == b :: (h, k)
  }

  /**
   In every state of every run, also after blocks ran out midway through an allocation, each data block is in exactly
   one place: once in the block free list, or once in the address array of one header; and no array is overrun.
   */
  lemma BlockConservation(ss: seq<State>, ops: seq<Op>, i: nat, b: nat)
    requires IsRun(ss, ops) && i < |ss| && b < |ss[i].owner|
    ensures |PositionsIn(ss[i].blkFree, b)| + |InArrays(ss[i], b)| == 1
    ensures forall h: nat | h < |ss[i].hdrs| :: |ss[i].hdrs[h].addr| <= MAX_SEG
  {
    InvRun(ss, ops, i);
    var s := ss[i];
    assert BlockOk(s, b);
    OnePosition(s.blkFree, b);
    forall h: nat | h < |s.hdrs| ensures |s.hdrs[h].addr| <= MAX_SEG {
      assert HeaderOk(s, h);
    }
    ArraysExact(s, b);
  }

  lemma ArraysExact(s: State, b: nat)
    requires Inv(s) && b < |s.owner|
    ensures |InArrays(s, b)| == if s.owner[b].Some? then 1 else 0
  {
    assert BlockOk(s, b);
    forall p | p in InArrays(s, b) ensures s.owner[b] == Some(p.0) {
      assert AddrOk(s, p.0);
    }
    if s.owner[b].Some? {
      var h := s.owner[b].value;
      assert AddrOk(s, h);
      var k: nat :| k < |s.hdrs[h].addr| && s.hdrs[h].addr[k] == b;
      assert (h, k) in InArrays(s, b);
      assert InArrays(s, b) == {(h, k)};
    }
  }

  /** What the caller of an allocation gets: enough blocks, and the size that says so. */
  lemma AllocatedSize(ss: seq<State>, ops: seq<Op>, i: nat, h: nat)
    requires IsRun(ss, ops) && i < |ss| && h < |ss[i].hdrs| == |ss[i].place| && ss[i].place[h] == Allocated
    ensures var s := ss[i];
            if s.cfg.inlined then s.hdrs[h] == Hdr([], s.cfg.segSize)
            else s.hdrs[h].size == |s.hdrs[h].addr| * s.cfg.segSize
  {
    InvRun(ss, ops, i);
    assert HeaderOk(ss[i], h);
  }

  // ---- Accounting

  /** Allocations less frees counted by the threads below k. */
  function NetCounts(locals: seq<Local>, k: nat): int
    requires k <= |locals|
  {
    if k == 0 then 0 else NetCounts(locals, k - 1) + locals[k - 1].allocs - locals[k - 1].frees
  }

  function CacheSizes(locals: seq<Local>, k: nat): nat
    requires k <= |locals|
  {
    if k == 0 then 0 else CacheSizes(locals, k - 1) + |locals[k - 1].cache|
  }

  function HandSizes(pcs: seq<Pc>, k: nat): nat
    requires k <= |pcs|
  {
    if k == 0 then 0 else HandSizes(pcs, k - 1) + if HandOf(pcs[k - 1]).Some? then 1 else 0
  }

  function PendingSizes(pcs: seq<Pc>, k: nat): nat
    requires k <= |pcs|
  {
    if k == 0 then 0 else PendingSizes(pcs, k - 1) + Pending(pcs[k - 1])
  }

  lemma {:induction false} NetOfCaches(s: State, k: nat)
    requires Sized(s) && Threads(s) && k <= |s.pcs|
    ensures NetCounts(s.locals, k) == -(CacheSizes(s.locals, k) + PendingSizes(s.pcs, k))
  {
    if k > 0 {
      NetOfCaches(s, k - 1);
      assert ThreadOk(s, k - 1);
    }
  }

  function CachedBelow(s: State, k: nat): set<nat>
    requires Sized(s)
  {
    set h: nat | h < |s.hdrs| && s.place[h].InCache? && s.place[h].t < k
  }

  function HandedBelow(s: State, k: nat): set<nat>
    requires Sized(s)
  {
    set h: nat | h < |s.hdrs| && s.place[h].Hand? && s.place[h].t < k
  }

  function Elements(list: seq<nat>): set<nat> {
    set x | x in list
  }

  lemma {:induction false} DistinctSize(list: seq<nat>)
    requires Distinct(list)
    ensures |Elements(list)| == |list|
  {
    if list != [] {
      TailKeeps(list);
      DistinctSize(list[1..]);
      assert Elements(list) == {list[0]} + Elements(list[1..]);
    }
  }

  lemma {:induction false} CachedCount(s: State, k: nat)
    requires Inv(s) && k <= |s.locals|
    ensures |CachedBelow(s, k)| == CacheSizes(s.locals, k)
  {
    if k == 0 {
      assert CachedBelow(s, 0) == {};
    } else {
      CachedCount(s, k - 1);
      CachedOf(s, k - 1);
      DistinctSize(s.locals[k - 1].cache);
      assert CachedBelow(s, k) == CachedBelow(s, k - 1) + Elements(s.locals[k - 1].cache);
    }
  }

  lemma CachedOf(s: State, t: nat)
    requires Inv(s) && t < |s.locals|
    ensures Distinct(s.locals[t].cache)
    ensures forall h: nat :: h in s.locals[t].cache <==> h < |s.hdrs| && s.place[h] == InCache(t)
  {
    assert ThreadOk(s, t);
    forall h: nat | h < |s.hdrs| && s.place[h] == InCache(t) ensures h in s.locals[t].cache {
      assert HeaderOk(s, h);
    }
  }

  lemma {:induction false} HandedCount(s: State, k: nat)
    requires Inv(s) && k <= |s.pcs|
    ensures |HandedBelow(s, k)| == HandSizes(s.pcs, k)
  {
    if k == 0 {
      assert HandedBelow(s, 0) == {};
    } else {
      HandedCount(s, k - 1);
      HandedOf(s, k - 1);
      OneMoreHand(s, k - 1);
    }
  }

  lemma OneMoreHand(s: State, t: nat)
    requires Sized(s) && t < |s.pcs|
    requires forall h: nat :: HandOf(s.pcs[t]) == Some(h) <==> h < |s.hdrs| && s.place[h] == Hand(t)
    ensures |HandedBelow(s, t + 1)| == |HandedBelow(s, t)| + if HandOf(s.pcs[t]).Some? then 1 else 0
  {
    if HandOf(s.pcs[t]).Some? {
      assert HandedBelow(s, t + 1) == HandedBelow(s, t) + {HandOf(s.pcs[t]).value};
    } else {
      assert HandedBelow(s, t + 1) == HandedBelow(s, t);
    }
  }

  lemma HandedOf(s: State, t: nat)
    requires Inv(s) && t < |s.pcs|
    ensures forall h: nat :: HandOf(s.pcs[t]) == Some(h) <==> h < |s.hdrs| && s.place[h] == Hand(t)
  {
    assert ThreadOk(s, t);
    forall h: nat | h < |s.hdrs| && s.place[h] == Hand(t) ensures HandOf(s.pcs[t]) == Some(h) {
      assert HeaderOk(s, h);
    }
  }

  /** The buffers the application has. */
  function InUse(s: State): set<nat> {
    set h: nat | h < |s.hdrs| && h < |s.place| && s.place[h] == Allocated
  }

  lemma PoolElements(s: State)
    requires Inv(s)
    ensures forall h: nat :: h in Elements(s.bufFree) <==> h < |s.hdrs| && s.place[h] == InPool
    ensures |Elements(s.bufFree)| == |s.bufFree|
  {
    DistinctSize(s.bufFree);
    forall h: nat | h < |s.hdrs| && s.place[h] == InPool ensures h in Elements(s.bufFree) {
      assert HeaderOk(s, h);
    }
  }

  lemma ThreadsInRange(s: State)
    requires Inv(s)
    ensures forall h: nat | h < |s.hdrs| && (s.place[h].InCache? || s.place[h].Hand?) :: s.place[h].t < |s.pcs|
  {
    forall h: nat | h < |s.hdrs| && (s.place[h].InCache? || s.place[h].Hand?) ensures s.place[h].t < |s.pcs| {
      assert HeaderOk(s, h);
    }
  }

  lemma PartitionCount(s: State)
    requires Inv(s)
    ensures |s.hdrs| == |s.bufFree| + CacheSizes(s.locals, |s.locals|) + HandSizes(s.pcs, |s.pcs|) + |InUse(s)|
  {
    var n := |s.pcs|;
    CachedCount(s, n);
    HandedCount(s, n);
    PoolElements(s);
    ThreadsInRange(s);
    FourParts(s, Elements(s.bufFree), CachedBelow(s, n), HandedBelow(s, n), InUse(s));
  }

  lemma FourParts(s: State, pool: set<nat>, cached: set<nat>, handed: set<nat>, used: set<nat>)
    requires Sized(s)
    requires forall h: nat :: h in pool <==> h < |s.hdrs| && s.place[h] == InPool
    requires forall h: nat :: h in cached <==> h < |s.hdrs| && s.place[h].InCache?
    requires forall h: nat :: h in handed <==> h < |s.hdrs| && s.place[h].Hand?
    requires forall h: nat :: h in used <==> h < |s.hdrs| && s.place[h] == Allocated
    ensures |s.hdrs| == |pool| + |cached| + |handed| + |used|
  {
    assert Range(|s.hdrs|) == pool + cached + handed + used;
    assert |pool + cached| == |pool| + |cached|;
    assert |pool + cached + handed| == |pool + cached| + |handed|;
  }

  /**
   Accounting. In every state of every run, the shared and all thread-local allocation counts less the free counts are
   the number of buffers in use, but for threads in the midst of a call: headers in hand count as in use, a header
   popped or pushed and not counted yet counts as where it came from, and a header a thread took out of its cache to
   refill it or flushed is still counted as freed by the thread. Between calls the two are equal.
   */
  lemma Accounting(ss: seq<State>, ops: seq<Op>, i: nat)
    requires IsRun(ss, ops) && i < |ss|
    ensures Sized(ss[i])
    ensures var s := ss[i];
            var net := s.allocs - s.frees + NetCounts(s.locals, |s.locals|);
            && net == |InUse(s)| + HandSizes(s.pcs, |s.pcs|) - Between(s.pcs, |s.pcs|) - PendingSizes(s.pcs, |s.pcs|)
            && ((forall t | 0 <= t < |s.pcs| :: s.pcs[t] == Idle) ==> net == |InUse(s)|)
  {
    InvRun(ss, ops, i);
    var s := ss[i];
    PartitionCount(s);
    NetOfCaches(s, |s.pcs|);
    if forall t | 0 <= t < |s.pcs| :: s.pcs[t] == Idle {
      IdleSums(s.pcs, |s.pcs|);
    }
  }

  lemma {:induction false} IdleSums(pcs: seq<Pc>, k: nat)
    requires k <= |pcs| && forall t | 0 <= t < |pcs| :: pcs[t] == Idle
    ensures HandSizes(pcs, k) == PendingSizes(pcs, k) == Between(pcs, k) == 0
  {
    if k > 0 {
      IdleSums(pcs, k - 1);
    }
  }

  /** The headers that are not in the pool. */
  function Missing(s: State): set<nat> {
    set h: nat | h < |s.hdrs| && h < |s.place| && s.place[h] != InPool
  }

  /**
   odp_pool_destroy compares bufcount with the number of headers, once the thread's own cache is flushed. As get_buf
   and ret_buf count after their unlock, the comparison passes exactly if the headers missing from the pool are as
   many as the threads that popped one without counting it yet, less those that pushed one without counting it, or if
   the count is below 0 for the moment, which the 32-bit counter shows as a huge number. So while no thread is between
   unlock and count, it passes exactly if no buffer is in use, cached by another thread or in its hands.
   */
  lemma DestroyExact(ss: seq<State>, ops: seq<Op>, i: nat)
    requires IsRun(ss, ops) && i < |ops| && ops[i].OpFlushStep? && ops[i].t < |ss[i].pcs| == |ss[i].locals|
    requires ss[i].pcs[ops[i].t].Flush? && ss[i].pcs[ops[i].t].destroy && ss[i].locals[ops[i].t].cache == []
    ensures Sized(ss[i])
    ensures var s := ss[i];
            var between := Between(s.pcs, |s.pcs|);
            && (|s.hdrs| + |s.pcs| <= TWO32 ==>
                  (ss[i + 1].gone <==> |Missing(s)| == between || |s.bufFree| + between < 0))
            && (between == 0 ==> (ss[i + 1].gone <==> forall h: nat | h < |s.hdrs| :: s.place[h] == InPool))
  {
    InvRun(ss, ops, i);
    var s := ss[i];
    assert Next(ss[i], ops[i], ss[i + 1]);
    AllInPool(s);
    PartitionCount(s);
    BetweenBounds(s.pcs, |s.pcs|);
  }

  lemma {:induction false} BetweenBounds(pcs: seq<Pc>, k: nat)
    requires k <= |pcs|
    ensures 0 - k <= Between(pcs, k) <= HandSizes(pcs, k)
  {
    if k > 0 {
      BetweenBounds(pcs, k - 1);
    }
  }

  lemma AllInPool(s: State)
    requires Inv(s)
    ensures |Missing(s)| == |s.hdrs| - |s.bufFree|
    ensures |s.bufFree| >= |s.hdrs| <==> forall h: nat | h < |s.hdrs| :: s.place[h] == InPool
  {
    PoolElements(s);
    assert Range(|s.hdrs|) == Elements(s.bufFree) + Missing(s);
    if |s.bufFree| >= |s.hdrs| {
      forall h: nat | h < |s.hdrs| ensures s.place[h] == InPool {
        assert h !in Missing(s);
      }
    } else {
      var h :| h in Missing(s);
    }
  }

  /** A pool with a single inline buffer of 8 bytes, and three threads. */
  function Single(free: bool, count: int, allocs: nat, low: bool, pcs: seq<Pc>, place: Place, gone: bool): State {
    var idle := Local([], 0, 0);
    State(Config(8, true, true, true, 0, 0, 0, 1), [Hdr([], 8)], if free then [0] else [], [], count, allocs, 0, low,
          [idle, idle, idle], pcs, [place], [], gone)
  }

  lemma PopSingle(count: int, allocs: nat, low: bool, pcs: seq<Pc>, t: nat)
    requires |pcs| == 3 && t < 3 && pcs[t] == Idle
    ensures var asked := Single(true, count, allocs, low, pcs[t := AskPool(8)], InPool, false);
            && Next(Single(true, count, allocs, low, pcs, InPool, false), OpAlloc(t, 8), asked)
            && Next(asked, OpGetBuf(t), Single(false, count, allocs, low, pcs[t := Popped(0, 8)], Hand(t), false))
  {}

  lemma CountSingle(count: int, allocs: nat, low: bool, pcs: seq<Pc>, t: nat)
    requires |pcs| == 3 && t < 3
    ensures Next(Single(false, count, allocs, low, pcs[t := Popped(0, 8)], Hand(t), false), OpCountGet(t),
                 Single(false, count - 1, allocs + 1, low || W32(count - 1) == 0, pcs[t := Idle], Allocated, false))
  {}

  lemma PushSingle(count: int, allocs: nat, pcs: seq<Pc>, t: nat)
    requires |pcs| == 3 && t < 3 && pcs[t] == Idle
    ensures var hand := Single(false, count, allocs, true, pcs[t := Return(0, Freed)], Hand(t), false);
            && Next(Single(false, count, allocs, true, pcs, Allocated, false), OpFree(t, 0), hand)
            && Next(hand, OpRetBuf(t), Single(true, count, allocs, true, pcs[t := Pushed(Freed)], InPool, false))
  {}

  lemma DestroySingle(count: int, allocs: nat, low: bool, pcs: seq<Pc>, place: Place)
    requires |pcs| == 3 && pcs[0] == Idle
    ensures var flushing := Single(false, count, allocs, low, pcs[0 := Flush(0, true)], place, false);
            && Next(Single(false, count, allocs, low, pcs, place, false), OpFlush(0, true), flushing)
            && Next(flushing, OpFlushStep(0), Single(false, count, allocs, low, pcs, place, W32(count) >= 1))
  {
    assert pcs[0 := Flush(0, true)][0 := Idle] == pcs;
  }

  /** One more step of a run. */
  lemma RunGrows(ss: seq<State>, ops: seq<Op>, op: Op, s': State)
    requires IsRun(ss, ops) && Next(ss[|ops|], op, s')
    ensures IsRun(ss + [s'], ops + [op])
  {}

  /** Thread 1 pops the only header and does not count it. */
  lemma SinglePopped() returns (ss: seq<State>, ops: seq<Op>)
    ensures IsRun(ss, ops) && |ops| == 2
    ensures ss[2] == Single(false, 1, 0, false, [Idle, Idle, Idle][1 := Popped(0, 8)], Hand(1), false)
  {
    var idle := [Idle, Idle, Idle];
    PopSingle(1, 0, false, idle, 1);
    ops := [OpAlloc(1, 8), OpGetBuf(1)];
    ss := [Single(true, 1, 0, false, idle, InPool, false),
           Single(true, 1, 0, false, idle[1 := AskPool(8)], InPool, false),
           Single(false, 1, 0, false, idle[1 := Popped(0, 8)], Hand(1), false)];
  }

  /** Thread 1 then counts it, which asserts the low watermark, and frees it again without counting that. */
  lemma SinglePushed() returns (ss: seq<State>, ops: seq<Op>)
    ensures IsRun(ss, ops) && |ops| == 5
    ensures ss[5] == Single(true, 0, 1, true, [Idle, Pushed(Freed), Idle], InPool, false)
  {
    var idle := [Idle, Idle, Idle];
    ss, ops := SinglePopped();
    CountSingle(1, 0, false, idle, 1);
    assert idle[1 := Idle] == idle && idle[1 := Pushed(Freed)] == [Idle, Pushed(Freed), Idle];
    PushSingle(0, 1, idle, 1);
    var used := Single(false, 0, 1, true, idle, Allocated, false);
    var hand := Single(false, 0, 1, true, idle[1 := Return(0, Freed)], Hand(1), false);
    RunGrows(ss, ops, OpCountGet(1), used);
    RunGrows(ss + [used], ops + [OpCountGet(1)], OpFree(1, 0), hand);
    ss, ops := ss + [used] + [hand], ops + [OpCountGet(1)] + [OpFree(1, 0)];
    RunGrows(ss, ops, OpRetBuf(1), Single(true, 0, 1, true, [Idle, Pushed(Freed), Idle], InPool, false));
    ss := ss + [Single(true, 0, 1, true, [Idle, Pushed(Freed), Idle], InPool, false)];
    ops := ops + [OpRetBuf(1)];
  }

  /** Thread 2 pops it and counts it. */
  lemma SingleTaken() returns (ss: seq<State>, ops: seq<Op>)
    ensures IsRun(ss, ops) && |ops| == 8
    ensures ss[8] == Single(false, -1, 2, true, [Idle, Pushed(Freed), Idle], Allocated, false)
  {
    var pushed := [Idle, Pushed(Freed), Idle];
    ss, ops := SinglePushed();
    PopSingle(0, 1, true, pushed, 2);
    CountSingle(0, 1, true, pushed, 2);
    assert pushed[2 := Idle] == pushed;
    var asked := Single(true, 0, 1, true, pushed[2 := AskPool(8)], InPool, false);
    var popped := Single(false, 0, 1, true, pushed[2 := Popped(0, 8)], Hand(2), false);
    RunGrows(ss, ops, OpAlloc(2, 8), asked);
    RunGrows(ss + [asked], ops + [OpAlloc(2, 8)], OpGetBuf(2), popped);
    ss, ops := ss + [asked] + [popped], ops + [OpAlloc(2, 8)] + [OpGetBuf(2)];
    RunGrows(ss, ops, OpCountGet(2), Single(false, -1, 2, true, pushed, Allocated, false));
    ss, ops := ss + [Single(false, -1, 2, true, pushed, Allocated, false)], ops + [OpCountGet(2)];
  }

  /** Thread 0 destroys the pool. */
  lemma SingleDestroyed(ss: seq<State>, ops: seq<Op>, count: int, allocs: nat, low: bool, pcs: seq<Pc>, place: Place)
    returns (ss': seq<State>, ops': seq<Op>)
    requires IsRun(ss, ops) && |pcs| == 3 && pcs[0] == Idle
    requires ss[|ops|] == Single(false, count, allocs, low, pcs, place, false)
    ensures IsRun(ss', ops') && |ops'| == |ops| + 2
    ensures ss'[|ops'|] == Single(false, count, allocs, low, pcs, place, W32(count) >= 1)
  {
    DestroySingle(count, allocs, low, pcs, place);
    var flushing := Single(false, count, allocs, low, pcs[0 := Flush(0, true)], place, false);
    var end := Single(false, count, allocs, low, pcs, place, W32(count) >= 1);
    RunGrows(ss, ops, OpFlush(0, true), flushing);
    RunGrows(ss + [flushing], ops + [OpFlush(0, true)], OpFlushStep(0), end);
    ss', ops' := ss + [flushing] + [end], ops + [OpFlush(0, true)] + [OpFlushStep(0)];
  }

  /**
   A pool destroyed under a running allocation: thread 1 popped the only header and did not count it yet, while
   thread 0 finds bufcount to be the number of headers.
   */
  lemma DestroyRace() returns (ss: seq<State>, ops: seq<Op>)
    ensures IsRun(ss, ops) && |ops| == 4
    ensures ss[4] == Single(false, 1, 0, false, [Idle, Idle, Idle][1 := Popped(0, 8)], Hand(1), true)
  {
    ss, ops := SinglePopped();
    ss, ops := SingleDestroyed(ss, ops, 1, 0, false, [Idle, Idle, Idle][1 := Popped(0, 8)], Hand(1));
  }

  /**
   A pool destroyed with its only buffer in use: thread 1 pushed it and did not count it yet, thread 2 popped and
   counted it, so that bufcount went from 0 to the greatest 32-bit number.
   */
  lemma DestroyUnderflow() returns (ss: seq<State>, ops: seq<Op>)
    ensures IsRun(ss, ops) && |ops| == 10
    ensures ss[10] == Single(false, -1, 2, true, [Idle, Pushed(Freed), Idle], Allocated, true)
  {
    ss, ops := SingleTaken();
    ss, ops := SingleDestroyed(ss, ops, -1, 2, true, [Idle, Pushed(Freed), Idle], Allocated);
  }
}
