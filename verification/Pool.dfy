/**
 The code of odp_pool.c and odp_pool_internal.h, run by one thread while the others stay where they are: every call is
 a run of the machine of PoolModel, and what it does to the buffers is stated outright.
 */
module Pools {
  import opened LinkedLists
  import opened Options
  import opened PoolMemory
  import opened PoolModel
  import opened Runs
  import opened Words

  type Run = Runs.Run<Op, State>

  lemma SetTwice<T>(list: seq<T>, i: nat, a: T, b: T)
    requires i < |list|
    ensures list[i := a][i := b] == list[i := b]
  {}

  /** Nothing happened to the buffers in use, except to h. */
  predicate OthersKept(s: State, s': State, h: nat) {
    && |s'.hdrs| == |s.hdrs| == |s.place| == |s'.place|
    && forall x: nat | x < |s.hdrs| && x != h ::
         (s'.place[x] == Allocated <==> s.place[x] == Allocated)
         && (s.place[x] == Allocated ==> s'.hdrs[x] == s.hdrs[x])
  }

  /** All buffers in use are as they were. */
  predicate AllKept(s: State, s': State) {
    && |s'.hdrs| == |s.hdrs| == |s.place| == |s'.place|
    && forall x: nat | x < |s.hdrs| ::
         (s'.place[x] == Allocated <==> s.place[x] == Allocated)
         && (s.place[x] == Allocated ==> s'.hdrs[x] == s.hdrs[x])
  }

  /** Buffer h, until then not in use, is allocated with at least tot bytes; the others in use are as they were. */
  predicate Handed(s: State, s': State, h: nat, tot: nat) {
    && OthersKept(s, s', h) && h < |s.hdrs| && s.place[h] != Allocated
    && s'.place[h] == Allocated && s'.hdrs[h].size >= tot
  }

  /** Headers cached by thread t may have gone to the pool; all others are where they were. */
  predicate MovedToPool(s: State, s': State, t: nat) {
    && |s'.place| == |s.place| && AllKept(s, s')
    && forall x: nat | x < |s.place| ::
         s'.place[x] == s.place[x] || (s.place[x] == InCache(t) && s'.place[x] == InPool)
  }

  /** Header h is smaller than tot, and all its blocks and the free ones together are too few. */
  predicate Short(s: State, h: nat, tot: nat) {
    && h < |s.hdrs| && s.hdrs[h].size < tot
    && (|s.hdrs[h].addr| + |s.blkFree|) * s.cfg.segSize < tot
  }

  lemma Distribute(a: nat, b: nat, segSize: nat)
    ensures (a + b) * segSize == a * segSize + b * segSize
  {}

  /** A header that lacks blocks still does when it is back in the pool. */
  lemma ShortAgain(spec: Spec, s: State, s': State, m': Memory, h: nat, tot: nat)
    requires IsSpec(spec) && spec.sound(s', m') && Short(s, h, tot) && s'.cfg == s.cfg && !s.cfg.inlined
    requires h < |s'.hdrs| == |s'.place| && s'.place[h] == InPool
    requires |s'.hdrs[h].addr| + |s'.blkFree| == |s.hdrs[h].addr| + |s.blkFree|
    ensures Short(s', h, tot)
  {
    assert Sound(s', m');
    assert HeaderOk(s', h);
    Distribute(|s'.hdrs[h].addr|, |s'.blkFree|, s.cfg.segSize);
  }

  /** Where blocks are being attached, they are too few exactly if the free ones are fewer than needed. */
  lemma ShortNow(spec: Spec, s: State, m: Memory, t: nat)
    requires IsSpec(spec) && spec.sound(s, m) && t < |s.pcs| && s.pcs[t].Attach? && s.pcs[t].h < |s.hdrs|
    requires s.pcs[t].needed == s.pcs[t].tot - s.hdrs[s.pcs[t].h].size
    ensures var Attach(h, tot, needed, _) := s.pcs[t];
            && needed > 0 && !s.cfg.inlined && s.cfg.segSize > 0 && h < |s.place| && s.place[h] == Hand(t)
            && (Short(s, h, tot) <==> |s.blkFree| * s.cfg.segSize < needed)
  {
    assert Sound(s, m);
    assert ThreadOk(s, t);
    Distribute(|s.hdrs[s.pcs[t].h].addr|, |s.blkFree|, s.cfg.segSize);
  }

  /** The header an allocation takes: the first one of the thread's cache or else of the pool. */
  function First(s: State, t: nat): Option<nat>
    requires t < |s.locals|
  {
    if s.locals[t].cache != [] then Some(s.locals[t].cache[0])
    else if s.bufFree != [] then Some(s.bufFree[0])
    else None
  }

  /** The header that a thread has in hand. */
  lemma InHand(spec: Spec, s: State, m: Memory, t: nat)
    requires IsSpec(spec) && spec.sound(s, m) && t < |s.pcs| && (s.pcs[t].Return? || s.pcs[t].Attach?)
    ensures s.pcs[t].h < |s.hdrs| == |s.place| && s.place[s.pcs[t].h] == Hand(t)
    ensures s.pcs[t].Return? && s.pcs[t].after.RefillFailed? ==> t < |s.locals| && s.locals[t].frees > 0
  {
    assert Sound(s, m);
    assert ThreadOk(s, t);
  }

  /** A run goes on by one step. */
  lemma Goes(spec: Spec, s: State, run: Run, m: State, op: Op, s': State)
    requires Steps(spec.next, s, run, m) && Does(spec.next, m, op, s')
    ensures Steps(spec.next, s, run + [Taken(op, s')], s')
  {
    StepsJoin(spec.next, s, run, m, [Taken(op, s')], s');
  }

  /** Blocks are being attached to h by thread t, which has got to pc. */
  predicate Attaching(s: State, s': State, t: nat, h: nat, pc: Pc) {
    && t < |s.pcs| && s' == s.(hdrs := s'.hdrs, blkFree := s'.blkFree, owner := s'.owner, pcs := s.pcs[t := pc])
    && h < |s.hdrs| == |s'.hdrs| && (forall x: nat | x < |s.hdrs| && x != h :: s'.hdrs[x] == s.hdrs[x])
    && s'.hdrs[h].addr + s'.blkFree == s.hdrs[h].addr + s.blkFree
  }

  /** Blocks were attached to h by thread t, which has handed it out. */
  predicate Attached(s: State, s': State, t: nat, h: nat, tot: nat) {
    && t < |s.pcs| && h < |s.hdrs| == |s.place| == |s'.hdrs|
    && s' == s.(hdrs := s'.hdrs, blkFree := s'.blkFree, owner := s'.owner, locals := s'.locals,
                pcs := s.pcs[t := Idle], place := s.place[h := Allocated])
    && (forall x: nat | x < |s.hdrs| && x != h :: s'.hdrs[x] == s.hdrs[x])
    && s'.hdrs[h].addr + s'.blkFree == s.hdrs[h].addr + s.blkFree
    && tot <= s'.hdrs[h].size < tot + s.cfg.segSize
  }

  /** What one round of attaching does: no block and the way back, one more block, or a buffer big enough. */
  lemma AttachEffect(spec: Spec, s: State, m: Memory, t: nat)
    requires IsSpec(spec) && spec.sound(s, m) && Enabled(s, OpGetBlk(t)) && Sized(s)
    requires s.pcs[t].h < |s.hdrs| && (s.blkFree != [] ==> s.blkFree[0] < |s.owner|)
    ensures var s', Attach(h, tot, needed, cached) := StepGetBlk(s, t), s.pcs[t];
            if s.blkFree != [] && needed - s.cfg.segSize <= 0 then Attached(s, s', t, h, tot)
            else Attaching(s, s', t, h, if s.blkFree != [] then Attach(h, tot, needed - s.cfg.segSize, cached)
                                        else Return(h, if cached then RefillFailed(tot) else AllocFailed))
  {
    assert Sound(s, m);
    assert ThreadOk(s, t);
    OneBlockMore(|s.hdrs[s.pcs[t].h].addr|, s.cfg.segSize);
    if s.blkFree != [] {
      MoveFirst(s.hdrs[s.pcs[t].h].addr, s.blkFree);
    }
  }

  /** The first block of a list is appended to an array. */
  lemma MoveFirst(addr: seq<nat>, list: seq<nat>)
    requires list != []
    ensures addr + [list[0]] + list[1..] == addr + list
  {}

  lemma AttachedAfter(s: State, m: State, s': State, t: nat, h: nat, tot: nat, pc: Pc)
    requires Attaching(s, m, t, h, pc) && Attached(m, s', t, h, tot)
    ensures Attached(s, s', t, h, tot)
  {
    SetTwice(s.pcs, t, pc, Idle);
  }

  lemma AttachingAfter(s: State, m: State, s': State, t: nat, h: nat, pc: Pc, pc': Pc)
    requires Attaching(s, m, t, h, pc) && Attaching(m, s', t, h, pc')
    ensures Attaching(s, s', t, h, pc')
  {
    SetTwice(s.pcs, t, pc, pc');
  }

  /** The state after ret_buf. */
  function Returned(s: State, t: nat, h: nat, after: After, blkFree: seq<nat>, owner: seq<Option<nat>>): State
    requires t < |s.pcs| == |s.locals| && h < |s.hdrs| == |s.place|
    requires after.RefillFailed? ==> s.locals[t].frees > 0
  {
    s.(hdrs := if s.cfg.inlined || s.cfg.raw then s.hdrs else s.hdrs[h := Hdr([], 0)],
       blkFree := blkFree, owner := owner,
       bufFree := [h] + s.bufFree, place := s.place[h := InPool], bufCount := s.bufCount + 1, frees := s.frees + 1,
       lowWmAssert := s.lowWmAssert && W32(s.bufCount + 1) != s.cfg.highWm,
       pcs := s.pcs[t := Resume(after)], locals := s.locals[t := Settled(s.locals[t], after)])
  }

  /** Thread t has flushed count headers of its cache. */
  predicate FlushedSoFar(s: State, s': State, t: nat, count: nat, destroy: bool)
    requires t < |s.pcs| && t < |s.locals| && t < |s'.locals|
  {
    && s'.pcs == s.pcs[t := Flush(count, destroy)] && MovedToPool(s, s', t)
    && s'.locals[t] == s.locals[t].(cache := s'.locals[t].cache)
    && count + |s'.locals[t].cache| == |s.locals[t].cache|
    && s'.allocs == s.allocs && s'.frees == s.frees + count && s'.bufCount == s.bufCount + count
  }

  lemma FlushedMore(s: State, m: State, s': State, t: nat, count: nat, destroy: bool)
    requires t < |s.pcs| && t < |s.locals| && t < |m.locals| && t < |s'.locals| && FlushedSoFar(s, m, t, count, destroy)
    requires s'.pcs == m.pcs[t := Flush(count + 1, destroy)] && MovedToPool(m, s', t)
    requires s'.locals[t] == m.locals[t].(cache := s'.locals[t].cache)
    requires |m.locals[t].cache| == |s'.locals[t].cache| + 1
    requires s'.allocs == m.allocs && s'.frees == m.frees + 1 && s'.bufCount == m.bufCount + 1
    ensures FlushedSoFar(s, s', t, count + 1, destroy)
  {
    SetTwice(s.pcs, t, m.pcs[t], s'.pcs[t]);
    MovedTwice(s, m, s', t);
  }

  class Pool {
    const cfg: Config
    var hdrs: seq<Hdr>
    var next: seq<Option<nat>>
    var bufHead: Option<nat>
    var blkNext: seq<Option<nat>>
    var blkHead: Option<nat>
    var bufCount: int
    var allocs: int
    var frees: int
    var lowWmAssert: bool
    var own: seq<Cache>
    var gone: bool

    /** The state of the machine, and where the list of each thread's cache starts. */
    ghost var abs: State
    ghost var at: seq<Option<nat>>

    /** The steps the runs below are made of, and what holds between them. */
    ghost const spec: Spec

    ghost function Mem(): Memory
      reads this
    {
      Memory(cfg, hdrs, next, bufHead, blkNext, blkHead, bufCount, allocs, frees, lowWmAssert, own, gone, at)
    }

    /** What every method needs and keeps. */
    ghost predicate Valid(t: nat)
      reads this
    {
      spec.sound(abs, Mem()) && Sized(abs) && t < |abs.pcs| && !abs.gone
    }

    /** odp_pool_create: both free lists are built from the last entry down, so that they end up ascending. */
    constructor (cfg: Config, bufNum: nat, blkNum: nat, threads: nat)
      requires ConfigOk(cfg) && 1 <= bufNum < TWO32
      ensures IsSpec(spec) && PoolModel.Init(abs) && spec.sound(abs, Mem()) && !abs.gone
      ensures this.cfg == cfg && |abs.hdrs| == bufNum && |abs.owner| == blkNum && |abs.locals| == threads
    {
      this.cfg := cfg;
      spec := Spec(Next, (s, m) => Sound(s, m));
      bufCount, allocs, frees, lowWmAssert, gone := bufNum, 0, 0, false, false;
      own := seq(threads, _ => Cache(None, 0, 0));
      at := seq(threads, _ => None);
      hdrs := seq(bufNum, _ => Hdr([], if cfg.inlined then cfg.segSize else 0));
      abs := State(cfg, hdrs, Upto(bufNum), Upto(blkNum), bufNum, 0, 0, false, seq(threads, _ => Local([], 0, 0)),
                   seq(threads, _ => Idle), seq(bufNum, _ => InPool), seq(blkNum, _ => None), false);
      var links, first := LinkAscending(bufNum);
      next, bufHead := links, first;
      links, first := LinkAscending(blkNum);
      blkNext, blkHead := links, first;
      new;
      InvInit(abs);
      assert Sound(abs, Mem());
    }

    /** get_blk. */
    method GetBlk(ghost list: seq<nat>) returns (blk: Option<nat>)
      requires ListAt(blkNext, blkHead, list)
      modifies `blkHead
      ensures if list == [] then blk == None && ListAt(blkNext, blkHead, [])
              else blk == Some(list[0]) && ListAt(blkNext, blkHead, list[1..])
    {
      blk := blkHead;
      if blk != None {
        blkHead := blkNext[blk.value];
      }
    }

    /** ret_blk. */
    method RetBlk(blk: nat, ghost list: seq<nat>)
      requires ListAt(blkNext, blkHead, list) && blk < |blkNext| && blk !in list
      modifies `blkNext, `blkHead
      ensures ListAt(blkNext, blkHead, [blk] + list) && |blkNext| == |old(blkNext)|
    {
      ListPush(blkNext, blkHead, list, blk);
      blkNext := blkNext[blk := blkHead];
      blkHead := Some(blk);
    }

    /** One round of the loop of ret_buf. */
    method DetachOne(t: nat, h: nat)
      requires IsSpec(spec) && Valid(t) && Enabled(abs, OpRetBlk(t)) && abs.pcs[t].h == h
      modifies `hdrs, `blkNext, `blkHead, `abs
      ensures Sized(old(abs)) && var addr := old(abs).hdrs[h].addr; addr[|addr| - 1] < |old(abs).owner|
      ensures Valid(t) && abs == StepRetBlk(old(abs), t) && Does(spec.next, old(abs), OpRetBlk(t), abs)
    {
      ghost var m := Mem();
      Reads(spec, abs, m);
      ReadsBlocks(spec, abs, m);
      LastBlock(spec, abs, m, t);
      var addr := hdrs[h].addr;
      RetBlk(addr[|addr| - 1], abs.blkFree);
      hdrs := hdrs[h := hdrs[h].(addr := addr[..|addr| - 1])];
      ReturnsBlock(spec, abs, m, t, blkNext, blkHead);
      abs := StepRetBlk(abs, t);
    }

    /** The loop of ret_buf: the blocks go back, last one first. */
    method RetBlocks(t: nat, h: nat, ghost s: State, ghost sofar: Run) returns (ghost run: Run)
      requires IsSpec(spec) && Valid(t) && Steps(spec.next, s, sofar, abs)
      requires abs.pcs[t].Return? && abs.pcs[t].h == h && h < |abs.hdrs| && !KeepsData(abs.cfg)
      modifies `hdrs, `blkNext, `blkHead, `abs
      ensures Valid(t) && Steps(spec.next, s, run, abs)
      ensures var addr := old(abs).hdrs[h].addr;
              abs == old(abs).(hdrs := old(abs).hdrs[h := old(abs).hdrs[h].(addr := [])],
                               blkFree := addr + old(abs).blkFree, owner := abs.owner)
    {
      run := sofar;
      ghost var o := abs;
      Reads(spec, abs, Mem());
      while hdrs[h].addr != []
        invariant Valid(t) && Steps(spec.next, s, run, abs) && h < |hdrs| && hdrs == abs.hdrs
        invariant abs == o.(hdrs := o.hdrs[h := o.hdrs[h].(addr := abs.hdrs[h].addr)], blkFree := abs.blkFree,
                            owner := abs.owner)
        invariant abs.hdrs[h].addr + abs.blkFree == o.hdrs[h].addr + o.blkFree
        decreases |hdrs[h].addr|
      {
        ghost var m := abs;
        DetachOne(t, h);
        Reads(spec, abs, Mem());
        MoveLast(m.hdrs[h].addr, m.blkFree);
        SetTwice(o.hdrs, h, m.hdrs[h], abs.hdrs[h]);
        Goes(spec, s, run, m, OpRetBlk(t), abs);
        run := run + [Taken(OpRetBlk(t), abs)];
      }
    }

    /** ret_buf up to its unlock: the header goes on the free list. */
    method PushHeader(t: nat, h: nat)
      requires IsSpec(spec) && Valid(t) && Enabled(abs, OpRetBuf(t)) && abs.pcs[t].h == h
      modifies `hdrs, `next, `bufHead, `abs
      ensures Sized(old(abs))
      ensures Valid(t) && abs == StepRetBuf(old(abs), t) && Does(spec.next, old(abs), OpRetBuf(t), abs)
    {
      PushesHeader(spec, abs, Mem(), t);
      Reads(spec, abs, Mem());
      if !KeepsData(cfg) {
        hdrs := hdrs[h := hdrs[h].(size := 0)];
      }
      next := next[h := bufHead];
      bufHead := Some(h);
      abs := StepRetBuf(abs, t);
    }

    /** The rest of ret_buf; `refill` says that get_local_buf called it, which then takes its free count down. */
    method CountReturned(t: nat, refill: bool)
      requires IsSpec(spec) && Valid(t) && abs.pcs[t].Pushed? && refill == abs.pcs[t].after.RefillFailed?
      modifies `bufCount, `frees, `lowWmAssert, `own, `abs
      ensures Sized(old(abs)) && (refill ==> old(abs).locals[t].frees > 0)
      ensures Valid(t) && abs == StepCountRet(old(abs), t) && Does(spec.next, old(abs), OpCountRet(t), abs)
    {
      CountsReturned(spec, abs, Mem(), t);
      bufCount := bufCount + 1;
      if W32(bufCount) == cfg.highWm && lowWmAssert {
        lowWmAssert := false;
      }
      frees := frees + 1;
      if refill {
        own := own[t := own[t].(frees := own[t].frees - 1)];
      }
      abs := StepCountRet(abs, t);
    }

    /** ret_buf once the blocks are returned. */
    method RetHeader(t: nat, h: nat, refill: bool, ghost s: State, ghost sofar: Run) returns (ghost run: Run)
      requires IsSpec(spec) && Valid(t) && Steps(spec.next, s, sofar, abs)
      requires Enabled(abs, OpRetBuf(t)) && abs.pcs[t].h == h && refill == abs.pcs[t].after.RefillFailed?
      modifies `hdrs, `next, `bufHead, `bufCount, `frees, `lowWmAssert, `own, `abs
      ensures Valid(t) && Steps(spec.next, s, run, abs) && (refill ==> old(abs).locals[t].frees > 0)
      ensures abs == Returned(old(abs), t, h, old(abs).pcs[t].after, old(abs).blkFree, old(abs).owner)
    {
      ghost var m := abs;
      PushHeader(t, h);
      ghost var n := abs;
      Goes(spec, s, sofar, m, OpRetBuf(t), n);
      run := sofar + [Taken(OpRetBuf(t), n)];
      CountReturned(t, refill);
      SetTwice(m.pcs, t, n.pcs[t], abs.pcs[t]);
      Goes(spec, s, run, n, OpCountRet(t), abs);
      run := run + [Taken(OpCountRet(t), abs)];
    }

    /** ret_buf: all blocks go back unless the buffer keeps its data, then the header, then the counts. */
    method RetBuf(t: nat, h: nat, refill: bool, ghost s: State, ghost sofar: Run) returns (ghost run: Run)
      requires IsSpec(spec) && Valid(t) && Steps(spec.next, s, sofar, abs)
      requires abs.pcs[t].Return? && abs.pcs[t].h == h && refill == abs.pcs[t].after.RefillFailed?
      modifies `hdrs, `blkNext, `blkHead, `next, `bufHead, `bufCount, `frees, `lowWmAssert, `own, `abs
      ensures h < |old(abs).hdrs| == |old(abs).place| && (refill ==> old(abs).locals[t].frees > 0)
      ensures Valid(t) && Steps(spec.next, s, run, abs)
      ensures var m := old(abs);
              abs == Returned(m, t, h, m.pcs[t].after,
                              if m.cfg.inlined || m.cfg.raw then m.blkFree else m.hdrs[h].addr + m.blkFree, abs.owner)
    {
      run := sofar;
      ghost var o := abs;
      Reads(spec, abs, Mem());
      InHand(spec, abs, Mem(), t);
      if !KeepsData(cfg) {
        run := RetBlocks(t, h, s, sofar);
        SetTwice(o.hdrs, h, abs.hdrs[h], Hdr([], 0));
      }
      run := RetHeader(t, h, refill, s, run);
    }

    /** One round of the loop that attaches blocks; the last round also sets the size and hands the buffer out. */
    method AttachOne(t: nat, h: nat, needed: int, cached: bool) returns (got: bool, left: int)
      requires IsSpec(spec) && Valid(t) && abs.pcs[t].Attach? && abs.pcs[t].h == h
      requires abs.pcs[t].needed == needed && abs.pcs[t].cached == cached
      modifies `blkHead, `hdrs, `own, `abs
      ensures h < |old(abs).hdrs| && (old(abs).blkFree != [] ==> old(abs).blkFree[0] < |old(abs).owner|)
      ensures Valid(t) && abs == StepGetBlk(old(abs), t) && Does(spec.next, old(abs), OpGetBlk(t), abs)
      ensures got == (old(abs).blkFree != []) && left == if got then needed - abs.cfg.segSize else needed
    {
      ghost var m := Mem();
      Reads(spec, abs, m);
      InHand(spec, abs, m, t);
      ReadsBlocks(spec, abs, m);
      var blk := GetBlk(abs.blkFree);
      GetsBlock(spec, abs, m, t, blkHead);
      got, left := blk != None, needed;
      if got {
        left := needed - cfg.segSize;
        AddBlock(t, h, blk.value, left, cached);
      }
      abs := StepGetBlk(abs, t);
    }

    /** A block is attached. */
    method AddBlock(t: nat, h: nat, blk: nat, left: int, cached: bool)
      requires t < |own| && h < |hdrs|
      modifies `hdrs, `own
      ensures var pc := Attach(h, 0, left + cfg.segSize, cached);
              Mem() == WithBlock(old(Mem()), t, pc, Some(blk), blkHead)
    {
      var addr := hdrs[h].addr + [blk];
      if left > 0 {
        hdrs := hdrs[h := hdrs[h].(addr := addr)];
      } else {
        hdrs := hdrs[h := Hdr(addr, |addr| * cfg.segSize)];
        if cached {
          own := own[t := own[t].(allocs := own[t].allocs + 1)];
        }
      }
    }

    /** The same, in the terms of the loop below. */
    method AttachRound(t: nat, h: nat, tot: nat, needed: int, cached: bool) returns (got: bool, left: int)
      requires IsSpec(spec) && Valid(t) && abs.pcs[t] == Attach(h, tot, needed, cached)
      modifies `blkHead, `hdrs, `own, `abs
      ensures Valid(t) && Does(spec.next, old(abs), OpGetBlk(t), abs)
      ensures got == (old(abs).blkFree != []) && left == if got then needed - abs.cfg.segSize else needed
      ensures |abs.blkFree| == if got then |old(abs).blkFree| - 1 else 0
      ensures if got && left <= 0 then Attached(old(abs), abs, t, h, tot)
              else Attaching(old(abs), abs, t, h,
                             if got then Attach(h, tot, left, cached)
                             else Return(h, if cached then RefillFailed(tot) else AllocFailed))
    {
      ghost var s, m := abs, Mem();
      got, left := AttachOne(t, h, needed, cached);
      AttachEffect(spec, s, m, t);
    }

    /**
     The loop that attaches blocks, of get_local_buf and buffer_alloc: either the buffer gets the first free blocks
     until it has what it needs and is allocated, or it gets all of them and is to be returned.
     */
    method AttachBlocks(t: nat, h: nat, tot: nat, cached: bool, ghost s: State, ghost sofar: Run)
      returns (ok: bool, ghost run: Run)
      requires IsSpec(spec) && Valid(t) && Steps(spec.next, s, sofar, abs)
      requires h < |abs.hdrs| && abs.pcs[t] == Attach(h, tot, tot - abs.hdrs[h].size, cached)
      modifies `blkHead, `hdrs, `own, `abs
      ensures Valid(t) && Steps(spec.next, s, run, abs) && ok == !Short(old(abs), h, tot)
      ensures if ok then Attached(old(abs), abs, t, h, tot)
              else abs.blkFree == [] && Attaching(old(abs), abs, t, h,
                                                  Return(h, if cached then RefillFailed(tot) else AllocFailed))
    {
      run := sofar;
      ghost var o := abs;
      Reads(spec, abs, Mem());
      ShortNow(spec, abs, Mem(), t);
      var needed := tot - hdrs[h].size;
      var more := true;
      ok := true;
      assert o.pcs[t := o.pcs[t]] == o.pcs;
      while more
        invariant Valid(t) && Steps(spec.next, s, run, abs) && ok && abs.cfg == o.cfg
        invariant |abs.blkFree| * o.cfg.segSize - needed == |o.blkFree| * o.cfg.segSize - (tot - o.hdrs[h].size)
        invariant if more then needed > 0 && Attaching(o, abs, t, h, Attach(h, tot, needed, cached))
                  else needed <= 0 && Attached(o, abs, t, h, tot)
        decreases more, needed
      {
        ghost var m := abs;
        var left;
        ok, left := AttachRound(t, h, tot, needed, cached);
        Goes(spec, s, run, m, OpGetBlk(t), abs);
        run := run + [Taken(OpGetBlk(t), abs)];
        if ok && left <= 0 {
          AttachedAfter(o, m, abs, t, h, tot, m.pcs[t]);
        } else {
          AttachingAfter(o, m, abs, t, h, m.pcs[t], abs.pcs[t]);
        }
        if !ok {
          return;
        }
        OneBlockMore(|abs.blkFree|, o.cfg.segSize);
        needed := left;
        more := needed > 0;
      }
    }

    /** get_buf up to its unlock, for an allocation of tot bytes. */
    method PopHeader(t: nat, tot: nat) returns (buf: Option<nat>)
      requires IsSpec(spec) && Valid(t) && abs.pcs[t] == AskPool(tot)
      modifies `bufHead, `abs
      ensures old(abs).bufFree != [] ==> old(abs).bufFree[0] < |old(abs).hdrs|
      ensures Valid(t) && abs == StepGetBuf(old(abs), t) && Does(spec.next, old(abs), OpGetBuf(t), abs)
      ensures buf == FirstOf(old(abs).bufFree)
    {
      ReadsPool(spec, abs, Mem());
      PopsHeader(spec, abs, Mem(), t);
      buf := bufHead;
      if buf != None {
        bufHead := next[buf.value];
      }
      abs := StepGetBuf(abs, t);
    }

    /** The rest of get_buf. */
    method CountTaken(t: nat)
      requires IsSpec(spec) && Valid(t) && abs.pcs[t].Popped?
      modifies `bufCount, `allocs, `lowWmAssert, `abs
      ensures Sized(old(abs)) && old(abs).pcs[t].h < |old(abs).hdrs|
      ensures Valid(t) && abs == StepCountGet(old(abs), t) && Does(spec.next, old(abs), OpCountGet(t), abs)
    {
      CountsGet(spec, abs, Mem(), t);
      bufCount := bufCount - 1;
      if W32(bufCount) == cfg.lowWm && !lowWmAssert {
        lowWmAssert := true;
      }
      allocs := allocs + 1;
      abs := StepCountGet(abs, t);
    }

    /** get_buf: the first header of the free list, and one less in the count. */
    method GetBuf(t: nat, tot: nat, ghost s: State, ghost sofar: Run) returns (buf: Option<nat>, ghost run: Run)
      requires IsSpec(spec) && Valid(t) && abs.pcs[t] == AskPool(tot) && Steps(spec.next, s, sofar, abs)
      modifies `bufHead, `bufCount, `allocs, `lowWmAssert, `abs
      ensures Valid(t) && Steps(spec.next, s, run, abs) && buf == FirstOf(old(abs).bufFree)
      ensures var m := old(abs);
              if buf == None then abs == m.(pcs := m.pcs[t := Idle])
              else
                var h := buf.value;
                && h < |m.hdrs| == |m.place| && m.place[h] == InPool
                && var short := m.hdrs[h].size < tot;
                abs == m.(bufFree := m.bufFree[1..], bufCount := m.bufCount - 1, allocs := m.allocs + 1,
                          lowWmAssert := m.lowWmAssert || W32(m.bufCount - 1) == m.cfg.lowWm,
                          place := m.place[h := if short then Hand(t) else Allocated],
                          pcs := m.pcs[t := if short then Attach(h, tot, tot - m.hdrs[h].size, false) else Idle])
    {
      ghost var m := abs;
      ReadsPool(spec, abs, Mem());
      buf := PopHeader(t, tot);
      Goes(spec, s, sofar, m, OpGetBuf(t), abs);
      run := sofar + [Taken(OpGetBuf(t), abs)];
      if buf != None {
        ghost var n := abs;
        CountTaken(t);
        Goes(spec, s, run, n, OpCountGet(t), abs);
        run := run + [Taken(OpCountGet(t), abs)];
        SetTwice(m.pcs, t, n.pcs[t], abs.pcs[t]);
        SetTwice(m.place, buf.value, n.place[buf.value], Allocated);
      }
    }

    /** The test of buffer_alloc and the first part of get_local_buf: a header from the thread's own cache. */
    method TakeCached(t: nat, size: nat) returns (rejected: bool, buf: Option<nat>, tot: nat)
      requires IsSpec(spec) && Valid(t) && abs.pcs[t] == Idle
      modifies `own, `abs, `at
      ensures var cache := old(abs).locals[t].cache;
              cache != [] ==> cache[0] < |old(abs).hdrs| && old(abs).place[cache[0]] == InCache(t)
      ensures Valid(t) && abs == StepAlloc(old(abs), t, size) && Does(spec.next, old(abs), OpAlloc(t, size), abs)
      ensures tot == abs.cfg.headroom + size + abs.cfg.tailroom && rejected == TooBig(abs.cfg, tot)
      ensures buf == if rejected then None else FirstOf(old(abs).locals[t].cache)
    {
      Reads(spec, abs, Mem());
      ReadsCache(spec, abs, Mem(), t);
      TakesCached(spec, abs, Mem(), t, size);
      tot := cfg.headroom + size + cfg.tailroom;
      rejected := (cfg.unsegmented && tot > cfg.segSize) || (!cfg.unsegmented && tot > cfg.segSize * MAX_SEG);
      buf := if rejected then None else own[t].head;
      if buf != None {
        var count := if hdrs[buf.value].size >= tot then own[t].allocs + 1 else own[t].allocs;
        own := own[t := own[t].(head := next[buf.value], allocs := count)];
        at := at[t := next[buf.value]];
      }
      abs := StepAlloc(abs, t, size);
    }

    /** The loop that attaches blocks, and the way back to the pool when they run out. */
    method Refill(t: nat, h: nat, tot: nat, cached: bool, ghost s: State, ghost sofar: Run)
      returns (buf: Option<nat>, ghost run: Run)
      requires IsSpec(spec) && Valid(t) && Steps(spec.next, s, sofar, abs)
      requires h < |abs.hdrs| && abs.pcs[t] == Attach(h, tot, tot - abs.hdrs[h].size, cached)
      modifies this
      ensures Valid(t) && Steps(spec.next, s, run, abs) && OthersKept(old(abs), abs, h)
      ensures buf == if Short(old(abs), h, tot) then None else Some(h)
      ensures buf != None ==> abs.place[h] == Allocated && abs.hdrs[h].size >= tot && abs.pcs[t] == Idle
      ensures buf == None ==> abs.place[h] == InPool && abs.bufFree == [h] + old(abs).bufFree && Short(abs, h, tot)
                              && abs.pcs[t] == if cached then AskPool(tot) else Idle
    {
      ghost var m := abs;
      ShortNow(spec, abs, Mem(), t);
      var ok;
      ok, run := AttachBlocks(t, h, tot, cached, s, sofar);
      buf := Some(h);
      if !ok {
        ghost var n := abs;
        run := RetBuf(t, h, cached, s, run);
        buf := None;
        assert |n.hdrs[h].addr + n.blkFree| == |m.hdrs[h].addr + m.blkFree|;
        ShortAgain(spec, m, abs, Mem(), h, tot);
      }
    }

    /**
     get_local_buf: the first cached buffer, filled up with blocks if need be. If blocks run out it goes to the pool,
     where it is as short of blocks as before.
     */
    method GetLocalBuf(t: nat, size: nat) returns (rejected: bool, buf: Option<nat>, tot: nat, ghost run: Run)
      requires IsSpec(spec) && Valid(t) && abs.pcs[t] == Idle
      modifies this
      ensures Valid(t) && Steps(spec.next, old(abs), run, abs)
      ensures tot == old(abs).cfg.headroom + size + old(abs).cfg.tailroom && rejected == TooBig(old(abs).cfg, tot)
      ensures var cache := old(abs).locals[t].cache;
              && buf == (if rejected || cache == [] || Short(old(abs), cache[0], tot) then None else Some(cache[0]))
              && (rejected ==> abs == old(abs))
              && (buf != None ==> abs.pcs[t] == Idle && Handed(old(abs), abs, buf.value, tot))
              && (!rejected && buf == None ==>
                    && abs.pcs[t] == AskPool(tot) && AllKept(old(abs), abs)
                    && if cache == [] then abs == SetPc(old(abs), t, AskPool(tot))
                       else abs.bufFree == [cache[0]] + old(abs).bufFree && Short(abs, cache[0], tot))
    {
      ghost var s := abs;
      rejected, buf, tot := TakeCached(t, size);
      run := [Taken(OpAlloc(t, size), abs)];
      Reads(spec, abs, Mem());
      if buf != None && hdrs[buf.value].size < tot {
        buf, run := Refill(t, buf.value, tot, true, s, run);
      }
    }

    /** The rest of buffer_alloc: a buffer from the pool. */
    method AllocFromPool(t: nat, tot: nat, ghost s: State, ghost sofar: Run)
      returns (buf: Option<nat>, ghost run: Run)
      requires IsSpec(spec) && Valid(t) && abs.pcs[t] == AskPool(tot) && Steps(spec.next, s, sofar, abs)
      modifies this
      ensures Valid(t) && Steps(spec.next, s, run, abs) && abs.pcs[t] == Idle
      ensures var list := old(abs).bufFree;
              buf == if list == [] || Short(old(abs), list[0], tot) then None else Some(list[0])
      ensures if buf != None then Handed(old(abs), abs, buf.value, tot) else AllKept(old(abs), abs)
    {
      buf, run := GetBuf(t, tot, s, sofar);
      Reads(spec, abs, Mem());
      if buf != None && hdrs[buf.value].size < tot {
        buf, run := Refill(t, buf.value, tot, false, s, run);
      }
    }

    /**
     buffer_alloc. It takes the first header of the cache or else of the pool, and fails exactly if the request is too
     big for any buffer (one segment, or six), there is no header, or that header's blocks and the free ones together
     are too few (blocks that other cached headers keep do not help). The buffer returned was not in use and has room
     for the data with headroom and tailroom; every other buffer in use keeps its blocks. Requests that are too big
     change nothing.
     */
    method BufferAlloc(t: nat, size: nat) returns (buf: Option<nat>, ghost run: Run)
      requires IsSpec(spec) && Valid(t) && abs.pcs[t] == Idle
      modifies this
      ensures Valid(t) && Steps(spec.next, old(abs), run, abs) && abs.pcs[t] == Idle
      ensures var c := old(abs).cfg;
              var tot, first := c.headroom + size + c.tailroom, First(old(abs), t);
              var tooBig := tot > (if c.unsegmented then 1 else 6) * c.segSize;
              && buf == (if tooBig || first == None || Short(old(abs), first.value, tot) then None else first)
              && (tooBig ==> abs == old(abs))
              && if buf != None then Handed(old(abs), abs, buf.value, tot) else AllKept(old(abs), abs)
    {
      ghost var s := abs;
      var rejected, tot;
      rejected, buf, tot, run := GetLocalBuf(t, size);
      if !rejected && buf == None {
        ghost var m := abs;
        buf, run := AllocFromPool(t, tot, s, run);
        HandedAfter(s, m, abs, buf, tot);
      }
    }

    /** ret_local_buf: the header is the first one of the thread's cache. */
    method KeepLocal(t: nat, h: nat)
      requires IsSpec(spec) && Valid(t) && Enabled(abs, OpFree(t, h)) && !abs.lowWmAssert
      modifies `next, `own, `abs, `at
      ensures Sized(old(abs))
      ensures Valid(t) && abs == StepFree(old(abs), t, h) && Does(spec.next, old(abs), OpFree(t, h), abs)
    {
      Frees(spec, abs, Mem(), t, h);
      next := next[h := own[t].head];
      own := own[t := own[t].(head := Some(h), frees := own[t].frees + 1)];
      at := at[t := Some(h)];
      abs := StepFree(abs, t, h);
    }

    /** odp_buffer_free: to the pool while buffers are low, else to the thread's cache. */
    method BufferFree(t: nat, h: nat) returns (ghost run: Run)
      requires IsSpec(spec) && Valid(t) && abs.pcs[t] == Idle && h < |abs.hdrs| && abs.place[h] == Allocated
      modifies this
      ensures Valid(t) && Steps(spec.next, old(abs), run, abs) && abs.pcs == old(abs).pcs
      ensures OthersKept(old(abs), abs, h) && h < |abs.place|
      ensures abs.place == old(abs).place[h := if old(abs).lowWmAssert then InPool else InCache(t)]
      ensures if old(abs).lowWmAssert then abs.bufFree == [h] + old(abs).bufFree && abs.locals == old(abs).locals
              else abs.bufFree == old(abs).bufFree && abs.locals[t].cache == [h] + old(abs).locals[t].cache
    {
      ghost var s := abs;
      Reads(spec, abs, Mem());
      if lowWmAssert {
        Frees(spec, abs, Mem(), t, h);
        abs := StepFree(abs, t, h);
        ghost var n := abs;
        run := [Taken(OpFree(t, h), n)];
        run := RetBuf(t, h, false, s, run);
        SetTwice(s.pcs, t, n.pcs[t], Idle);
        SetTwice(s.place, h, n.place[h], InPool);
        assert s.pcs[t := Idle] == s.pcs && s.locals[t := s.locals[t]] == s.locals;
      } else {
        KeepLocal(t, h);
        run := [Taken(OpFree(t, h), abs)];
      }
    }

    /** The next header to flush; its link is read before ret_buf uses it for the pool's list. */
    method FlushFirst(t: nat, h: nat) returns (rest: Option<nat>)
      requires IsSpec(spec) && Valid(t) && abs.pcs[t].Flush? && t < |at| && at[t] == Some(h)
      modifies `abs, `at
      ensures var cache := old(abs).locals[t].cache;
              cache != [] && h == cache[0] < |old(abs).hdrs| && old(abs).place[h] == InCache(t)
      ensures Valid(t) && abs == StepFlush(old(abs), t) && Does(spec.next, old(abs), OpFlushStep(t), abs)
      ensures t < |at| && rest == at[t]
    {
      ReadsCache(spec, abs, Mem(), t);
      FlushesFirst(spec, abs, Mem(), t);
      rest := next[h];
      at := at[t := rest];
      abs := StepFlush(abs, t);
    }

    /** One round of flush_cache. */
    method FlushOne(t: nat, h: nat, ghost s: State, ghost sofar: Run) returns (rest: Option<nat>, ghost run: Run)
      requires IsSpec(spec) && Valid(t) && Steps(spec.next, s, sofar, abs)
      requires abs.pcs[t].Flush? && t < |at| && at[t] == Some(h)
      modifies `hdrs, `blkNext, `blkHead, `next, `bufHead, `bufCount, `frees, `lowWmAssert, `own, `abs, `at
      ensures Valid(t) && Steps(spec.next, s, run, abs) && t < |at| && rest == at[t]
      ensures abs.bufFree == [h] + old(abs).bufFree && abs.allocs == old(abs).allocs
      ensures old(abs).locals[t] == abs.locals[t].(cache := [h] + abs.locals[t].cache)
      ensures abs.bufCount == old(abs).bufCount + 1 && abs.frees == old(abs).frees + 1
      ensures abs.pcs == old(abs).pcs[t := Flush(old(abs).pcs[t].n + 1, old(abs).pcs[t].destroy)]
      ensures MovedToPool(old(abs), abs, t)
    {
      ghost var m := abs;
      rest := FlushFirst(t, h);
      ghost var n := abs;
      Goes(spec, s, sofar, m, OpFlushStep(t), n);
      run := RetBuf(t, h, false, s, sofar + [Taken(OpFlushStep(t), n)]);
      SetTwice(m.pcs, t, n.pcs[t], abs.pcs[t]);
    }

    /** The loop of flush_cache. */
    method FlushAll(t: nat, head: Option<nat>, ghost destroy: bool, ghost s: State, ghost sofar: Run)
      returns (count: nat, ghost run: Run)
      requires IsSpec(spec) && Valid(t) && Steps(spec.next, s, sofar, abs) && t < |at| && head == at[t]
      requires t < |s.pcs| && t < |s.locals| && FlushedSoFar(s, abs, t, 0, destroy)
      modifies `hdrs, `blkNext, `blkHead, `next, `bufHead, `bufCount, `frees, `lowWmAssert, `own, `abs, `at
      ensures Valid(t) && Steps(spec.next, s, run, abs) && t < |at| && at[t] == None
      ensures FlushedSoFar(s, abs, t, count, destroy)
    {
      count, run := 0, sofar;
      var buf := head;
      while buf != None
        invariant Valid(t) && Steps(spec.next, s, run, abs) && t < |at| && buf == at[t]
        invariant FlushedSoFar(s, abs, t, count, destroy)
        decreases |abs.locals[t].cache|
      {
        ghost var m := abs;
        buf, run := FlushOne(t, buf.value, s, run);
        FlushedMore(s, m, abs, t, count, destroy);
        count := count + 1;
      }
    }

    /** flush_cache: every cached header to the pool, and the thread's counts to the shared ones. */
    method FlushCache(t: nat, destroy: bool) returns (ghost run: Run)
      requires IsSpec(spec) && Valid(t) && abs.pcs[t] == Idle
      modifies this
      ensures spec.sound(abs, Mem()) && Sized(abs) && Steps(spec.next, old(abs), run, abs) && abs.pcs == old(abs).pcs
      ensures abs.locals[t] == Local([], 0, 0) && |abs.place| == |old(abs).place|
      ensures forall h: nat | h < |abs.place| ::
                abs.place[h] == if old(abs).place[h] == InCache(t) then InPool else old(abs).place[h]
      ensures var m := old(abs);
              && abs.allocs == m.allocs + m.locals[t].allocs && abs.frees == m.frees + m.locals[t].frees
              && abs.bufCount == m.bufCount + |m.locals[t].cache|
      ensures abs.gone == (destroy && W32(abs.bufCount) >= |abs.hdrs|)
    {
      ghost var s := abs;
      BeginsFlush(spec, abs, Mem(), t, destroy);
      ReadsCache(spec, abs, Mem(), t);
      abs := SetPc(abs, t, Flush(0, destroy));
      run := [Taken(OpFlush(t, destroy), abs)];
      var count;
      count, run := FlushAll(t, own[t].head, destroy, s, run);
      ghost var m := abs;
      run := FlushEnd(t, count, destroy, s, run);
      EmptyCache(spec, abs, Mem(), t);
      FlushCompletes(s, m, abs, t, count, destroy);
    }

    /** The end of flush_cache, and the test of odp_pool_destroy. */
    method SettleCounts(t: nat, count: nat, destroy: bool)
      requires IsSpec(spec) && Valid(t) && abs.pcs[t] == Flush(count, destroy) && t < |at| && at[t] == None
      modifies `allocs, `frees, `own, `gone, `abs
      ensures old(abs).locals[t].cache == [] && Sized(old(abs))
      ensures spec.sound(abs, Mem()) && Sized(abs) && abs == StepFlush(old(abs), t)
      ensures Does(spec.next, old(abs), OpFlushStep(t), abs)
    {
      ReadsCache(spec, abs, Mem(), t);
      EndsFlush(spec, abs, Mem(), t);
      AddUp(t, count, destroy);
      abs := StepFlush(abs, t);
    }

    method AddUp(t: nat, count: nat, destroy: bool)
      requires t < |own|
      modifies `allocs, `frees, `own, `gone
      ensures Mem() == Settle(old(Mem()), t, count, destroy)
    {
      allocs := allocs + own[t].allocs;
      frees := frees + (own[t].frees - count);
      own := own[t := Cache(None, 0, 0)];
      gone := destroy && W32(bufCount) >= |hdrs|;
    }

    method FlushEnd(t: nat, count: nat, destroy: bool, ghost s: State, ghost sofar: Run) returns (ghost run: Run)
      requires IsSpec(spec) && Valid(t) && Steps(spec.next, s, sofar, abs)
      requires abs.pcs[t] == Flush(count, destroy) && t < |at| && at[t] == None
      modifies `allocs, `frees, `own, `gone, `abs
      ensures spec.sound(abs, Mem()) && Sized(abs) && Steps(spec.next, s, run, abs)
      ensures var m := old(abs);
              && m.locals[t].cache == []
              && abs == m.(allocs := m.allocs + m.locals[t].allocs, frees := m.frees + (m.locals[t].frees - count),
                           locals := m.locals[t := Local([], 0, 0)], pcs := m.pcs[t := Idle],
                           gone := destroy && W32(m.bufCount) >= |m.hdrs|)
    {
      ghost var m := abs;
      SettleCounts(t, count, destroy);
      Goes(spec, s, sofar, m, OpFlushStep(t), abs);
      run := sofar + [Taken(OpFlushStep(t), abs)];
    }

    /**
     odp_pool_destroy: 0 exactly if the counter, with the calling thread's own cache, shows every header. While no
     other thread is between unlock and count, that is if every header is in the pool or in that cache.
     */
    method Destroy(t: nat) returns (ret: int, ghost run: Run)
      requires IsSpec(spec) && Valid(t) && abs.pcs[t] == Idle
      modifies this
      ensures spec.sound(abs, Mem()) && Steps(spec.next, old(abs), run, abs)
      ensures (ret == 0 || ret == -1) && (abs.gone <==> ret == 0)
      ensures ret == 0 <==> W32(old(abs).bufCount + |old(abs).locals[t].cache|) >= |old(abs).hdrs|
      ensures Between(old(abs).pcs, |old(abs).pcs|) == 0 ==>
                (ret == 0 <==> forall h: nat | h < |old(abs).place| ::
                                 old(abs).place[h] == InPool || old(abs).place[h] == InCache(t))
    {
      run := FlushCache(t, true);
      Reads(spec, abs, Mem());
      Balanced(spec, abs, Mem());
      ret := if gone then 0 else -1;
    }
  }

  /** What a flush has done when its counts are settled. */
  lemma FlushCompletes(s: State, m: State, s': State, t: nat, count: nat, destroy: bool)
    requires t < |s.pcs| && s.pcs[t] == Idle && t < |s.locals| && t < |m.locals| && m.locals[t].cache == []
    requires FlushedSoFar(s, m, t, count, destroy)
    requires s' == m.(allocs := m.allocs + m.locals[t].allocs, frees := m.frees + (m.locals[t].frees - count),
                      locals := m.locals[t := Local([], 0, 0)], pcs := m.pcs[t := Idle], gone := s'.gone)
    requires forall h: nat | h < |s'.place| :: s'.place[h] != InCache(t)
    ensures s'.pcs == s.pcs && |s'.place| == |s.place|
    ensures forall h: nat | h < |s'.place| :: s'.place[h] == if s.place[h] == InCache(t) then InPool else s.place[h]
    ensures s'.allocs == s.allocs + s.locals[t].allocs && s'.frees == s.frees + s.locals[t].frees
    ensures s'.bufCount == s.bufCount + |s.locals[t].cache|
  {
    SetTwice(s.pcs, t, Flush(count, destroy), Idle);
    assert s.pcs[t := Idle] == s.pcs;
  }

  /** A thread whose cache is empty has no header in it. */
  lemma EmptyCache(spec: Spec, s: State, m: Memory, t: nat)
    requires IsSpec(spec) && spec.sound(s, m) && t < |s.locals| && s.locals[t].cache == []
    ensures forall h: nat | h < |s.place| :: s.place[h] != InCache(t)
  {
    assert Sound(s, m);
    CachedOf(s, t);
  }

  /** While counts and lists agree, the counter shows whether all headers are in the pool. */
  lemma Balanced(spec: Spec, s: State, m: Memory)
    requires IsSpec(spec) && spec.sound(s, m)
    ensures Between(s.pcs, |s.pcs|) == 0 ==>
              (W32(s.bufCount) >= |s.hdrs| <==> forall h: nat | h < |s.place| :: s.place[h] == InPool)
  {
    assert Sound(s, m);
    AllInPool(s);
    PartitionCount(s);
  }

  /** The lists of a new pool: the last entry is pushed first. */
  method LinkAscending(n: nat) returns (next: seq<Option<nat>>, head: Option<nat>)
    ensures |next| == n && ListAt(next, head, Upto(n))
  {
    next, head := seq(n, _ => None), None;
    ghost var list := [];
    var i := n;
    while i > 0
      invariant 0 <= i <= n && |next| == n && list == Upto(n)[i..] && ListAt(next, head, list)
    {
      i := i - 1;
      ListPush(next, head, list, i);
      next := next[i := head];
      head := Some(i);
      list := [i] + list;
    }
  }

  /** The last block of an array is pushed on a list. */
  lemma MoveLast(addr: seq<nat>, list: seq<nat>)
    requires addr != []
    ensures addr[..|addr| - 1] + ([addr[|addr| - 1]] + list) == addr + list
  {}

  lemma MovedTwice(s: State, m: State, s': State, t: nat)
    requires MovedToPool(s, m, t) && MovedToPool(m, s', t)
    ensures MovedToPool(s, s', t)
  {}

  lemma HandedAfter(s: State, m: State, s': State, buf: Option<nat>, tot: nat)
    requires AllKept(s, m) && if buf != None then Handed(m, s', buf.value, tot) else AllKept(m, s')
    ensures if buf != None then Handed(s, s', buf.value, tot) else AllKept(s, s')
  {}
}
