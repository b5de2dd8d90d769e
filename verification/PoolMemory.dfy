/**
 How the lists of the buffer pool lie in memory: linked through the headers and blocks themselves. One link per header
 serves the pool's list and the caches of all threads; every primitive keeps the links and the lists in step.
 */
module PoolMemory {
  import opened LinkedLists
  import opened Options
  import opened PoolModel
  import opened Runs
  import opened Words

  /** local_cache_t. */
  datatype Cache = Cache(head: Option<nat>, allocs: nat, frees: nat)

  /** In flush_cache, which takes the headers of a cache that still names the first of them. */
  predicate Flushing(pc: Pc) {
    pc.Flush? || (pc.Return? && pc.after.Flushed?) || (pc.Pushed? && pc.after.Flushed?)
  }

  /** A thread's cache: its list starts at `at`, which is where the cache points unless it is being flushed. */
  predicate Tied(next: seq<Option<nat>>, at: Option<nat>, own: Cache, l: Local, pc: Pc) {
    && ListAt(next, at, l.cache) && own.allocs == l.allocs && own.frees == l.frees
    && (!Flushing(pc) ==> at == own.head)
  }

  /** No list has header h. */
  ghost predicate Unlisted(s: State, h: nat) {
    h !in s.bufFree && forall u: nat | u < |s.locals| :: h !in s.locals[u].cache
  }

  lemma InNoList(s: State, h: nat)
    requires Inv(s) && h < |s.hdrs| && (s.place[h].Hand? || s.place[h] == Allocated)
    ensures Unlisted(s, h)
  {
    forall u: nat | u < |s.locals| ensures h !in s.locals[u].cache {
      assert ThreadOk(s, u);
    }
  }

  /** The fields of the pool, with the header at which the list of each thread's cache starts. */
  datatype Memory = Memory(
    cfg: Config, hdrs: seq<Hdr>, next: seq<Option<nat>>, bufHead: Option<nat>, blkNext: seq<Option<nat>>,
    blkHead: Option<nat>, bufCount: int, allocs: int, frees: int, lowWmAssert: bool, own: seq<Cache>, gone: bool,
    at: seq<Option<nat>>)

  /** The links give the lists of the state. */
  ghost predicate Linked(s: State, m: Memory) {
    && |m.next| == |s.hdrs| && ListAt(m.next, m.bufHead, s.bufFree)
    && |m.blkNext| == |s.owner| && ListAt(m.blkNext, m.blkHead, s.blkFree)
    && |m.own| == |m.at| == |s.locals| == |s.pcs|
    && forall u: nat | u < |m.own| :: Tied(m.next, m.at[u], m.own[u], s.locals[u], s.pcs[u])
  }

  /** The other fields are those of the state. */
  predicate Plain(s: State, m: Memory) {
    && m.cfg == s.cfg && m.hdrs == s.hdrs && m.bufCount == s.bufCount && m.allocs == s.allocs && m.frees == s.frees
    && m.lowWmAssert == s.lowWmAssert && m.gone == s.gone
  }

  ghost predicate Sound(s: State, m: Memory) {
    Inv(s) && Plain(s, m) && Linked(s, m)
  }

  /**
   The step relation and the invariant as values. Code that is proved against a specification needs to know only that
   they are what they are; the verifier unfolds them in the lemmas of this module, and not in the code.
   */
  datatype Spec = Spec(next: Relation<Op, State>, sound: (State, Memory) -> bool)

  ghost predicate IsSpec(spec: Spec) {
    && IsMachine(spec.next, Next)
    && forall s, m {:trigger Sound(s, m)} :: spec.sound(s, m) <==> Sound(s, m)
  }

  // ---- What the fields are

  lemma Reads(spec: Spec, s: State, m: Memory)
    requires IsSpec(spec) && spec.sound(s, m)
    ensures Sized(s) && Plain(s, m)
    ensures |m.next| == |s.hdrs| && |m.own| == |m.at| == |s.locals| && |m.blkNext| == |s.owner|
  {
    assert Sound(s, m);
  }

  lemma ReadsBlocks(spec: Spec, s: State, m: Memory)
    requires IsSpec(spec) && spec.sound(s, m)
    ensures ListAt(m.blkNext, m.blkHead, s.blkFree) && |m.blkNext| == |s.owner|
    ensures s.blkFree != [] ==> s.blkFree[0] < |s.owner|
  {
    assert Sound(s, m);
  }

  function FirstOf(list: seq<nat>): Option<nat> {
    if list == [] then None else Some(list[0])
  }

  lemma ReadsPool(spec: Spec, s: State, m: Memory)
    requires IsSpec(spec) && spec.sound(s, m)
    ensures m.bufHead == FirstOf(s.bufFree) && |m.next| == |s.hdrs| == |s.place|
    ensures s.bufFree != [] ==> s.bufFree[0] < |s.hdrs| && s.place[s.bufFree[0]] == InPool
  {
    assert Sound(s, m);
  }

  lemma ReadsCache(spec: Spec, s: State, m: Memory, t: nat)
    requires IsSpec(spec) && spec.sound(s, m) && t < |s.pcs|
    ensures |m.own| == |m.at| == |s.locals| == |s.pcs| && |m.next| == |s.hdrs| == |s.place|
    ensures m.at[t] == FirstOf(s.locals[t].cache) && (!Flushing(s.pcs[t]) ==> m.own[t].head == m.at[t])
    ensures m.own[t].allocs == s.locals[t].allocs && m.own[t].frees == s.locals[t].frees
    ensures var cache := s.locals[t].cache;
            cache != [] ==> cache[0] < |s.hdrs| && s.place[cache[0]] == InCache(t)
  {
    assert Sound(s, m) && ThreadOk(s, t);
    assert Tied(m.next, m.at[t], m.own[t], s.locals[t], s.pcs[t]);
  }

  // ---- Every primitive

  /** A step that touches no list. */
  lemma LinkedGoto(s: State, m: Memory, s': State, m': Memory, t: nat)
    requires Linked(s, m) && t < |s.pcs| == |s'.pcs| && |s'.hdrs| == |s.hdrs| && |s'.owner| == |s.owner|
    requires s'.pcs == s.pcs[t := s'.pcs[t]] && (Flushing(s'.pcs[t]) || !Flushing(s.pcs[t]))
    requires s'.locals == s.locals && s'.bufFree == s.bufFree && s'.blkFree == s.blkFree
    requires m' == m.(bufCount := m'.bufCount, allocs := m'.allocs, lowWmAssert := m'.lowWmAssert)
    ensures Linked(s', m')
  {}

  lemma CountsGet(spec: Spec, s: State, m: Memory, t: nat)
    requires IsSpec(spec) && spec.sound(s, m) && Enabled(s, OpCountGet(t))
    ensures Sized(s) && s.pcs[t].h < |s.hdrs|
    ensures var s', low := StepCountGet(s, t), m.lowWmAssert || W32(m.bufCount - 1) == m.cfg.lowWm;
            && spec.sound(s', m.(bufCount := m.bufCount - 1, allocs := m.allocs + 1, lowWmAssert := low))
            && Does(spec.next, s, OpCountGet(t), s')
  {
    assert Sound(s, m);
    InvCountGet(s, t);
    var s', low := StepCountGet(s, t), m.lowWmAssert || W32(m.bufCount - 1) == m.cfg.lowWm;
    var m' := m.(bufCount := m.bufCount - 1, allocs := m.allocs + 1, lowWmAssert := low);
    LinkedGoto(s, m, s', m', t);
    NextDoes(spec.next, Next, s, OpCountGet(t), s');
    assert Sound(s', m');
  }

  lemma PopsHeader(spec: Spec, s: State, m: Memory, t: nat)
    requires IsSpec(spec) && spec.sound(s, m) && Enabled(s, OpGetBuf(t))
    ensures Sized(s) && |m.next| == |s.hdrs| && (s.bufFree != [] ==> s.bufFree[0] < |s.hdrs|)
    ensures var s' := StepGetBuf(s, t);
            && spec.sound(s', m.(bufHead := if s.bufFree == [] then None else m.next[s.bufFree[0]]))
            && Does(spec.next, s, OpGetBuf(t), s')
  {
    assert Sound(s, m);
    InvGetBuf(s, t);
    var s', m' := StepGetBuf(s, t), m.(bufHead := if s.bufFree == [] then None else m.next[s.bufFree[0]]);
    NextDoes(spec.next, Next, s, OpGetBuf(t), s');
    assert Linked(s', m');
    assert Sound(s', m');
  }

  /** The memory after a round of attaching at pc, with the list of blocks from blkHead on. */
  function WithBlock(m: Memory, t: nat, pc: Pc, blk: Option<nat>, blkHead: Option<nat>): Memory
    requires t < |m.own| && pc.Attach? && pc.h < |m.hdrs|
  {
    if blk == None then m.(blkHead := blkHead)
    else
      var addr := m.hdrs[pc.h].addr + [blk.value];
      if pc.needed - m.cfg.segSize > 0 then
        m.(blkHead := blkHead, hdrs := m.hdrs[pc.h := m.hdrs[pc.h].(addr := addr)])
      else
        m.(blkHead := blkHead, hdrs := m.hdrs[pc.h := Hdr(addr, |addr| * m.cfg.segSize)],
           own := if pc.cached then m.own[t := m.own[t].(allocs := m.own[t].allocs + 1)] else m.own)
  }

  lemma GetsBlock(spec: Spec, s: State, m: Memory, t: nat, blkHead: Option<nat>)
    requires IsSpec(spec) && spec.sound(s, m) && Enabled(s, OpGetBlk(t)) && t < |m.own|
    requires ListAt(m.blkNext, blkHead, if s.blkFree == [] then [] else s.blkFree[1..])
    ensures Sized(s) && s.pcs[t].h < |s.hdrs| == |m.hdrs| && (s.blkFree != [] ==> s.blkFree[0] < |s.owner|)
    ensures var s' := StepGetBlk(s, t);
            && spec.sound(s', WithBlock(m, t, s.pcs[t], FirstOf(s.blkFree), blkHead))
            && Does(spec.next, s, OpGetBlk(t), s')
  {
    assert Sound(s, m);
    InvGetBlk(s, t);
    var s' := StepGetBlk(s, t);
    NextDoes(spec.next, Next, s, OpGetBlk(t), s');
    var m' := WithBlock(m, t, s.pcs[t], FirstOf(s.blkFree), blkHead);
    LinkedGetBlk(s, m, t, m');
    PlainGetBlk(s, m, t, blkHead);
    assert Sound(s', m');
  }

  lemma LinkedGetBlk(s: State, m: Memory, t: nat, m': Memory)
    requires Sized(s) && Linked(s, m) && t < |s.pcs| && s.pcs[t].Attach? && s.pcs[t].h < |s.hdrs|
    requires s.blkFree != [] ==> s.blkFree[0] < |s.owner|
    requires m'.next == m.next && m'.bufHead == m.bufHead && m'.blkNext == m.blkNext && m'.at == m.at
    requires ListAt(m.blkNext, m'.blkHead, if s.blkFree == [] then [] else s.blkFree[1..])
    requires m'.own == if StepGetBlk(s, t).pcs[t] == Idle && s.pcs[t].cached
                       then m.own[t := m.own[t].(allocs := m.own[t].allocs + 1)] else m.own
    ensures Linked(StepGetBlk(s, t), m')
  {
    var s' := StepGetBlk(s, t);
    forall u: nat | u < |m'.own| ensures Tied(m'.next, m'.at[u], m'.own[u], s'.locals[u], s'.pcs[u]) {
      assert Tied(m.next, m.at[u], m.own[u], s.locals[u], s.pcs[u]);
    }
  }

  lemma PlainGetBlk(s: State, m: Memory, t: nat, blkHead: Option<nat>)
    requires Sized(s) && Plain(s, m) && t < |s.pcs| && t < |m.own| && s.pcs[t].Attach? && s.pcs[t].h < |s.hdrs|
    requires s.blkFree != [] ==> s.blkFree[0] < |s.owner|
    ensures Plain(StepGetBlk(s, t), WithBlock(m, t, s.pcs[t], FirstOf(s.blkFree), blkHead))
  {}

  /** The block ret_buf returns next is in no list. */
  lemma LastBlock(spec: Spec, s: State, m: Memory, t: nat)
    requires IsSpec(spec) && spec.sound(s, m) && Enabled(s, OpRetBlk(t))
    ensures var addr := s.hdrs[s.pcs[t].h].addr; addr[|addr| - 1] < |s.owner| && addr[|addr| - 1] !in s.blkFree
  {
    assert Sound(s, m);
    assert AddrOk(s, s.pcs[t].h);
  }

  lemma ReturnsBlock(spec: Spec, s: State, m: Memory, t: nat, blkNext: seq<Option<nat>>, blkHead: Option<nat>)
    requires IsSpec(spec) && spec.sound(s, m) && Enabled(s, OpRetBlk(t)) && |blkNext| == |s.owner|
    requires var addr := s.hdrs[s.pcs[t].h].addr; ListAt(blkNext, blkHead, [addr[|addr| - 1]] + s.blkFree)
    ensures Sized(s) && var addr := s.hdrs[s.pcs[t].h].addr; addr[|addr| - 1] < |s.owner|
    ensures var s' := StepRetBlk(s, t);
            && spec.sound(s', m.(hdrs := s'.hdrs, blkNext := blkNext, blkHead := blkHead))
            && Does(spec.next, s, OpRetBlk(t), s')
  {
    assert Sound(s, m);
    InvRetBlk(s, t);
    var s' := StepRetBlk(s, t);
    NextDoes(spec.next, Next, s, OpRetBlk(t), s');
    assert Linked(s', m.(hdrs := s'.hdrs, blkNext := blkNext, blkHead := blkHead));
    assert Sound(s', m.(hdrs := s'.hdrs, blkNext := blkNext, blkHead := blkHead));
  }

  /** The memory after a header was pushed on the pool's list. */
  function WithHeader(m: Memory, h: nat, hdrs: seq<Hdr>): Memory
    requires h < |m.next|
  {
    m.(hdrs := hdrs, next := m.next[h := m.bufHead], bufHead := Some(h))
  }

  lemma PushesHeader(spec: Spec, s: State, m: Memory, t: nat)
    requires IsSpec(spec) && spec.sound(s, m) && Enabled(s, OpRetBuf(t))
    ensures Sized(s) && |m.next| == |s.hdrs|
    ensures var s' := StepRetBuf(s, t);
            spec.sound(s', WithHeader(m, s.pcs[t].h, s'.hdrs)) && Does(spec.next, s, OpRetBuf(t), s')
  {
    assert Sound(s, m);
    assert ThreadOk(s, t);
    InvRetBuf(s, t);
    var s' := StepRetBuf(s, t);
    NextDoes(spec.next, Next, s, OpRetBuf(t), s');
    InNoList(s, s.pcs[t].h);
    LinkedRetBuf(s, m, t);
    assert Sound(s', WithHeader(m, s.pcs[t].h, s'.hdrs));
  }

  lemma LinkedRetBuf(s: State, m: Memory, t: nat)
    requires Sized(s) && Linked(s, m) && t < |s.pcs| && s.pcs[t].Return? && s.pcs[t].h < |s.hdrs|
    requires Unlisted(s, s.pcs[t].h)
    ensures var s' := StepRetBuf(s, t); Linked(s', WithHeader(m, s.pcs[t].h, s'.hdrs))
  {
    var s', h := StepRetBuf(s, t), s.pcs[t].h;
    var m' := WithHeader(m, h, s'.hdrs);
    ListPush(m.next, m.bufHead, s.bufFree, h);
    forall u: nat | u < |m'.own| ensures Tied(m'.next, m'.at[u], m'.own[u], s'.locals[u], s'.pcs[u]) {
      ListKept(m.next, m.at[u], s.locals[u].cache, h, m.bufHead);
    }
  }

  /** The memory after the count of a returned header; a failed refill takes the thread's own count down. */
  function WithReturned(m: Memory, t: nat, refill: bool): Memory
    requires t < |m.own| && (refill ==> m.own[t].frees > 0)
  {
    m.(bufCount := m.bufCount + 1, frees := m.frees + 1,
       lowWmAssert := m.lowWmAssert && W32(m.bufCount + 1) != m.cfg.highWm,
       own := if refill then m.own[t := m.own[t].(frees := m.own[t].frees - 1)] else m.own)
  }

  lemma CountsReturned(spec: Spec, s: State, m: Memory, t: nat)
    requires IsSpec(spec) && spec.sound(s, m) && Enabled(s, OpCountRet(t))
    ensures Sized(s) && t < |m.own|
    ensures s.pcs[t].after.RefillFailed? ==> s.locals[t].frees > 0 && m.own[t].frees > 0
    ensures var s', refill := StepCountRet(s, t), s.pcs[t].after.RefillFailed?;
            spec.sound(s', WithReturned(m, t, refill)) && Does(spec.next, s, OpCountRet(t), s')
  {
    assert Sound(s, m);
    InvCountRet(s, t);
    assert Tied(m.next, m.at[t], m.own[t], s.locals[t], s.pcs[t]);
    var s', m' := StepCountRet(s, t), WithReturned(m, t, s.pcs[t].after.RefillFailed?);
    NextDoes(spec.next, Next, s, OpCountRet(t), s');
    assert Linked(s', m');
    assert Sound(s', m');
  }

  /** The memory after the first header was taken from a cache, with or without counting that. */
  function Shorter(m: Memory, t: nat, h: nat, counted: bool): Memory
    requires t < |m.own| == |m.at| && h < |m.next|
  {
    var o := m.own[t].(head := m.next[h], allocs := if counted then m.own[t].allocs + 1 else m.own[t].allocs);
    m.(own := m.own[t := o], at := m.at[t := m.next[h]])
  }

  lemma TakesCached(spec: Spec, s: State, m: Memory, t: nat, size: nat)
    requires IsSpec(spec) && spec.sound(s, m) && Enabled(s, OpAlloc(t, size))
    ensures Sized(s) && t < |m.own| == |m.at| && |m.next| == |s.hdrs|
    ensures s.locals[t].cache != [] ==> s.locals[t].cache[0] < |s.hdrs|
    ensures var s', tot, cache := StepAlloc(s, t, size), s.cfg.headroom + size + s.cfg.tailroom, s.locals[t].cache;
            && Does(spec.next, s, OpAlloc(t, size), s')
            && spec.sound(s', if TooBig(s.cfg, tot) || cache == [] then m
                              else Shorter(m, t, cache[0], s.hdrs[cache[0]].size >= tot))
  {
    assert Sound(s, m);
    InvAlloc(s, t, size);
    var s', tot, cache := StepAlloc(s, t, size), s.cfg.headroom + size + s.cfg.tailroom, s.locals[t].cache;
    NextDoes(spec.next, Next, s, OpAlloc(t, size), s');
    var m' := if TooBig(s.cfg, tot) || cache == [] then m else Shorter(m, t, cache[0], s.hdrs[cache[0]].size >= tot);
    assert Linked(s', m');
    assert Sound(s', m');
  }

  /** The memory after a header was added to a cache. */
  function Longer(m: Memory, t: nat, h: nat): Memory
    requires t < |m.own| == |m.at| && h < |m.next|
  {
    m.(next := m.next[h := m.own[t].head],
       own := m.own[t := m.own[t].(head := Some(h), frees := m.own[t].frees + 1)], at := m.at[t := Some(h)])
  }

  lemma Frees(spec: Spec, s: State, m: Memory, t: nat, h: nat)
    requires IsSpec(spec) && spec.sound(s, m) && Enabled(s, OpFree(t, h))
    ensures Sized(s) && t < |m.own| == |m.at| && h < |m.next|
    ensures var s' := StepFree(s, t, h);
            && Does(spec.next, s, OpFree(t, h), s')
            && spec.sound(s', if s.lowWmAssert then m else Longer(m, t, h))
  {
    assert Sound(s, m);
    InvFree(s, t, h);
    var s' := StepFree(s, t, h);
    NextDoes(spec.next, Next, s, OpFree(t, h), s');
    if s.lowWmAssert {
      LinkedGoto(s, m, s', m, t);
      assert Sound(s', m);
    } else {
      InNoList(s, h);
      LinkedFree(s, m, t, h);
      assert Sound(s', Longer(m, t, h));
    }
  }

  lemma LinkedFree(s: State, m: Memory, t: nat, h: nat)
    requires Sized(s) && Linked(s, m) && t < |s.pcs| && h < |s.hdrs|
    requires s.pcs[t] == Idle && !s.lowWmAssert && Unlisted(s, h)
    ensures Linked(StepFree(s, t, h), Longer(m, t, h))
  {
    var s', m', link := StepFree(s, t, h), Longer(m, t, h), m.own[t].head;
    assert Tied(m.next, m.at[t], m.own[t], s.locals[t], s.pcs[t]);
    ListPush(m.next, link, s.locals[t].cache, h);
    ListKept(m.next, m.bufHead, s.bufFree, h, link);
    forall u: nat | u < |m'.own| ensures Tied(m'.next, m'.at[u], m'.own[u], s'.locals[u], s'.pcs[u]) {
      if u != t {
        ListKept(m.next, m.at[u], s.locals[u].cache, h, link);
      }
    }
  }

  lemma BeginsFlush(spec: Spec, s: State, m: Memory, t: nat, destroy: bool)
    requires IsSpec(spec) && spec.sound(s, m) && Enabled(s, OpFlush(t, destroy))
    ensures var s' := SetPc(s, t, Flush(0, destroy)); spec.sound(s', m) && Does(spec.next, s, OpFlush(t, destroy), s')
  {
    assert Sound(s, m);
    InvGoto(s, t, Flush(0, destroy));
    var s' := SetPc(s, t, Flush(0, destroy));
    NextDoes(spec.next, Next, s, OpFlush(t, destroy), s');
    LinkedGoto(s, m, s', m, t);
    assert Sound(s', m);
  }

  lemma FlushesFirst(spec: Spec, s: State, m: Memory, t: nat)
    requires IsSpec(spec) && spec.sound(s, m) && Enabled(s, OpFlushStep(t)) && s.locals[t].cache != []
    ensures Sized(s) && t < |m.at| && s.locals[t].cache[0] < |s.hdrs| == |m.next|
    ensures var s' := StepFlush(s, t);
            && spec.sound(s', m.(at := m.at[t := m.next[s.locals[t].cache[0]]]))
            && Does(spec.next, s, OpFlushStep(t), s')
  {
    assert Sound(s, m);
    InvFlush(s, t);
    var s', m' := StepFlush(s, t), m.(at := m.at[t := m.next[s.locals[t].cache[0]]]);
    NextDoes(spec.next, Next, s, OpFlushStep(t), s');
    assert Linked(s', m');
    assert Sound(s', m');
  }

  /** The memory at the end of flush_cache, with the counts added up. */
  function Settle(m: Memory, t: nat, count: nat, destroy: bool): Memory
    requires t < |m.own|
  {
    m.(allocs := m.allocs + m.own[t].allocs, frees := m.frees + (m.own[t].frees - count),
       own := m.own[t := Cache(None, 0, 0)], gone := destroy && W32(m.bufCount) >= |m.hdrs|)
  }

  lemma EndsFlush(spec: Spec, s: State, m: Memory, t: nat)
    requires IsSpec(spec) && spec.sound(s, m) && Enabled(s, OpFlushStep(t)) && s.locals[t].cache == []
    ensures Sized(s) && t < |m.own|
    ensures var s' := StepFlush(s, t);
            && spec.sound(s', Settle(m, t, s.pcs[t].n, s.pcs[t].destroy))
            && Does(spec.next, s, OpFlushStep(t), s')
  {
    assert Sound(s, m);
    InvFlush(s, t);
    var s', m' := StepFlush(s, t), Settle(m, t, s.pcs[t].n, s.pcs[t].destroy);
    NextDoes(spec.next, Next, s, OpFlushStep(t), s');
    assert Tied(m.next, m.at[t], m.own[t], s.locals[t], s.pcs[t]);
    assert Linked(s', m');
    assert Sound(s', m');
  }
}
