/**
 The ring object with its 32-bit fields and the single-producer, single-consumer operations on it. They are
 proved against a bounded first-in first-out queue; RingProtocol covers calls that overlap in time.
 */
module Ring {
  import opened Words
  import opened RingCopy
  import opened RingProtocol

  const ENOBUFS := 105
  const ENOENT := 2
  const EDQUOT := 122
  const QUOT_EXCEED: int := 0x8000_0000
  const RING_SZ_MASK := 0x0FFF_FFFF

  /** The contents seen through a 32-bit index: storing behind them appends. */
  lemma StoreAppends<T>(ring: seq<T>, consTail: nat, used: nat, items: seq<T>)
    requires IsPow2(|ring|) && |ring| <= TWO32 && used + |items| < |ring|
    ensures var ring' := Stored(ring, W32(consTail + used), items);
            Loaded(ring', consTail, used + |items|) == Loaded(ring, consTail, used) + items
  {
    var size := |ring|;
    var head := W32(consTail + used);
    var ring' := Stored(ring, head, items);
    MaskOfWrapped(consTail + used, size);
    forall i | 0 <= i < used + |items|
      ensures ring'[(consTail + i) % size] == (Loaded(ring, consTail, used) + items)[i]
    {
      SlotCases(size, consTail, i);
      SlotCases(size, consTail, used);
      OffsetCases(size, head, (consTail + i) % size);
    }
  }

  lemma SlotShift(size: nat, tail: nat, n: nat, i: nat)
    requires IsPow2(size) && size <= TWO32 && n <= i < size
    ensures (tail + i) % size == (W32(tail + n) + (i - n)) % size
  {
    MaskOfWrapped(tail + n, size);
    SlotCases(size, tail, i);
    SlotCases(size, tail, n);
    SlotCases(size, W32(tail + n), i - n);
  }

  /** Advancing the 32-bit tail drops the first n items. */
  lemma LoadedSplit<T>(ring: seq<T>, consTail: nat, n: nat, used: nat)
    requires IsPow2(|ring|) && |ring| <= TWO32 && n <= used < |ring|
    ensures Loaded(ring, consTail, used) == Loaded(ring, consTail, n) + Loaded(ring, W32(consTail + n), used - n)
  {
    var all, front, back :=
      Loaded(ring, consTail, used), Loaded(ring, consTail, n), Loaded(ring, W32(consTail + n), used - n);
    forall i | n <= i < used ensures all[i] == back[i - n] {
      SlotShift(|ring|, consTail, n, i);
    }
  }

  /** The room, computed by 32-bit subtraction. */
  method FreeEntries32(mask: nat, head: nat, tail: nat) returns (free: nat)
    requires W32(head - tail) <= mask < TWO32
    ensures free == mask - W32(head - tail)
  {
    free := W32(mask + tail - head);
  }

  /** The watermark test, computed in 32 bits. */
  method Exceeds(mask: nat, free: nat, m: nat, watermark: nat) returns (over: bool)
    requires m <= free <= mask <= 0x0FFF_FFFF
    ensures over <==> mask - free + m >= watermark
  {
    over := W32(mask + 1 - free + m) > watermark;
  }

  class RingBuffer {
    const ring: array<Ptr>
    var watermark: nat
    var prodHead: nat
    var prodTail: nat
    var consHead: nat
    var consTail: nat

    function Used(): nat
      reads this
    {
      W32(prodTail - consTail)
    }

    ghost predicate Valid()
      reads this
    {
      && IsPow2(ring.Length) && ring.Length <= 0x0FFF_FFFF
      && prodHead < TWO32 && consHead < TWO32
      && prodHead == prodTail && consHead == consTail
      && Used() < ring.Length
    }

    ghost function Contents(): (q: seq<Ptr>)
      requires Valid()
      reads this, ring
    {
      Loaded(ring[..], consTail, Used())
    }

    /** The ring that odph_ring_create sets up once the size has passed its test. */
    constructor (count: nat)
      requires IsPow2(count) && count <= 0x0FFF_FFFF
      ensures Valid() && Contents() == [] && ring.Length == count && watermark == count && fresh(ring)
    {
      ring := new Ptr[count];
      watermark := count;
      prodHead, prodTail, consHead, consTail := 0, 0, 0, 0;
    }

    method SetWaterMark(count: nat) returns (ok: bool)
      requires Valid()
      modifies this`watermark
      ensures ok == (count < ring.Length)
      ensures watermark == if !ok then old(watermark) else if count == 0 then ring.Length else count
    {
      if count >= ring.Length {
        return false;
      }
      watermark := if count == 0 then ring.Length else count;
      return true;
    }

    /**
     Appends a prefix of the table: all n items if they fit; otherwise none, or in a burst so many that the ring is
     full. The return code says how many, or why none, and the quota flag that the queue now holds at least
     `watermark` items; a burst that finds no room does not look at the watermark.
     */
    method SpEnqueue(objTable: array<Ptr>, n: nat, mode: Mode) returns (ret: int)
      requires Valid() && n <= objTable.Length && n < TWO32 && objTable != ring
      modifies this`prodHead, this`prodTail, ring
      ensures Valid()
      ensures var full := ring.Length - 1;
              var took := |Contents()| - |old(Contents())|;
              && 0 <= took <= n && Contents() == old(Contents()) + objTable[..took]
              && (|old(Contents())| + n <= full ==> took == n)
              && (|old(Contents())| + n > full ==> if mode.Fixed? then took == 0 else |Contents()| == full)
      ensures var room := ring.Length - 1 - |old(Contents())|;
              var over := |Contents()| >= watermark;
              ret == match mode
                     case Fixed => if n > room then -ENOBUFS else if over then -EDQUOT else 0
                     case Variable =>
                       var took := |Contents()| - |old(Contents())|;
                       if over && (took > 0 || n == 0) then took - QUOT_EXCEED else took
    {
      var mask := ring.Length - 1;
      var head, tail := prodHead, consTail;
      var free := FreeEntries32(mask, head, tail);
      var m := n;
      if n > free {
        if mode.Fixed? {
          return -ENOBUFS;
        }
        if free == 0 {
          return 0;
        }
        m := free;
      }
      Append(objTable, m);
      var over := Exceeds(mask, free, m, watermark);
      ret := if over then (if mode.Fixed? then -EDQUOT else m - QUOT_EXCEED) else if mode.Fixed? then 0 else m;
    }

    /** The part of an enqueue that changes the ring: reserve, copy, publish. */
    method Append(objTable: array<Ptr>, m: nat)
      requires Valid() && m <= objTable.Length && Used() + m < ring.Length && objTable != ring
      modifies this`prodHead, this`prodTail, ring
      ensures Valid() && Contents() == old(Contents()) + objTable[..m]
    {
      var head, tail := prodHead, consTail;
      var next := W32(head + m);
      prodHead := next;
      EnqueuePtrs(ring, objTable, head, m);
      prodTail := next;
      Advance32(head, tail, m);
      StoreAppends(old(ring[..]), tail, old(Used()), objTable[..m]);
    }

    /** Removes a prefix of the queue into the table: n items; if there are fewer none, or in a burst all of them. */
    method ScDequeue(objTable: array<Ptr>, n: nat, mode: Mode) returns (ret: int)
      requires Valid() && n <= objTable.Length && n < TWO32 && objTable != ring
      modifies this`consHead, this`consTail, objTable
      ensures Valid()
      ensures var took := |old(Contents())| - |Contents()|;
              && 0 <= took <= n && old(Contents()) == objTable[..took] + Contents()
              && objTable[took..] == old(objTable[..])[took..]
              && (n <= |old(Contents())| ==> took == n)
              && (n > |old(Contents())| ==> if mode.Fixed? then took == 0 else Contents() == [])
              && ret == if mode.Variable? then took else if n > |old(Contents())| then -ENOENT else 0
    {
      var head: int, tail: int := consHead, prodTail;
      var entries := W32(tail - head);
      var m := n;
      if n > entries {
        if mode.Fixed? {
          return -ENOENT;
        }
        if entries == 0 {
          return 0;
        }
        m := entries;
      }
      var next := W32(head + m);
      consHead := next;
      DequeuePtrs(ring, objTable, head, m);
      assert Used() == entries;
      LoadedSplit(ring[..], head, m, entries);
      consTail := next;
      assert Used() == entries - m by { Retreat32(head, tail, m); }
      return if mode.Fixed? then 0 else m;
    }
  }

  /** odph_ring_create: refused unless the size is a power of two within the limit. */
  method Create(count: nat) returns (r: RingBuffer?)
    requires 0 < count < TWO32
    ensures r != null <==> IsPow2(count) && count <= RING_SZ_MASK
    ensures r != null ==>
              fresh(r) && r.Valid() && r.Contents() == [] && r.ring.Length == count && r.watermark == count
  {
    PowerOfTwoTest(count);
    if BitAnd(W32(count - 1), count) != 0 || count > RING_SZ_MASK {
      return null;
    }
    r := new RingBuffer(count);
  }

  lemma Advance32(head: nat, tail: nat, m: nat)
    requires head < TWO32 && tail < TWO32 && W32(head - tail) + m < TWO32
    ensures head == W32(tail + W32(head - tail))
    ensures W32(W32(head + m) - tail) == W32(head - tail) + m
  {}

  lemma Retreat32(head: nat, tail: nat, m: nat)
    requires head < TWO32 && tail < TWO32 && m <= W32(tail - head)
    ensures W32(tail - W32(head + m)) == W32(tail - head) - m
  {}
}
