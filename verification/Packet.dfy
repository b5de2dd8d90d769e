/** Packets whose bytes lie in segments, and the loops that copy them segment by segment. */
module Packets {
  import opened Words

  type Byte = b: int | 0 <= b < 256

  /** Where a position lies, and how many bytes from there on are in the same segment and below the limit. */
  datatype Mapping = Mapping(index: nat, offset: nat, len: int)

  /** buffer_map. */
  function BufferMap(segSize: nat, offset: nat, limit: nat): (m: Mapping)
    requires 0 < segSize
    ensures m.index == offset / segSize && m.offset == offset % segSize
    ensures offset <= limit ==> m.offset + m.len <= segSize && 0 <= m.len <= limit - offset
    ensures offset <= limit ==> m.len == limit - offset || m.offset + m.len == segSize
    ensures offset < limit ==> m.len > 0
  {
    var (index, off) := if offset < segSize then (0, offset) else (offset / segSize, offset % segSize);
    var left := limit - offset;
    Mapping(index, off, if off + left <= segSize then left else segSize - off)
  }

  method Memcpy(dst: array<Byte>, d: nat, src: array<Byte>, s: nat, n: nat)
    requires dst != src && d + n <= dst.Length && s + n <= src.Length
    modifies dst
    ensures forall k | 0 <= k < dst.Length :: dst[k] == if d <= k < d + n then src[s + (k - d)] else old(dst[k])
  {
    var i := 0;
    while i < n
      invariant i <= n
      invariant forall k | 0 <= k < dst.Length :: dst[k] == if d <= k < d + i then src[s + (k - d)] else old(dst[k])
    {
      dst[d + i] := src[s + i];
      i := i + 1;
    }
  }

  // ---- The range checks are 32-bit sums

  /** The check offset + len > frame_len as the code computes it. */
  predicate Rejects(offset: nat, len: nat, frameLen: nat) {
    W32(offset + len) > frameLen
  }

  /** The sum wraps around, to a value that lies in the packet. */
  predicate WrapsToFit(offset: nat, len: nat, frameLen: nat) {
    offset + len >= TWO32 && offset + len - TWO32 <= frameLen
  }

  /** The check tells whether the range lies outside the data, if and only if the sum does not wrap to a fitting one. */
  lemma RangeCheckExact(offset: nat, len: nat, frameLen: nat)
    requires offset < TWO32 && len < TWO32 && frameLen < TWO32
    ensures (Rejects(offset, len, frameLen) <==> offset + len > frameLen) <==> !WrapsToFit(offset, len, frameLen)
  {
    assert offset + len >= TWO32 ==> W32(offset + len) == offset + len - TWO32;
  }

  /** A range far outside a packet of 8 bytes that is accepted. */
  lemma OutOfRangeAccepted()
    ensures !Rejects(4, TWO32 - 2, 8) && 4 + (TWO32 - 2) > 8
  {}

  /**
   What then happens, wherever the segments end: after the bytes up to the end of the data the copy loops still have
   bytes to go, and from there on every turn copies none.
   */
  lemma AcceptedNeverEnds(segSize: nat, headroom: nat, offset: nat, len: nat, frameLen: nat)
    requires 0 < segSize && offset <= frameLen < TWO32 && len < TWO32 && WrapsToFit(offset, len, frameLen)
    ensures !Rejects(offset, len, frameLen) && len - (frameLen - offset) > 0
    ensures BufferMap(segSize, headroom + frameLen, headroom + frameLen).len == 0
  {
    var end := headroom + frameLen;
    assert end % segSize + 0 <= segSize;
  }

  // ---- Replacing a stretch of a byte sequence

  /** The bytes written one after the other from position p on. */
  function Splice(b: seq<Byte>, p: nat, bytes: seq<Byte>): (r: seq<Byte>)
    requires p + |bytes| <= |b|
    ensures |r| == |b|
    decreases |bytes|
  {
    if bytes == [] then b else Splice(b[p := bytes[0]], p + 1, bytes[1..])
  }

  /** That is: the part before, the bytes, the part after. */
  lemma {:induction false} SpliceParts(b: seq<Byte>, p: nat, bytes: seq<Byte>)
    requires p + |bytes| <= |b|
    ensures Splice(b, p, bytes) == b[..p] + bytes + b[p + |bytes|..]
    decreases |bytes|
  {
    if bytes != [] {
      var b' := b[p := bytes[0]];
      SpliceParts(b', p + 1, bytes[1..]);
      assert b'[..p + 1] == b[..p] + [bytes[0]];
      assert b'[p + 1 + |bytes[1..]|..] == b[p + |bytes|..];
    }
  }

  lemma SpliceExtend(b: seq<Byte>, p: nat, x: seq<Byte>, y: seq<Byte>)
    requires p + |x| + |y| <= |b|
    ensures Splice(Splice(b, p, x), p + |x|, y) == Splice(b, p, x + y)
  {
    SpliceParts(b, p, x);
    SpliceParts(b, p, x + y);
    SpliceParts(Splice(b, p, x), p + |x|, y);
  }

  lemma SliceOfSlice(b: seq<Byte>, lo: nat, hi: nat, i: nat, j: nat)
    requires lo <= hi <= |b| && i <= j <= hi - lo
    ensures b[lo..hi][i..j] == b[lo + i..lo + j]
  {
    forall k | 0 <= k < j - i ensures b[lo..hi][i..j][k] == b[lo + i..lo + j][k] {}
  }

  lemma SpliceInside(b: seq<Byte>, lo: nat, hi: nat, p: nat, bytes: seq<Byte>)
    requires lo <= p && p + |bytes| <= hi <= |b|
    ensures Splice(b, p, bytes)[lo..hi] == Splice(b[lo..hi], p - lo, bytes)
  {
    var q := p + |bytes|;
    SpliceParts(b, p, bytes);
    SpliceParts(b[lo..hi], p - lo, bytes);
    SliceOfSlice(b, lo, hi, 0, p - lo);
    SliceOfSlice(b, lo, hi, q - lo, hi - lo);
    assert (b[..p] + bytes + b[q..])[lo..hi] == b[lo..p] + bytes + b[q..hi];
  }

  /** A stretch inside one part of a concatenation. */
  lemma SpliceLeft(a: seq<Byte>, b: seq<Byte>, p: nat, bytes: seq<Byte>)
    requires p + |bytes| <= |a|
    ensures Splice(a + b, p, bytes) == Splice(a, p, bytes) + b
  {
    SpliceParts(a + b, p, bytes);
    SpliceParts(a, p, bytes);
  }

  lemma SpliceRight(a: seq<Byte>, b: seq<Byte>, p: nat, bytes: seq<Byte>)
    requires p + |bytes| <= |b|
    ensures Splice(a + b, |a| + p, bytes) == a + Splice(b, p, bytes)
  {
    SpliceParts(a + b, |a| + p, bytes);
    SpliceParts(b, p, bytes);
    assert (a + b)[..|a| + p] == a + b[..p];
    assert (a + b)[|a| + p + |bytes|..] == b[p + |bytes|..];
  }

  // ---- The flat view of equally long segments

  ghost predicate Even(segs: seq<seq<Byte>>, segSize: nat) {
    0 < segSize && forall i | 0 <= i < |segs| :: |segs[i]| == segSize
  }

  /** All bytes in order. */
  ghost function FlatOf(segs: seq<seq<Byte>>): seq<Byte> {
    if segs == [] then [] else segs[0] + FlatOf(segs[1..])
  }

  lemma {:induction false} FlatLength(segs: seq<seq<Byte>>, segSize: nat)
    requires Even(segs, segSize)
    ensures |FlatOf(segs)| == |segs| * segSize
  {
    if segs != [] {
      FlatLength(segs[1..], segSize);
    }
  }

  /** Flat position p is place off of segment i. */
  ghost predicate Locates(segSize: nat, p: int, i: nat, off: nat) {
    if i == 0 then p == off < segSize else p >= segSize && Locates(segSize, p - segSize, i - 1, off)
  }

  /** The code finds it by dividing. */
  lemma {:induction false} LocatedByDivision(segSize: nat, p: nat)
    requires 0 < segSize
    ensures Locates(segSize, p, p / segSize, p % segSize)
  {
    if p < segSize {
      DivModUnique(p, segSize, 0, p);
    } else {
      LocatedByDivision(segSize, p - segSize);
      var q, r := (p - segSize) / segSize, (p - segSize) % segSize;
      assert p == (q + 1) * segSize + r;
      DivModUnique(p, segSize, q + 1, r);
    }
  }

  /** Replacing bytes inside one segment replaces the same bytes of the flat view and no others. */
  lemma {:induction false} FlatOfStore(segs: seq<seq<Byte>>, segSize: nat, p: nat, i: nat, off: nat, bytes: seq<Byte>)
    requires Even(segs, segSize) && p < |FlatOf(segs)| && off + |bytes| <= segSize && Locates(segSize, p, i, off)
    ensures i < |segs| && p + |bytes| <= |FlatOf(segs)|
    ensures FlatOf(segs[i := Splice(segs[i], off, bytes)]) == Splice(FlatOf(segs), p, bytes)
  {
    var tail := segs[1..];
    if i == 0 {
      StoreInFirst(segs, Splice(segs[0], off, bytes));
      SpliceLeft(segs[0], FlatOf(tail), p, bytes);
    } else {
      FlatOfStore(tail, segSize, p - segSize, i - 1, off, bytes);
      StoreInLater(segs, i, Splice(segs[i], off, bytes));
      SpliceRight(segs[0], FlatOf(tail), p - segSize, bytes);
    }
  }

  lemma StoreInFirst(segs: seq<seq<Byte>>, seg: seq<Byte>)
    requires |segs| > 0
    ensures FlatOf(segs[0 := seg]) == seg + FlatOf(segs[1..])
  {
    assert segs[0 := seg][1..] == segs[1..];
  }

  lemma StoreInLater(segs: seq<seq<Byte>>, i: nat, seg: seq<Byte>)
    requires 0 < i < |segs|
    ensures FlatOf(segs[i := seg]) == segs[0] + FlatOf(segs[1..][i - 1 := seg])
  {
    assert segs[i := seg][1..] == segs[1..][i - 1 := seg];
  }

  /** A stretch of one segment is the same stretch of the flat view. */
  lemma {:induction false} FlatOfLoad(segs: seq<seq<Byte>>, segSize: nat, p: nat, i: nat, off: nat, n: nat)
    requires Even(segs, segSize) && p < |FlatOf(segs)| && off + n <= segSize && Locates(segSize, p, i, off)
    ensures i < |segs| && p + n <= |FlatOf(segs)|
    ensures segs[i][off..off + n] == FlatOf(segs)[p..p + n]
  {
    if i > 0 {
      FlatOfLoad(segs[1..], segSize, p - segSize, i - 1, off, n);
      assert FlatOf(segs)[p..p + n] == FlatOf(segs[1..])[p - segSize..p - segSize + n];
    }
  }

  class Packet {
    const segSize: nat
    const addr: seq<array<Byte>>
    var headroom: nat
    var frameLen: nat
    var tailroom: nat

    ghost predicate Shape() {
      && 0 < segSize
      && (forall i | 0 <= i < |addr| :: addr[i].Length == segSize)
      && (forall i, j | 0 <= i < j < |addr| :: addr[i] != addr[j])
    }

    /** packet_init on a buffer with the given segments: tailroom is what the last segments have left. */
    constructor (segSize: nat, segs: seq<array<Byte>>, headroom: nat, size: nat)
      requires 0 < segSize && headroom + size <= segSize * |segs| < TWO32
      requires forall i | 0 <= i < |segs| :: segs[i].Length == segSize
      requires forall i, j | 0 <= i < j < |segs| :: segs[i] != segs[j]
      ensures Valid() && addr == segs && this.segSize == segSize
      ensures this.headroom == headroom && frameLen == size
    {
      this.segSize := segSize;
      addr := segs;
      this.headroom := headroom;
      frameLen := size;
      tailroom := segSize * |segs| - (headroom + size);
      new;
      FlatLength(Segments(), segSize);
    }

    /** The contents of the segments. */
    ghost function Segments(): (segs: seq<seq<Byte>>)
      requires Shape()
      reads addr
      ensures |segs| == |addr| && Even(segs, segSize)
    {
      seq(|addr|, i requires 0 <= i < |addr| reads addr => addr[i][..])
    }

    /** All bytes of the segments in order. */
    ghost function Flat(): (b: seq<Byte>)
      requires Shape()
      reads addr
    {
      FlatOf(Segments())
    }

    /** Headroom, data and tailroom fill the segments. */
    ghost predicate Valid()
      reads this, addr
    {
      Shape() && headroom + frameLen + tailroom == |Flat()| < TWO32
    }

    /** The packet's data: the flat bytes between headroom and tailroom. */
    ghost function View(): (b: seq<Byte>)
      requires Valid()
      reads this, addr
      ensures |b| == frameLen
    {
      Flat()[headroom..headroom + frameLen]
    }

    /** odp_packet_push_head: the last bytes of the headroom become the first of the data. */
    method PushHead(len: nat) returns (ok: bool)
      requires Valid()
      modifies this`headroom, this`frameLen
      ensures Valid() && ok == (len <= old(headroom)) && (!ok ==> View() == old(View()))
      ensures ok ==> headroom == old(headroom) - len
      ensures ok ==> View() == Flat()[headroom..headroom + len] + old(View())
    {
      if len > headroom {
        return false;
      }
      headroom, frameLen := headroom - len, frameLen + len;
      assert Flat() == old(Flat());
      assert Flat()[headroom..headroom + frameLen] ==
          Flat()[headroom..headroom + len] + Flat()[headroom + len..headroom + frameLen];
      return true;
    }

    /** odp_packet_pull_head: drops the first bytes of the data. */
    method PullHead(len: nat) returns (ok: bool)
      requires Valid()
      modifies this`headroom, this`frameLen
      ensures Valid() && ok == (len <= old(frameLen)) && (!ok ==> View() == old(View()))
      ensures ok ==> headroom == old(headroom) + len && View() == old(View())[len..]
    {
      if len > frameLen {
        return false;
      }
      headroom, frameLen := headroom + len, frameLen - len;
      assert Flat() == old(Flat());
      SliceOfSlice(Flat(), old(headroom), old(headroom) + old(frameLen), len, old(frameLen));
      return true;
    }

    /** odp_packet_push_tail: the first bytes of the tailroom become the last of the data. */
    method PushTail(len: nat) returns (ok: bool)
      requires Valid()
      modifies this`tailroom, this`frameLen
      ensures Valid() && ok == (len <= old(tailroom)) && (!ok ==> View() == old(View()))
      ensures ok ==> tailroom == old(tailroom) - len
      ensures ok ==> View() == old(View()) + Flat()[headroom + old(frameLen)..headroom + frameLen]
    {
      if len > tailroom {
        return false;
      }
      tailroom, frameLen := tailroom - len, frameLen + len;
      assert Flat() == old(Flat());
      return true;
    }

    /** odp_packet_pull_tail: drops the last bytes of the data. */
    method PullTail(len: nat) returns (ok: bool)
      requires Valid()
      modifies this`tailroom, this`frameLen
      ensures Valid() && ok == (len <= old(frameLen)) && (!ok ==> View() == old(View()))
      ensures ok ==> tailroom == old(tailroom) + len && frameLen == old(frameLen) - len
      ensures ok ==> View() == old(View())[..frameLen]
    {
      if len > frameLen {
        return false;
      }
      tailroom, frameLen := tailroom + len, frameLen - len;
      assert Flat() == old(Flat());
      SliceOfSlice(Flat(), headroom, headroom + old(frameLen), 0, frameLen);
      return true;
    }

    /** Writes n bytes at flat position p, inside one segment: the flat bytes change there and nowhere else. */
    method StoreChunk(p: nat, src: array<Byte>, s: nat, n: nat)
      requires Shape() && p < |Flat()| && p % segSize + n <= segSize
      requires s + n <= src.Length && src !in addr
      modifies addr
      ensures p + n <= |old(Flat())| && Flat() == Splice(old(Flat()), p, src[s..s + n])
    {
      ghost var segs := Segments();
      var index, off := p / segSize, p % segSize;
      LocatedByDivision(segSize, p);
      FlatOfStore(segs, segSize, p, index, off, src[s..s + n]);
      Memcpy(addr[index], off, src, s, n);
      SpliceParts(segs[index], off, src[s..s + n]);
      assert addr[index][..] == Splice(segs[index], off, src[s..s + n]);
      assert Segments() == segs[index := addr[index][..]];
    }

    /** Reads n bytes from flat position p, inside one segment. */
    method LoadChunk(p: nat, dst: array<Byte>, d: nat, n: nat)
      requires Shape() && p < |Flat()| && p % segSize + n <= segSize
      requires d + n <= dst.Length && dst !in addr
      modifies dst
      ensures p + n <= |Flat()| && dst[..] == Splice(old(dst[..]), d, Flat()[p..p + n])
      ensures Flat() == old(Flat())
    {
      ghost var segs := Segments();
      LocatedByDivision(segSize, p);
      FlatOfLoad(segs, segSize, p, p / segSize, p % segSize, n);
      var seg := addr[p / segSize];
      Memcpy(dst, d, seg, p % segSize, n);
      assert Segments() == segs;
      SpliceParts(old(dst[..]), d, Flat()[p..p + n]);
      assert dst[d..d + n] == seg[p % segSize..p % segSize + n];
    }

    /** packet_map of a position inside the data: the segment, the place in it, and the bytes left there. */
    function Map(offset: nat): (m: Mapping)
      requires 0 < segSize && offset <= frameLen
      reads this
    {
      BufferMap(segSize, headroom + offset, headroom + frameLen)
    }

    /** One turn of the copy-in loop: as much as the segment and the request allow, and at least one byte. */
    method StoreNext(off: nat, src: array<Byte>, s: nat, rest: nat) returns (n: nat)
      requires Valid() && 0 < rest && off + rest <= frameLen && s + rest <= src.Length && src !in addr
      modifies addr
      ensures 0 < n <= rest && Valid()
      ensures Flat() == Splice(old(Flat()), headroom + off, src[s..s + n])
    {
      var m := Map(off);
      n := if rest > m.len then m.len else rest;
      StoreChunk(headroom + off, src, s, n);
    }

    method LoadNext(off: nat, dst: array<Byte>, d: nat, rest: nat) returns (n: nat)
      requires Valid() && 0 < rest && off + rest <= frameLen && d + rest <= dst.Length && dst !in addr
      modifies dst
      ensures 0 < n <= rest && Valid() && Flat() == old(Flat())
      ensures dst[..] == Splice(old(dst[..]), d, Flat()[headroom + off..headroom + off + n])
    {
      var m := Map(off);
      n := if rest > m.len then m.len else rest;
      LoadChunk(headroom + off, dst, d, n);
    }

    /** odp_packet_copydata_in: the view changes exactly in the given range, headroom and tailroom not at all. */
    method CopyDataIn(offset: nat, len: nat, src: array<Byte>) returns (ret: int)
      requires Valid() && offset < TWO32 && len < TWO32 && !WrapsToFit(offset, len, frameLen)
      requires len <= src.Length && src !in addr
      modifies addr
      ensures Valid()
      ensures offset + len > frameLen ==> ret == -1 && Flat() == old(Flat())
      ensures offset + len <= frameLen ==>
        ret == 0 && Flat() == Splice(old(Flat()), headroom + offset, src[..len])
      ensures offset + len <= frameLen ==> View() == Splice(old(View()), offset, src[..len])
    {
      RangeCheckExact(offset, len, frameLen);
      if Rejects(offset, len, frameLen) {
        return -1;
      }
      ghost var flat := Flat();
      StoreLoop(offset, len, src);
      SpliceInside(flat, headroom, headroom + frameLen, headroom + offset, src[..len]);
      return 0;
    }

    /** The loop of odp_packet_copydata_in. */
    method StoreLoop(offset: nat, len: nat, src: array<Byte>)
      requires Valid() && offset + len <= frameLen && len <= src.Length && src !in addr
      modifies addr
      ensures Valid() && Flat() == Splice(old(Flat()), headroom + offset, src[..len])
    {
      ghost var flat, base, bytes := Flat(), headroom + offset, src[..];
      var off, s, rest := offset, 0, len;
      assert flat == Splice(flat, base, bytes[..0]);
      while rest > 0
        invariant 0 <= s && 0 <= rest && off == offset + s && s + rest == len
        invariant Valid() && Flat() == Splice(flat, base, bytes[..s])
        invariant src[..] == bytes
      {
        var n := StoreNext(off, src, s, rest);
        SpliceExtend(flat, base, bytes[..s], bytes[s..s + n]);
        assert bytes[..s] + bytes[s..s + n] == bytes[..s + n];
        off, s, rest := off + n, s + n, rest - n;
      }
    }

    /** odp_packet_copydata_out: the bytes of the view in the given range. */
    method CopyDataOut(offset: nat, len: nat, dst: array<Byte>) returns (ret: int)
      requires Valid() && offset < TWO32 && len < TWO32 && !WrapsToFit(offset, len, frameLen)
      requires len <= dst.Length && dst !in addr
      modifies dst
      ensures Valid() && Flat() == old(Flat())
      ensures offset + len > frameLen ==> ret == -1 && dst[..] == old(dst[..])
      ensures offset + len <= frameLen ==>
        ret == 0 && dst[..] == Splice(old(dst[..]), 0, View()[offset..offset + len])
    {
      RangeCheckExact(offset, len, frameLen);
      if Rejects(offset, len, frameLen) {
        return -1;
      }
      LoadLoop(offset, len, dst);
      SliceOfSlice(Flat(), headroom, headroom + frameLen, offset, offset + len);
      return 0;
    }

    /** The loop of odp_packet_copydata_out. */
    method LoadLoop(offset: nat, len: nat, dst: array<Byte>)
      requires Valid() && offset + len <= frameLen && len <= dst.Length && dst !in addr
      modifies dst
      ensures Valid() && Flat() == old(Flat())
      ensures dst[..] == Splice(old(dst[..]), 0, Flat()[headroom + offset..headroom + offset + len])
    {
      ghost var flat, base, before := Flat(), headroom + offset, dst[..];
      var off, d, rest := offset, 0, len;
      assert before == Splice(before, 0, flat[base..base]);
      while rest > 0
        invariant 0 <= d && 0 <= rest && off == offset + d && d + rest == len
        invariant Valid() && Flat() == flat
        invariant dst[..] == Splice(before, 0, flat[base..base + d])
      {
        var n := LoadNext(off, dst, d, rest);
        SpliceSlices(before, 0, flat, base, d, n);
        off, d, rest := off + n, d + n, rest - n;
      }
    }
  }

  // ---- Copies between packets

  predicate Separate(a: Packet, b: Packet) {
    forall i, j | 0 <= i < |a.addr| && 0 <= j < |b.addr| :: a.addr[i] != b.addr[j]
  }

  /** One turn of the packet-to-packet loop: bounded by both segments and by the request. */
  method CopyNext(src: Packet, srcOff: nat, dst: Packet, dstOff: nat, rest: nat) returns (n: nat)
    requires src.Valid() && dst.Valid() && Separate(src, dst) && 0 < rest
    requires srcOff + rest <= src.frameLen && dstOff + rest <= dst.frameLen
    modifies dst.addr
    ensures 0 < n <= rest && src.Valid() && dst.Valid() && src.Flat() == old(src.Flat())
    ensures dst.Flat() == Splice(old(dst.Flat()), dst.headroom + dstOff,
                                 src.Flat()[src.headroom + srcOff..src.headroom + srcOff + n])
  {
    var s, d := src.Map(srcOff), dst.Map(dstOff);
    var minSeg := if d.len > s.len then s.len else d.len;
    n := if rest > minSeg then minSeg else rest;
    ghost var p, segs := src.headroom + srcOff, src.Segments();
    LocatedByDivision(src.segSize, p);
    FlatOfLoad(segs, src.segSize, p, s.index, s.offset, n);
    dst.StoreChunk(dst.headroom + dstOff, src.addr[s.index], s.offset, n);
    assert src.Segments() == segs;
  }

  /** The copy loop of _odp_packet_copy_to_packet, on the flat bytes. */
  method CopyLoop(src: Packet, srcOffset: nat, dst: Packet, dstOffset: nat, len: nat)
    requires src.Valid() && dst.Valid() && Separate(src, dst)
    requires srcOffset + len <= src.frameLen && dstOffset + len <= dst.frameLen
    modifies dst.addr
    ensures src.Valid() && dst.Valid() && src.Flat() == old(src.Flat())
    ensures dst.Flat() == Splice(old(dst.Flat()), dst.headroom + dstOffset,
                                 src.Flat()[src.headroom + srcOffset..src.headroom + srcOffset + len])
  {
    ghost var from, to := src.Flat(), dst.Flat();
    ghost var a, b := src.headroom + srcOffset, dst.headroom + dstOffset;
    var done, rest := 0, len;
    assert to == Splice(to, b, from[a..a]);
    while rest > 0
      invariant 0 <= done && 0 <= rest && done + rest == len
      invariant src.Valid() && dst.Valid() && src.Flat() == from
      invariant dst.Flat() == Splice(to, b, from[a..a + done])
    {
      var n := CopyNext(src, srcOffset + done, dst, dstOffset + done, rest);
      SpliceSlices(to, b, from, a, done, n);
      done, rest := done + n, rest - n;
    }
  }

  lemma SpliceSlices(to: seq<Byte>, b: nat, from: seq<Byte>, a: nat, d: nat, n: nat)
    requires b + d + n <= |to| && a + d + n <= |from|
    ensures Splice(Splice(to, b, from[a..a + d]), b + d, from[a + d..a + d + n]) == Splice(to, b, from[a..a + d + n])
  {
    SpliceExtend(to, b, from[a..a + d], from[a + d..a + d + n]);
    assert from[a..a + d] + from[a + d..a + d + n] == from[a..a + d + n];
  }

  /** _odp_packet_copy_to_packet: a slice of the source's view replaces a slice of the destination's. */
  method CopyToPacket(src: Packet, srcOffset: nat, dst: Packet, dstOffset: nat, len: nat) returns (ret: int)
    requires src.Valid() && dst.Valid() && Separate(src, dst)
    requires srcOffset < TWO32 && dstOffset < TWO32 && len < TWO32
    requires !WrapsToFit(srcOffset, len, src.frameLen) && !WrapsToFit(dstOffset, len, dst.frameLen)
    modifies dst.addr
    ensures src.Valid() && dst.Valid() && src.Flat() == old(src.Flat())
    ensures srcOffset + len > src.frameLen || dstOffset + len > dst.frameLen ==>
      ret == -1 && dst.Flat() == old(dst.Flat())
    ensures srcOffset + len <= src.frameLen && dstOffset + len <= dst.frameLen ==>
      ret == 0 && dst.View() == Splice(old(dst.View()), dstOffset, old(src.View())[srcOffset..srcOffset + len])
  {
    RangeCheckExact(srcOffset, len, src.frameLen);
    RangeCheckExact(dstOffset, len, dst.frameLen);
    if Rejects(srcOffset, len, src.frameLen) || Rejects(dstOffset, len, dst.frameLen) {
      return -1;
    }
    ghost var from, to := src.Flat(), dst.Flat();
    ghost var a, b := src.headroom + srcOffset, dst.headroom + dstOffset;
    CopyLoop(src, srcOffset, dst, dstOffset, len);
    SliceOfSlice(from, src.headroom, src.headroom + src.frameLen, srcOffset, srcOffset + len);
    SpliceInside(to, dst.headroom, dst.headroom + dst.frameLen, b, from[a..a + len]);
    return 0;
  }

  /** The two copies of odp_packet_add_data and odp_packet_rem_data: the data before the place, and the data behind. */
  method CopyAround(src: Packet, dst: Packet, offset: nat, srcBack: nat, dstBack: nat, len: nat) returns (ret: int)
    requires src.Valid() && dst.Valid() && Separate(src, dst)
    requires offset <= src.frameLen < TWO32 && dst.frameLen < TWO32 && srcBack + len <= src.frameLen
    requires offset <= dst.frameLen ==> dstBack + len <= dst.frameLen
    modifies dst.addr
    ensures src.Valid() && dst.Valid() && src.Flat() == old(src.Flat()) && (ret == 0 <==> offset <= dst.frameLen)
    ensures var v := old(src.View());
            ret == 0 ==>
              dst.View() == Splice(Splice(old(dst.View()), 0, v[..offset]), dstBack, v[srcBack..srcBack + len])
  {
    ghost var v := src.View();
    ret := CopyToPacket(src, 0, dst, 0, offset);
    assert v[0..offset] == v[..offset];
    if ret == 0 {
      ret := CopyToPacket(src, srcBack, dst, dstBack, len);
    }
  }

  // ---- Allocation, insertion and removal

  method NewSegments(segSize: nat, count: nat) returns (segs: seq<array<Byte>>)
    ensures |segs| == count && forall i | 0 <= i < count :: fresh(segs[i]) && segs[i].Length == segSize
    ensures forall i, j | 0 <= i < j < count :: segs[i] != segs[j]
  {
    segs := [];
    while |segs| < count
      invariant |segs| <= count && forall i | 0 <= i < |segs| :: fresh(segs[i]) && segs[i].Length == segSize
      invariant forall i, j | 0 <= i < j < |segs| :: segs[i] != segs[j]
    {
      var seg := new Byte[segSize];
      segs := segs + [seg];
    }
  }

  /** What a packet pool was created with. */
  datatype PoolConfig = PoolConfig(segSize: nat, headroom: nat, bufSize: nat)

  /** The length a request is allocated for: a request for nothing gets the pool's default buffer. */
  function AllocLength(pool: PoolConfig, len: nat): nat {
    if len == 0 then pool.bufSize else len
  }

  /** The pool attached `blocks` segments, enough for headroom and data; none means that it is exhausted. */
  ghost predicate Granted(pool: PoolConfig, len: nat, blocks: nat) {
    blocks > 0 ==> 0 < pool.segSize && pool.headroom + AllocLength(pool, len) <= pool.segSize * blocks < TWO32
  }

  /** odp_packet_alloc; the bytes of the new packet are arbitrary. */
  method PacketAlloc(pool: PoolConfig, len: nat, blocks: nat) returns (pkt: Packet?)
    requires Granted(pool, len, blocks)
    ensures (pkt == null) == (blocks == 0)
    ensures pkt != null ==>
      && fresh(pkt) && (forall i | 0 <= i < |pkt.addr| :: fresh(pkt.addr[i]))
      && pkt.Valid() && pkt.frameLen == len && pkt.headroom == pool.headroom
  {
    if blocks == 0 {
      return null;
    }
    var segs := NewSegments(pool.segSize, blocks);
    var p := new Packet(pool.segSize, segs, pool.headroom, AllocLength(pool, len));
    if len == 0 {
      var ok := p.PullTail(pool.bufSize);
    }
    return p;
  }

  /** v' is v with n bytes inserted at offset. */
  ghost predicate Inserted(v: seq<Byte>, v': seq<Byte>, offset: nat, n: nat) {
    offset <= |v| && |v'| == |v| + n && v'[..offset] == v[..offset] && v'[offset + n..] == v[offset..]
  }

  function Removed(v: seq<Byte>, offset: nat, n: nat): seq<Byte>
    requires offset + n <= |v|
  {
    v[..offset] + v[offset + n..]
  }

  lemma RemoveUndoesInsert(v: seq<Byte>, v': seq<Byte>, offset: nat, n: nat)
    requires Inserted(v, v', offset, n)
    ensures Removed(v', offset, n) == v
  {
    assert v == v[..offset] + v[offset..];
  }

  /** Two copies, in front of the gap and behind it, make an insertion. */
  lemma CopiesInsert(v: seq<Byte>, w: seq<Byte>, offset: nat, n: nat, back: seq<Byte>)
    requires offset <= |v| && |w| == |v| + n && back == v[offset..]
    ensures Inserted(v, Splice(Splice(w, 0, v[..offset]), offset + n, back), offset, n)
  {
    var w1 := Splice(w, 0, v[..offset]);
    SpliceParts(w, 0, v[..offset]);
    SpliceParts(w1, offset + n, back);
  }

  lemma CopiesRemove(v: seq<Byte>, w: seq<Byte>, offset: nat, n: nat)
    requires offset + n <= |v| && |w| == |v| - n
    ensures var w1 := Splice(w, 0, v[..offset]);
            Splice(w1, offset, v[offset + n..offset + n + (|v| - offset - n)]) == Removed(v, offset, n)
  {
    var front, back := v[..offset], v[offset + n..];
    assert v[offset + n..offset + n + (|v| - offset - n)] == back;
    var w1 := Splice(w, 0, front);
    SpliceParts(w, 0, front);
    assert w1[..offset] == front;
    SpliceParts(w1, offset, back);
    assert w1[offset + |back|..] == [];
  }

  /** The two copies onto a packet that is cut bytes shorter, the second one overlapping the end of the first. */
  lemma CopiesOverlap(v: seq<Byte>, w: seq<Byte>, offset: nat, cut: nat, back: seq<Byte>)
    requires |w| == |v| - cut && cut <= offset <= |w| && back == v[offset..]
    ensures Splice(Splice(w, 0, v[..offset]), offset - cut, back) == Removed(v, offset - cut, cut)
  {
    var w1 := Splice(w, 0, v[..offset]);
    SpliceParts(w, 0, v[..offset]);
    SpliceParts(w1, offset - cut, back);
    assert w1[..offset - cut] == v[..offset - cut];
    assert w1[offset - cut + |back|..] == [];
  }

  /** The length pktlen + len wraps around, and the offset offset + len of the second copy does not. */
  predicate WrapsBetween(offset: nat, len: nat, frameLen: nat) {
    offset + len < TWO32 <= frameLen + len
  }

  /** v' is v with len bytes inserted; adding 2^32 - n bytes removes the n bytes before offset. */
  ghost predicate Added(v: seq<Byte>, v': seq<Byte>, offset: nat, len: nat) {
    if |v| + len < TWO32 then Inserted(v, v', offset, len)
    else TWO32 <= offset + len <= |v| + len && len < TWO32 && v' == Removed(v, offset + len - TWO32, TWO32 - len)
  }

  /** A sum that is cut to 32 bits, without the division. */
  function Cut(x: nat): nat {
    if x < TWO32 then x else x - TWO32
  }

  lemma CopiesAdd(v: seq<Byte>, w: seq<Byte>, offset: nat, len: nat, back: seq<Byte>)
    requires |v| < TWO32 && len < TWO32 && |w| == Cut(|v| + len) && offset <= |v| && offset <= |w|
    requires !WrapsBetween(offset, len, |v|) && back == v[offset..]
    ensures Cut(offset + len) + |back| == |w|
    ensures Added(v, Splice(Splice(w, 0, v[..offset]), Cut(offset + len), back), offset, len)
  {
    if |v| + len < TWO32 {
      CopiesInsert(v, w, offset, len, back);
    } else {
      CopiesOverlap(v, w, offset, TWO32 - len, back);
    }
  }

  /** The sum of two 32-bit numbers as the code computes it. */
  function Sum32(x: nat, y: nat): (r: nat)
    requires x < TWO32 && y < TWO32
    ensures r == Cut(x + y)
  {
    W32(x + y)
  }

  /** The copies of odp_packet_add_data, onto a packet of the right length. */
  method AddCopies(pkt: Packet, newpkt: Packet, offset: nat, len: nat, dst: nat) returns (ret: int)
    requires pkt.Valid() && newpkt.Valid() && Separate(pkt, newpkt) && offset <= pkt.frameLen < TWO32 && len < TWO32
    requires newpkt.frameLen == Cut(pkt.frameLen + len) && dst == Cut(offset + len)
    requires offset <= newpkt.frameLen ==> !WrapsBetween(offset, len, pkt.frameLen)
    modifies newpkt.addr
    ensures pkt.Valid() && newpkt.Valid() && pkt.View() == old(pkt.View())
    ensures (ret == 0 <==> offset <= newpkt.frameLen)
    ensures ret == 0 ==> Added(pkt.View(), newpkt.View(), offset, len)
  {
    ghost var v, w := pkt.View(), newpkt.View();
    ghost var back := v[offset..offset + (pkt.frameLen - offset)];
    assert back == v[offset..];
    if offset <= |w| {
      CopiesAdd(v, w, offset, len, back);
    }
    ret := CopyAround(pkt, newpkt, offset, offset, dst, pkt.frameLen - offset);
  }

  /**
   odp_packet_add_data: on success a new packet holds the data with a gap of len bytes at offset, and the old packet's
   bytes are untouched. The length of the new packet is a 32-bit sum: adding 2^32 - n bytes removes the n bytes before
   offset, or fails if fewer than n follow it.
   */
  method AddData(pkt: Packet, pool: PoolConfig, offset: nat, len: nat, blocks: nat) returns (newpkt: Packet?)
    requires pkt.Valid() && pkt.frameLen < TWO32 && offset < TWO32 && len < TWO32
    requires Granted(pool, Cut(pkt.frameLen + len), blocks)
    requires offset <= Cut(pkt.frameLen + len) ==> !WrapsBetween(offset, len, pkt.frameLen)
    ensures pkt.Valid() && pkt.View() == old(pkt.View())
    ensures newpkt != null <==> offset <= pkt.frameLen && offset <= Cut(pkt.frameLen + len) && blocks > 0
    ensures newpkt != null ==> fresh(newpkt) && newpkt.Valid() && Added(pkt.View(), newpkt.View(), offset, len)
  {
    var pktlen := pkt.frameLen;
    if offset > pktlen {
      return null;
    }
    var newlen, dst := Sum32(pktlen, len), Sum32(offset, len);
    newpkt := PacketAlloc(pool, newlen, blocks);
    if newpkt != null {
      var ret := AddCopies(pkt, newpkt, offset, len, dst);
      if ret != 0 {
        newpkt := null;
      }
    }
  }

  /** odp_packet_rem_data: on success a new packet holds the data without the given range. */
  method RemData(pkt: Packet, pool: PoolConfig, offset: nat, len: nat, blocks: nat) returns (newpkt: Packet?)
    requires pkt.Valid() && offset < TWO32 && len < TWO32
    requires offset <= pkt.frameLen ==> !WrapsToFit(offset, len, pkt.frameLen)
    requires offset + len <= pkt.frameLen ==> Granted(pool, pkt.frameLen - len, blocks)
    ensures pkt.Valid() && pkt.View() == old(pkt.View())
    ensures newpkt != null <==> offset + len <= pkt.frameLen && blocks > 0
    ensures newpkt != null ==> fresh(newpkt) && newpkt.Valid() && newpkt.View() == Removed(pkt.View(), offset, len)
  {
    var pktlen := pkt.frameLen;
    RangeCheckExact(offset, len, pktlen);
    if offset > pktlen || Rejects(offset, len, pktlen) {
      return null;
    }
    newpkt := PacketAlloc(pool, pktlen - len, blocks);
    if newpkt != null {
      ghost var v, w := pkt.View(), newpkt.View();
      var ret := CopyAround(pkt, newpkt, offset, offset + len, offset, pktlen - offset - len);
      CopiesRemove(v, w, offset, len);
      if ret != 0 {
        newpkt := null;
      }
    }
  }

  /** Inserting and then removing the same range gives back the data, whatever the segment layouts. */
  method AddThenRemove(pkt: Packet, pool: PoolConfig, offset: nat, len: nat, blocks: nat, blocks': nat)
    returns (result: Packet?)
    requires pkt.Valid() && offset <= pkt.frameLen && pkt.frameLen + len < TWO32
    requires Granted(pool, pkt.frameLen + len, blocks) && blocks > 0
    requires Granted(pool, pkt.frameLen, blocks') && blocks' > 0
    ensures result != null && result.Valid() && pkt.Valid() && result.View() == old(pkt.View())
  {
    var mid := AddData(pkt, pool, offset, len, blocks);
    ghost var v, v' := pkt.View(), mid.View();
    RemoveUndoesInsert(v, v', offset, len);
    result := RemData(mid, pool, offset, len, blocks');
  }

  /** What is copied in at an offset is copied out again from there. */
  method CopyInThenOut(pkt: Packet, offset: nat, len: nat, src: array<Byte>, dst: array<Byte>)
    requires pkt.Valid() && offset + len <= pkt.frameLen && len <= src.Length && len <= dst.Length
    requires src !in pkt.addr && dst !in pkt.addr && src != dst
    modifies pkt.addr, dst
    ensures dst[..len] == src[..len]
  {
    ghost var v, bytes, before := pkt.View(), src[..len], dst[..];
    var ret := pkt.CopyDataIn(offset, len, src);
    ret := pkt.CopyDataOut(offset, len, dst);
    SpliceParts(v, offset, bytes);
    assert Splice(v, offset, bytes)[offset..offset + len] == bytes;
    SpliceParts(before, 0, bytes);
  }
}
