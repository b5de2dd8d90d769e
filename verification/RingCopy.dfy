/** The unrolled, wrapping copies between a caller's table and the ring's slots. */
module RingCopy {
  import opened Words

  /** Position of slot k in a window that starts at index head: 0 for the first slot, size - 1 for the last. */
  function Offset(size: nat, head: nat, k: nat): (i: nat)
    requires 0 < size && k < size
    ensures i < size
  {
    (k - head) % size
  }

  /** The ring after the items were stored from index head on, each slot described on its own. */
  function Stored<T>(ring: seq<T>, head: nat, items: seq<T>): (r: seq<T>)
    requires 0 < |ring|
  {
    seq(|ring|, k requires 0 <= k < |ring| =>
      var i := Offset(|ring|, head, k);
      if i < |items| then items[i] else ring[k])
  }

  /** The n items that lie in the ring from index head on. */
  function Loaded<T>(ring: seq<T>, head: nat, n: nat): (r: seq<T>)
    requires 0 < |ring|
  {
    seq(n, i requires 0 <= i < n => ring[(head + i) % |ring|])
  }

  /** Offset by cases on whether the slot lies at or after the first one. */
  lemma OffsetCases(size: nat, head: nat, k: nat)
    requires 0 < size && k < size
    ensures var idx := head % size;
            Offset(size, head, k) == if k >= idx then k - idx else k + size - idx
  {
    var q, idx := head / size, head % size;
    var (p, i) := if k >= idx then (-q, k - idx) else (-q - 1, k + size - idx);
    calc {
      p * size + i;
      k - (q * size + idx);
      k - head;
    }
    DivModUnique(k - head, size, p, i);
  }

  /** Index head + i falls into the slot i places after the first, wrapping once. */
  lemma SlotCases(size: nat, head: nat, i: nat)
    requires 0 < size && i < size
    ensures var idx := head % size;
            (head + i) % size == if idx + i < size then idx + i else idx + i - size
    ensures Offset(size, head, (head + i) % size) == i
  {
    var q, idx := head / size, head % size;
    var (p, k) := if idx + i < size then (q, idx + i) else (q + 1, idx + i - size);
    calc {
      p * size + k;
      q * size + idx + i;
      head + i;
    }
    DivModUnique(head + i, size, p, k);
    OffsetCases(size, head, k);
  }

  lemma LoadedAt<T>(ring: seq<T>, head: nat, n: nat, i: nat)
    requires i < n < |ring|
    ensures var idx := head % |ring|;
            Loaded(ring, head, n)[i] == if idx + i < |ring| then ring[idx + i] else ring[idx + i - |ring|]
  {
    SlotCases(|ring|, head, i);
  }

  /** Loading undoes storing, wherever the window starts and however it wraps. */
  lemma LoadAfterStore<T>(ring: seq<T>, head: nat, items: seq<T>)
    requires 0 < |ring| && |items| <= |ring|
    ensures Loaded(Stored(ring, head, items), head, |items|) == items
  {
    forall i | 0 <= i < |items|
      ensures Loaded(Stored(ring, head, items), head, |items|)[i] == items[i]
    {
      SlotCases(|ring|, head, i);
    }
  }

  /** The turns of the unrolled loop, n & ~3, and the switch after it, n & 3. */
  method Unroll(n: nat) returns (bulk: nat, rest: nat)
    requires n < TWO32
    ensures bulk % 4 == 0 && rest < 4 && bulk + rest == n
  {
    var notThree, three := TWO32 - 4, 3;
    SplitByFour(n, notThree, three);
    bulk, rest := BitAnd(n, notThree), BitAnd(n, three);
  }

  /** head & mask. */
  method Masked(head: nat, size: nat) returns (idx: nat)
    requires IsPow2(size) && head < TWO32
    ensures idx == head % size && idx < size
  {
    MaskOfWord(head, size);
    idx := BitAnd(head, size - 1);
  }

  /** Copies without wrapping: four items a turn, then the remaining one to three. */
  method StoreStraight<T>(ring: array<T>, objTable: array<T>, first: nat, n: nat)
    requires first + n < ring.Length && n <= objTable.Length && n < TWO32 && ring != objTable
    modifies ring
    ensures forall k | 0 <= k < ring.Length ::
      ring[k] == if first <= k < first + n then objTable[k - first] else old(ring[k])
  {
    var i, idx := 0, first;
    var bulk, rest := Unroll(n);
    ghost var turn := 0;
    while i < bulk
      invariant 0 <= turn <= bulk / 4 && i == 4 * turn && idx == first + i
      invariant forall k | 0 <= k < ring.Length ::
        ring[k] == if first <= k < idx then objTable[k - first] else old(ring[k])
    {
      ring[idx] := objTable[i];
      ring[idx + 1] := objTable[i + 1];
      ring[idx + 2] := objTable[i + 2];
      ring[idx + 3] := objTable[i + 3];
      i, idx := i + 4, idx + 4;
      turn := turn + 1;
    }
    if rest >= 3 {
      ring[idx] := objTable[i];
      i, idx := i + 1, idx + 1;
    }
    if rest >= 2 {
      ring[idx] := objTable[i];
      i, idx := i + 1, idx + 1;
    }
    if rest >= 1 {
      ring[idx] := objTable[i];
      i, idx := i + 1, idx + 1;
    }
  }

  /** Copies up to the last slot, then goes on from slot 0. */
  method StoreWrapped<T>(ring: array<T>, objTable: array<T>, first: nat, n: nat)
    requires first < ring.Length <= first + n && n < ring.Length
    requires n <= objTable.Length && ring != objTable
    modifies ring
    ensures forall k | 0 <= k < ring.Length ::
      ring[k] == if first <= k then objTable[k - first]
                 else if k + ring.Length < first + n then objTable[k + ring.Length - first]
                 else old(ring[k])
  {
    var size := ring.Length;
    var i, idx := 0, first;
    while idx < size
      invariant first <= idx <= size && i == idx - first
      invariant forall k | 0 <= k < size ::
        ring[k] == if first <= k < idx then objTable[k - first] else old(ring[k])
    {
      ring[idx] := objTable[i];
      i, idx := i + 1, idx + 1;
    }
    idx := 0;
    while i < n
      invariant idx <= first && i == size - first + idx && i <= n
      invariant forall k | 0 <= k < size ::
        ring[k] == if first <= k then objTable[k - first]
                   else if k < idx then objTable[k + size - first] else old(ring[k])
    {
      ring[idx] := objTable[i];
      i, idx := i + 1, idx + 1;
    }
  }

  /** ENQUEUE_PTRS: slot (head + i) mod size receives item i for every i below n, every other slot keeps its item. */
  method EnqueuePtrs<T>(ring: array<T>, objTable: array<T>, prodHead: nat, n: nat)
    requires IsPow2(ring.Length) && ring.Length <= TWO32
    requires prodHead < TWO32 && n < ring.Length && n <= objTable.Length && ring != objTable
    modifies ring
    ensures ring[..] == Stored(old(ring[..]), prodHead, objTable[..n])
  {
    var idx := Masked(prodHead, ring.Length);
    if idx + n < ring.Length {
      StoreStraight(ring, objTable, idx, n);
    } else {
      StoreWrapped(ring, objTable, idx, n);
    }
    ghost var want := Stored(old(ring[..]), prodHead, objTable[..n]);
    forall k | 0 <= k < ring.Length ensures ring[k] == want[k] {
      OffsetCases(ring.Length, prodHead, k);
    }
  }

  method LoadStraight<T>(ring: array<T>, objTable: array<T>, first: nat, n: nat)
    requires first + n < ring.Length && n <= objTable.Length && n < TWO32 && ring != objTable
    modifies objTable
    ensures forall j | 0 <= j < objTable.Length ::
      objTable[j] == if j < n then ring[first + j] else old(objTable[j])
  {
    var i, idx := 0, first;
    var bulk, rest := Unroll(n);
    ghost var turn := 0;
    while i < bulk
      invariant 0 <= turn <= bulk / 4 && i == 4 * turn && idx == first + i
      invariant forall j | 0 <= j < objTable.Length ::
        objTable[j] == if j < i then ring[first + j] else old(objTable[j])
    {
      objTable[i] := ring[idx];
      objTable[i + 1] := ring[idx + 1];
      objTable[i + 2] := ring[idx + 2];
      objTable[i + 3] := ring[idx + 3];
      i, idx := i + 4, idx + 4;
      turn := turn + 1;
    }
    if rest >= 3 {
      objTable[i] := ring[idx];
      i, idx := i + 1, idx + 1;
    }
    if rest >= 2 {
      objTable[i] := ring[idx];
      i, idx := i + 1, idx + 1;
    }
    if rest >= 1 {
      objTable[i] := ring[idx];
      i, idx := i + 1, idx + 1;
    }
  }

  method LoadWrapped<T>(ring: array<T>, objTable: array<T>, first: nat, n: nat)
    requires first < ring.Length <= first + n && n < ring.Length
    requires n <= objTable.Length && ring != objTable
    modifies objTable
    ensures forall j | 0 <= j < objTable.Length ::
      objTable[j] == if j >= n then old(objTable[j])
                     else if first + j < ring.Length then ring[first + j]
                     else ring[first + j - ring.Length]
  {
    var size := ring.Length;
    var i, idx := 0, first;
    while idx < size
      invariant first <= idx <= size && i == idx - first
      invariant forall j | 0 <= j < objTable.Length ::
        objTable[j] == if j < i then ring[first + j] else old(objTable[j])
    {
      objTable[i] := ring[idx];
      i, idx := i + 1, idx + 1;
    }
    idx := 0;
    while i < n
      invariant idx <= first && i == size - first + idx && i <= n
      invariant forall j | 0 <= j < objTable.Length ::
        objTable[j] == if j >= i then old(objTable[j])
                       else if first + j < size then ring[first + j] else ring[first + j - size]
    {
      objTable[i] := ring[idx];
      i, idx := i + 1, idx + 1;
    }
  }

  /** DEQUEUE_PTRS: reads the same slots back in the same order. */
  method DequeuePtrs<T>(ring: array<T>, objTable: array<T>, consHead: nat, n: nat)
    requires IsPow2(ring.Length) && ring.Length <= TWO32
    requires consHead < TWO32 && n < ring.Length && n <= objTable.Length && ring != objTable
    modifies objTable
    ensures objTable[..] == Loaded(ring[..], consHead, n) + old(objTable[n..])
  {
    var idx := Masked(consHead, ring.Length);
    if idx + n < ring.Length {
      LoadStraight(ring, objTable, idx, n);
    } else {
      LoadWrapped(ring, objTable, idx, n);
    }
    ghost var want := Loaded(ring[..], consHead, n);
    forall j | 0 <= j < n ensures objTable[j] == want[j] {
      LoadedAt(ring[..], consHead, n, j);
    }
    assert objTable[n..] == old(objTable[n..]);
    assert objTable[..n] == want;
  }
}
