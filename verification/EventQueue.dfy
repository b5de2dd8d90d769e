/** The intrusive event queue of odp_queue.c: events are linked through their headers, under a status. */
module EventQueues {
  import opened QueueModel

  /** A buffer header; `next` is the link of the queue it is in. */
  class Header {
    var next: Header?

    constructor ()
      ensures next == null
    {
      next := null;
    }
  }

  /** The i-th header of the list points to the following one, the last one nowhere. */
  ghost predicate Linked(list: seq<Header>, i: nat)
    requires i < |list|
    reads list
  {
    list[i].next == if i + 1 < |list| then list[i + 1] else null
  }

  /** No header is in the list twice, and each is linked. */
  ghost predicate Chain(list: seq<Header>)
    reads list
  {
    && (forall i, j | 0 <= i < j < |list| :: list[i] != list[j])
    && (forall i: nat | i < |list| :: Linked(list, i))
  }

  class EventQueue {
    var status: nat
    var head: Header?
    var tail: Header?
    ghost var list: seq<Header>

    ghost predicate Valid()
      reads this, list
    {
      && Chain(list)
      && head == (if list == [] then null else list[0])
      && tail == if list == [] then null else list[|list| - 1]
    }

    ghost function Contents(): Queue<Header>
      reads this
    {
      Queue(status, list)
    }

    /** queue_init with the status odp_queue_create gives: ready, or not scheduled yet. */
    constructor (scheduled: bool)
      ensures Valid() && Contents() == Queue(if scheduled then NOTSCHED else READY, [])
    {
      status := if scheduled then NOTSCHED else READY;
      head, tail, list := null, null, [];
    }

    /** queue_enq: 0 or -1, and whether the caller is to schedule the queue. */
    method EnqOne(hdr: Header) returns (ret: int, sched: bool)
      requires Valid() && hdr !in list
      modifies this, hdr, list
      ensures Valid() && (Contents(), ret == 0, sched) == Enq(old(Contents()), [hdr])
      ensures ret == 0 || ret == -1
    {
      if status < READY {
        return -1, false;
      }
      ghost var was := list;
      DistinctJoin(was, [hdr]);
      if head == null {
        head := hdr;
        tail := hdr;
        hdr.next := null;
      } else {
        tail.next := hdr;
        tail := hdr;
        hdr.next := null;
      }
      list := was + [hdr];
      sched := false;
      if status == NOTSCHED {
        status := SCHED;
        sched := true;
      }
      ret := 0;
      forall i: nat | i < |list| ensures Linked(list, i) {
        assert i < |was| ==> old(Linked(was, i));
      }
    }

    /** queue_enq_multi: links the given headers, then appends them all. */
    method EnqMany(hdrs: seq<Header>) returns (ret: int, sched: bool)
      requires Valid() && |hdrs| >= 1
      requires forall i, j | 0 <= i < j < |hdrs| :: hdrs[i] != hdrs[j]
      requires forall h | h in hdrs :: h !in list
      modifies this, hdrs, list
      ensures Valid() && (Contents(), ret >= 0, sched) == Enq(old(Contents()), hdrs)
      ensures ret == if old(status) < READY then -1 else |hdrs|
    {
      LinkAll(hdrs);
      ghost var was := list;
      forall i: nat | i < |was| ensures Linked(was, i) {
        assert old(Linked(was, i));
        assert was[i] !in hdrs;
      }
      if status < READY {
        return -1, false;
      }
      DistinctJoin(was, hdrs);
      label Joining:
      if head == null {
        head := hdrs[0];
      } else {
        tail.next := hdrs[0];
      }
      tail := hdrs[|hdrs| - 1];
      list := was + hdrs;
      sched := false;
      if status == NOTSCHED {
        status := SCHED;
        sched := true;
      }
      ret := |hdrs|;
      forall i: nat | i < |list| ensures Linked(list, i) {
        if i < |was| {
          assert old@Joining(Linked(was, i));
        } else {
          assert old@Joining(Linked(hdrs, i - |was|));
          assert hdrs[i - |was|] in hdrs;
        }
      }
    }

    /** queue_deq. */
    method DeqOne() returns (hdr: Header?)
      requires Valid()
      modifies this, list
      ensures Valid() && old(Valid())
      ensures (Contents(), if hdr == null then [] else [hdr]) == Deq(old(Contents()))
      ensures hdr != null ==> hdr.next == null && hdr !in list
    {
      if head == null {
        if status == SCHED {
          status := NOTSCHED;
        }
        return null;
      }
      ghost var was := list;
      assert Linked(was, 0);
      hdr := head;
      head := hdr.next;
      hdr.next := null;
      if head == null {
        tail := null;
      }
      list := was[1..];
      forall i: nat | i < |list| ensures Linked(list, i) {
        assert old(Linked(was, i + 1));
      }
    }

    /** queue_deq_multi: fills `out` from the front, and returns how many, or -1 for a queue out of use. */
    method DeqMany(out: array<Header?>, num: nat) returns (ret: int)
      requires Valid() && num <= out.Length
      modifies this, list, out
      ensures Valid()
      ensures var (q, ok, taken) := DeqMulti(old(Contents()), num);
              Contents() == q && ret == (if ok then |taken| else -1) && out[..|taken|] == taken
      ensures forall i | 0 <= i < ret :: out[i] != null && out[i].next == null && out[i] !in list
    {
      if status < READY {
        return -1;
      }
      var hdr := head;
      if hdr == null {
        if status == SCHED {
          status := NOTSCHED;
        }
        return 0;
      }
      ghost var was := list;
      var i, rest := Unlink(was, hdr, out, num);
      head := rest;
      if rest == null {
        tail := null;
      }
      list := was[i..];
      ret := i;
    }
  }

  lemma DistinctJoin(a: seq<Header>, b: seq<Header>)
    requires forall i, j | 0 <= i < j < |a| :: a[i] != a[j]
    requires forall i, j | 0 <= i < j < |b| :: b[i] != b[j]
    requires forall h | h in b :: h !in a
    ensures var c := a + b; forall i, j | 0 <= i < j < |c| :: c[i] != c[j]
  {
    var c := a + b;
    forall i, j | 0 <= i < j < |c| ensures c[i] != c[j] {
      if i < |a| <= j {
        assert c[j] in b && c[i] in a;
      }
    }
  }

  /** The loop that takes up to num headers off the front of a chain, and what is left of it. */
  method Unlink(ghost list: seq<Header>, first: Header?, out: array<Header?>, num: nat)
    returns (i: nat, rest: Header?)
    requires Chain(list) && num <= out.Length && first == if list == [] then null else list[0]
    modifies list, out
    ensures i == Min(num, |list|) && out[..i] == list[..i]
    ensures rest == if i < |list| then list[i] else null
    ensures forall k | 0 <= k < i :: list[k].next == null && list[k] !in list[i..]
    ensures Chain(list[i..])
  {
    i, rest := 0, first;
    while i < num && rest != null
      invariant 0 <= i <= num && i <= |list|
      invariant rest == if i < |list| then list[i] else null
      invariant forall k | 0 <= k < i :: out[k] == list[k] && list[k].next == null
      invariant forall k | i <= k < |list| :: list[k].next == old(list[k].next)
    {
      assert old(Linked(list, i));
      out[i] := rest;
      rest := rest.next;
      out[i].next := null;
      i := i + 1;
    }
    forall k: nat | k < |list[i..]| ensures Linked(list[i..], k) {
      assert old(Linked(list, i + k));
    }
  }

  /** The loop that links an array of headers into a chain. */
  method LinkAll(hdrs: seq<Header>)
    requires |hdrs| >= 1
    requires forall i, j | 0 <= i < j < |hdrs| :: hdrs[i] != hdrs[j]
    modifies hdrs
    ensures Chain(hdrs)
  {
    var i := 0;
    while i < |hdrs| - 1
      invariant 0 <= i <= |hdrs| - 1
      invariant forall k | 0 <= k < i :: hdrs[k].next == hdrs[k + 1]
    {
      hdrs[i].next := hdrs[i + 1];
      i := i + 1;
    }
    hdrs[|hdrs| - 1].next := null;
    forall k: nat | k < |hdrs| ensures Linked(hdrs, k) {
      assert k < |hdrs| - 1 ==> hdrs[k].next == hdrs[k + 1];
    }
  }
}
