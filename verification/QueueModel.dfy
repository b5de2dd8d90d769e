/** An event queue as a value: its status and its events in order, and what each lock-protected body does to them. */
module QueueModel {

  const FREE: nat := 0
  const DESTROYED: nat := 1
  const READY: nat := 2
  const NOTSCHED: nat := 3
  const SCHED: nat := 4

  datatype Queue<T> = Queue(status: nat, events: seq<T>)

  /** queue_enq and queue_enq_multi: the new queue, whether it was accepted, and whether it is to be scheduled now. */
  function Enq<T>(q: Queue<T>, evs: seq<T>): (r: (Queue<T>, bool, bool))
    ensures r.1 <==> q.status >= READY
    ensures r.1 ==> r.0.events == q.events + evs
    ensures r.1 ==> r.0.status == if q.status == NOTSCHED then SCHED else q.status
    ensures r.2 <==> q.status == NOTSCHED && r.0.status == SCHED
    ensures !r.1 ==> r.0 == q
  {
    if q.status < READY then (q, false, false)
    else if q.status == NOTSCHED then (Queue(SCHED, q.events + evs), true, true)
    else (q.(events := q.events + evs), true, false)
  }

  /** A queue found empty goes out of scheduling. */
  function FoundEmpty<T>(q: Queue<T>): Queue<T> {
    if q.status == SCHED then q.(status := NOTSCHED) else q
  }

  /** queue_deq: the new queue and the events taken, one or none. */
  function Deq<T>(q: Queue<T>): (r: (Queue<T>, seq<T>))
    ensures |r.1| <= 1 && q.events == r.1 + r.0.events
    ensures r.1 == [] <==> q.events == []
    ensures r.0.status == if q.events == [] && q.status == SCHED then NOTSCHED else q.status
  {
    if q.events == [] then (FoundEmpty(q), [])
    else (q.(events := q.events[1..]), [q.events[0]])
  }

  function Min(a: nat, b: nat): nat {
    if a < b then a else b
  }

  /** queue_deq_multi: the new queue, whether the status allowed it, and the events taken, at most num. */
  function DeqMulti<T>(q: Queue<T>, num: nat): (r: (Queue<T>, bool, seq<T>))
    ensures r.1 <==> q.status >= READY
    ensures q.events == r.2 + r.0.events && |r.2| <= num
    ensures r.1 && r.0.events != [] ==> |r.2| == num
    ensures r.0.status == if q.events == [] && q.status == SCHED then NOTSCHED else q.status
  {
    if q.status < READY then (q, false, [])
    else if q.events == [] then (FoundEmpty(q), true, [])
    else
      var n := Min(num, |q.events|);
      (q.(events := q.events[n..]), true, q.events[..n])
  }
}
