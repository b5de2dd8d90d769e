/** The timer pool of odp_timer.c: the code that changes it in place, against the functions of TimerModel. */
module Timers {
  import opened Options
  import opened TimerModel

  class TimerPool {
    var curTick: nat
    const minRel: nat
    const maxRel: nat
    const tickBuf: array<TickBuf>
    const timers: array<Timer>
    var highWm: nat
    var numAlloc: nat
    var firstFree: nat
    var headers: map<Buf, Header>
    var inFlight: map<Buf, nat>
    const timeouts: set<Buf>

    ghost predicate Valid()
      reads this
    {
      tickBuf.Length == timers.Length && highWm <= tickBuf.Length
    }

    /** The pool as a value. */
    ghost function Abs(): Pool
      reads this, tickBuf, timers
    {
      Pool(curTick, minRel, maxRel, tickBuf[..], timers[..], highWm, numAlloc, firstFree, headers, inFlight, timeouts)
    }

    /** odp_timer_pool_new: the limits become ticks, and the free list runs through all timers in order. */
    constructor (numTimers: nat, resNs: nat, minTmo: nat, maxTmo: nat, headers: map<Buf, Header>, timeouts: set<Buf>)
      requires resNs > 0
      ensures Valid() && fresh(tickBuf) && fresh(timers)
      ensures Abs().minRel == minTmo / resNs && Abs().maxRel == maxTmo / resNs
      ensures |Abs().timers| == numTimers && Abs().headers == headers && Abs().timeouts == timeouts
      ensures InTime(Abs()) ==> Init(NewWorld(Abs()))
    {
      this.curTick, this.minRel, this.maxRel := 0, minTmo / resNs, maxTmo / resNs;
      this.numAlloc, this.highWm, this.firstFree := 0, 0, 0;
      this.tickBuf := new TickBuf[numTimers](_ => TickBuf(0, None));
      this.timers := new Timer[numTimers](_ => Timer(0, 0));
      this.headers, this.inFlight, this.timeouts := headers, map[], timeouts;
      new;
      var i := 0;
      while i < numTimers
        modifies tickBuf, timers
        invariant 0 <= i <= numTimers
        invariant forall k | 0 <= k < i :: timers[k] == Timer(k + 1, 0) && tickBuf[k] == TickBuf(TMO_UNUSED, None)
      {
        timers[i] := Timer(i + 1, 0);
        tickBuf[i] := TickBuf(TMO_UNUSED, None);
        i := i + 1;
      }
      if InTime(Abs()) {
        NewWorldInit(Abs());
      }
    }

    method Alloc(queue: nat, userPtr: nat) returns (idx: Option<nat>)
      requires Valid() && FreeLeft(Abs())
      modifies this, tickBuf, timers
      ensures Valid() && (Abs(), idx) == TimerModel.Alloc(old(Abs()), queue, userPtr)
      ensures idx.Some? <==> old(numAlloc) < timers.Length
      ensures idx.Some? ==> idx.value == old(firstFree) < timers.Length && numAlloc == old(numAlloc) + 1
      ensures idx.Some? ==> timers[..] == old(timers[..])[idx.value := Timer(queue, userPtr)]
      ensures idx.Some? ==> tickBuf[..] == old(tickBuf[..])[idx.value := TickBuf(TMO_INACTIVE, None)]
    {
      if numAlloc < timers.Length {
        numAlloc := numAlloc + 1;
        var first := firstFree;
        firstFree := timers[first].queue;
        timers[first] := timers[first].(queue := queue, userPtr := userPtr);
        tickBuf[first] := tickBuf[first].(buf := None);
        tickBuf[first] := tickBuf[first].(exp := TMO_INACTIVE);
        if numAlloc > highWm {
          highWm := numAlloc;
        }
        idx := Some(first);
        assert timers[..] == old(timers[..])[first := timers[first]];
        assert tickBuf[..] == old(tickBuf[..])[first := tickBuf[first]];
      } else {
        idx := None;
      }
    }

    /** timer_cancel. */
    method CancelTo(idx: nat, state: nat) returns (was: Option<Buf>)
      requires Valid() && idx < tickBuf.Length
      modifies tickBuf
      ensures (Abs(), was) == TimerModel.CancelTo(old(Abs()), idx, state)
      ensures was == old(tickBuf[idx]).buf && tickBuf[..] == old(tickBuf[..])[idx := TickBuf(state, None)]
    {
      tickBuf[idx] := tickBuf[idx].(exp := state);
      was := tickBuf[idx].buf;
      tickBuf[idx] := tickBuf[idx].(buf := None);
      assert tickBuf[..] == old(tickBuf[..])[idx := tickBuf[idx]];
    }

    method Free(idx: nat) returns (was: Option<Buf>)
      requires Valid() && idx < highWm && numAlloc > 0
      modifies this, tickBuf, timers
      ensures Valid() && (Abs(), was) == TimerModel.Free(old(Abs()), idx)
      ensures was == old(tickBuf[idx]).buf && tickBuf[..] == old(tickBuf[..])[idx := TickBuf(TMO_UNUSED, None)]
    {
      was := CancelTo(idx, TMO_UNUSED);
      timers[idx] := timers[idx].(userPtr := 0);
      timers[idx] := timers[idx].(queue := firstFree);
      firstFree := idx;
      numAlloc := numAlloc - 1;
      assert timers[..] == old(timers[..])[idx := timers[idx]];
    }

    /** odp_timer_cancel: whether an active timer was cancelled, and its buffer. */
    method Cancel(idx: nat) returns (cancelled: bool, was: Option<Buf>)
      requires Valid() && idx < highWm
      modifies tickBuf
      ensures Valid() && (Abs(), was) == TimerModel.CancelTo(old(Abs()), idx, TMO_INACTIVE)
      ensures cancelled == was.Some? && was == old(tickBuf[idx]).buf
      ensures tickBuf[..] == old(tickBuf[..])[idx := TickBuf(TMO_INACTIVE, None)]
    {
      was := CancelTo(idx, TMO_INACTIVE);
      cancelled := was != None;
    }

    /**
     What a set leaves behind. If it succeeds the timer has the tick asked for, with the given buffer or else the one
     it held, and the buffer it held goes back if another one was given; a timeout given names the timer. Otherwise
     nothing has changed and the given buffer goes back.
     */
    twostate predicate ArmedAsAsked(idx: nat, tick: nat, buf: Option<Buf>, ok: bool, back: Option<Buf>)
      reads this, tickBuf, timers
      requires idx < tickBuf.Length == timers.Length
    {
      var held := old(tickBuf[idx]).buf;
      if ok then
        && tickBuf[..] == old(tickBuf[..])[idx := TickBuf(tick, if buf.Some? then buf else held)]
        && back == (if buf.Some? then held else None)
        && headers.Keys == old(headers).Keys
        && forall b | b in headers ::
             headers[b] == if buf == Some(b) && b in timeouts
                           then old(headers)[b].(timer := idx, userPtr := timers[idx].userPtr) else old(headers)[b]
      else tickBuf[..] == old(tickBuf[..]) && headers == old(headers) && back == buf
    }

    /** timer_reset. */
    method Reset(idx: nat, tick: nat, buf: Option<Buf>) returns (ok: bool, back: Option<Buf>)
      requires Valid() && idx < tickBuf.Length
      modifies `headers, tickBuf
      ensures (Abs(), ok, back) == TimerModel.Reset(old(Abs()), idx, tick, buf)
      ensures ok <==> buf.Some? || old(tickBuf[idx]).buf.Some?
      ensures ArmedAsAsked(idx, tick, buf, ok, back)
    {
      ok, back := true, None;
      if buf == None {
        if tickBuf[idx].buf != None {
          tickBuf[idx] := tickBuf[idx].(exp := tick);
        } else {
          ok := false;
        }
      } else {
        if buf.value in timeouts && buf.value in headers {
          headers := headers[buf.value := headers[buf.value].(timer := idx, userPtr := timers[idx].userPtr)];
        }
        back := tickBuf[idx].buf;
        tickBuf[idx] := tickBuf[idx].(buf := buf);
        tickBuf[idx] := tickBuf[idx].(exp := tick);
      }
      assert tickBuf[..] == old(tickBuf[..])[idx := tickBuf[idx]];
    }

    method SetAbs(idx: nat, tick: nat, buf: Option<Buf>) returns (r: SetResult, back: Option<Buf>)
      requires Valid() && idx < highWm
      modifies `headers, tickBuf
      ensures Valid() && (Abs(), r, back) == TimerModel.SetAbs(old(Abs()), idx, tick, buf)
      ensures r == if tick < curTick + minRel then TooEarly else if tick > curTick + maxRel then TooLate
                   else if buf == None && old(tickBuf[idx]).buf == None then NoEvent else Success
      ensures ArmedAsAsked(idx, tick, buf, r == Success, back)
    {
      if tick < curTick + minRel {
        return TooEarly, buf;
      }
      if tick > curTick + maxRel {
        return TooLate, buf;
      }
      var ok;
      ok, back := Reset(idx, tick, buf);
      r := if ok then Success else NoEvent;
    }

    method SetRel(idx: nat, rel: nat, buf: Option<Buf>) returns (r: SetResult, back: Option<Buf>)
      requires Valid() && idx < highWm
      modifies `headers, tickBuf
      ensures Valid() && (Abs(), r, back) == TimerModel.SetRel(old(Abs()), idx, rel, buf)
      ensures r == if rel < minRel then TooEarly else if rel > maxRel then TooLate
                   else if buf == None && old(tickBuf[idx]).buf == None then NoEvent else Success
      ensures ArmedAsAsked(idx, curTick + rel, buf, r == Success, back)
    {
      var tick := curTick + rel;
      if rel < minRel {
        return TooEarly, buf;
      }
      if rel > maxRel {
        return TooLate, buf;
      }
      var ok;
      ok, back := Reset(idx, tick, buf);
      r := if ok then Success else NoEvent;
    }

    /** timer_expire: how many timeouts were posted. */
    method Expire(idx: nat, tick: nat) returns (posted: nat)
      requires Valid() && idx < tickBuf.Length
      modifies `headers, `inFlight, tickBuf
      ensures Abs() == TimerModel.Expire(old(Abs()), idx, tick)
      ensures posted == if old(tickBuf[idx]).exp <= tick && old(tickBuf[idx]).buf.Some? then 1 else 0
      ensures posted == 0 ==> Abs() == old(Abs())
      ensures posted == 1 ==>
                var b := old(tickBuf[idx]).buf.value;
                && tickBuf[idx].buf == None && inFlight == old(inFlight)[b := timers[idx].queue]
                && (b in timeouts && b in headers ==> headers[b].expiration == old(tickBuf[idx]).exp)
    {
      var exp := tickBuf[idx].exp;
      var buf := None;
      if exp <= tick {
        if tickBuf[idx].buf != None {
          buf := tickBuf[idx].buf;
          tickBuf[idx] := tickBuf[idx].(buf := None);
          tickBuf[idx] := tickBuf[idx].(exp := if exp < TMO_INACTIVE then exp + TMO_INACTIVE else exp);
        }
      }
      if buf != None {
        if buf.value in timeouts && buf.value in headers {
          headers := headers[buf.value := headers[buf.value].(expiration := exp)];
        }
        inFlight := inFlight[buf.value := timers[idx].queue];
        posted := 1;
      } else {
        posted := 0;
      }
    }

    /** odp_timer_pool_expire: every timer below the watermark is looked at once. */
    method ExpireAll(tick: nat) returns (nexp: nat)
      requires Valid()
      modifies `headers, `inFlight, tickBuf
      ensures Valid() && Abs() == Scan(old(Abs()), tick, highWm) && nexp == Due(old(Abs()), tick, highWm)
    {
      var i := 0;
      nexp := 0;
      while i < highWm
        invariant 0 <= i <= highWm
        invariant Abs() == Scan(old(Abs()), tick, i) && nexp == Due(old(Abs()), tick, i)
        invariant forall k | i <= k < tickBuf.Length :: tickBuf[k] == old(tickBuf[k])
      {
        var exp := tickBuf[i].exp;
        i := i + 1;
        if exp <= tick {
          var posted := Expire(i - 1, tick);
          nexp := nexp + posted;
        }
      }
    }

    /** timer_notify: `mayScan` says whether the lock against a scan still running was free. */
    method Notify(mayScan: bool)
      requires Valid()
      modifies `curTick, `headers, `inFlight, tickBuf
      ensures Valid() && Abs() == TimerModel.Notify(old(Abs()), mayScan) && curTick == old(curTick) + 1
    {
      var prevTick := curTick;
      curTick := curTick + 1;
      if mayScan {
        var _ := ExpireAll(prevTick);
      }
    }

    /** odp_timeout_fresh. */
    method TimeoutFresh(b: Buf) returns (isFresh: bool)
      requires Valid() && b in headers && headers[b].timer < highWm
      ensures isFresh == Fresh(Abs(), b)
    {
      var exp := tickBuf[headers[b].timer].exp;
      isFresh := headers[b].expiration == exp % TMO_INACTIVE;
    }
  }
}
