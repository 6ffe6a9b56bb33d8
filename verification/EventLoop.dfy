/** Adding, deleting and activating events, and the timeouts of an event base. */
module EventLoop {
  import opened EventQueues
  import opened Lists
  import opened Options

  /** A timeval, as microseconds, with the queue of common timeouts it is marked with. */
  datatype Tv = Tv(usec: nat, common: Option<nat>)

  // ---------------------------------------------------------------- the timers of common timeouts

  /** The internal event of a queue: never finalized, inserted or delayed, and active for its timeout only. */
  predicate TimerOk(e: Ev) {
    && e.internal && e.event && !e.finalizing && e.common.None? && !e.inserted && !e.io && !e.later
    && !e.persist && !e.closurePersist && (e.active ==> e.resTimeout)
  }

  /** A queue with events is driven: its timer is in the heap no later than its first deadline, or
      active, or its callback has been called. */
  predicate Driven(evs: seq<Ev>, ctl: Ctl, called: bool)
    requires ctl.timer < |evs|
  {
    |ctl.events| > 0 && ctl.events[0] < |evs| ==>
      || (evs[ctl.timer].timeout && evs[ctl.timer].deadline <= evs[ctl.events[0]].deadline)
      || evs[ctl.timer].active
      || called
  }

  predicate TimersOk(evs: seq<Ev>, ctls: seq<Ctl>, calling: Option<nat>) {
    && (forall c {:trigger ctls[c]} :: 0 <= c < |ctls| ==>
          && ctls[c].timer < |evs| && TimerOk(evs[ctls[c].timer])
          && Driven(evs, ctls[c], calling == Some(c)))
    && (forall c, d {:trigger ctls[c], ctls[d]} :: 0 <= c < d < |ctls| ==> ctls[c].timer != ctls[d].timer)
  }

  /** i is not the timer of a queue. */
  predicate User(ctls: seq<Ctl>, i: nat) {
    forall c {:trigger ctls[c]} :: 0 <= c < |ctls| ==> ctls[c].timer != i
  }

  ghost predicate Ok(b: EventBase)
    reads b
  {
    b.Valid() && TimersOk(b.evs, b.ctls, b.calling)
  }

  /** The first deadline of a queue has not come down. */
  predicate HeadKept(evs: seq<Ev>, q: seq<nat>, f: seq<Ev>, r: seq<nat>) {
    |r| > 0 ==> |q| > 0 && q[0] < |evs| && r[0] < |f| && evs[q[0]].deadline <= f[r[0]].deadline
  }

  /** Nor that of any queue but x. */
  predicate HeadsKept(evs: seq<Ev>, ctls: seq<Ctl>, f: seq<Ev>, cs: seq<Ctl>, x: Option<nat>) {
    && |cs| == |ctls| && |f| == |evs|
    && forall c {:trigger cs[c]} :: 0 <= c < |cs| ==>
      cs[c].timer == ctls[c].timer && (x != Some(c) ==> HeadKept(evs, ctls[c].events, f, cs[c].events))
  }

  lemma HeadsSame(evs: seq<Ev>, ctls: seq<Ctl>, i: nat, e: Ev)
    requires QueuesOk(evs, ctls) && i < |evs| && (evs[i].timeout ==> e.deadline == evs[i].deadline)
    ensures HeadsKept(evs, ctls, evs[i := e], ctls, None)
  {
    var f := evs[i := e];
    forall c {:trigger ctls[c]} | 0 <= c < |ctls| ensures HeadKept(evs, ctls[c].events, f, ctls[c].events) {
      assert QueueOk(evs, ctls[c].events, c);
      if |ctls[c].events| > 0 {
        assert ctls[c].events[0] in ctls[c].events;
      }
    }
  }

  /** Queue c without event i, or no change when i is in the heap. */
  lemma HeadsDropped(evs: seq<Ev>, ctls: seq<Ctl>, i: nat, e: Ev)
    requires QueuesOk(evs, ctls) && i < |evs| && evs[i].timeout && e == evs[i].(timeout := false)
    ensures evs[i].common.None? ==> HeadsKept(evs, ctls, evs[i := e], ctls, None)
    ensures evs[i].common.Some? ==>
              var c := evs[i].common.value;
              c < |ctls| && HeadsKept(evs, ctls, evs[i := e], ctls[c := ctls[c].(events := Drop(ctls[c].events, i))], None)
  {
    var f, d := evs[i := e], evs[i].common;
    var cs := if d.None? then ctls else ctls[d.value := ctls[d.value].(events := Drop(ctls[d.value].events, i))];
    forall c {:trigger cs[c]} | 0 <= c < |cs| ensures HeadKept(evs, ctls[c].events, f, cs[c].events) {
      var q, r := ctls[c].events, cs[c].events;
      assert QueueOk(evs, q, c);
      DropSorted(evs, q, i);
      hide Drop, Sorted, NoDuplicates;
      if |r| > 0 {
        assert r[0] in r && q[0] in q;
        assert r[0] < |evs| && q[0] < |evs|;
      }
    }
  }

  lemma HeadInserted(evs: seq<Ev>, o: seq<nat>, i: nat, e: Ev, c: nat, q: seq<nat>)
    requires QueueOk(evs, o, c) && i < |evs| && !evs[i].timeout && Inserted(evs, o, i, q)
    ensures |q| > 0 && (q[0] != i ==> HeadKept(evs, o, evs[i := e], q))
  {
    hide NoDuplicates;
    var k :| 0 <= k <= |o| && q == o[..k] + [i] + o[k..] && InPlace(evs, o, i, k);
    if k > 0 {
      assert q[0] == o[0] && o[0] in o;
    }
  }

  lemma HeadSame(evs: seq<Ev>, o: seq<nat>, i: nat, e: Ev, c: nat)
    requires QueueOk(evs, o, c) && i < |evs| && !evs[i].timeout
    ensures HeadKept(evs, o, evs[i := e], o)
  {
    hide NoDuplicates;
    if |o| > 0 {
      assert o[0] in o;
    }
  }

  /** Queue c with event i inserted: only the insertion at its front can bring its first deadline down. */
  lemma HeadsInserted(evs: seq<Ev>, ctls: seq<Ctl>, i: nat, e: Ev, c: nat, q: seq<nat>)
    requires QueuesOk(evs, ctls) && i < |evs| && c < |ctls| && !evs[i].timeout && evs[i].common == Some(c)
    requires e == evs[i].(timeout := true) && Inserted(evs, ctls[c].events, i, q)
    ensures |q| > 0
    ensures HeadsKept(evs, ctls, evs[i := e], ctls[c := ctls[c].(events := q)], if q[0] == i then Some(c) else None)
  {
    hide QueueOk, HeadKept, Inserted;
    var f, cs := evs[i := e], ctls[c := ctls[c].(events := q)];
    assert QueueOk(evs, ctls[c].events, c);
    HeadInserted(evs, ctls[c].events, i, e, c, q);
    forall d {:trigger cs[d]} | 0 <= d < |cs|
      ensures !(d == c && q[0] == i) ==> HeadKept(evs, ctls[d].events, f, cs[d].events)
    {
      assert QueueOk(evs, ctls[d].events, d);
      if d != c {
        HeadSame(evs, ctls[d].events, i, e, d);
      }
    }
  }

  lemma HeadsTrans(evs: seq<Ev>, ctls: seq<Ctl>, f: seq<Ev>, cs: seq<Ctl>, g: seq<Ev>, ds: seq<Ctl>, x: Option<nat>)
    requires HeadsKept(evs, ctls, f, cs, None) && HeadsKept(f, cs, g, ds, x)
    ensures HeadsKept(evs, ctls, g, ds, x)
  {
    forall c {:trigger ds[c]} | 0 <= c < |ds|
      ensures ds[c].timer == ctls[c].timer && (x != Some(c) ==> HeadKept(evs, ctls[c].events, g, ds[c].events))
    {
      assert cs[c].timer == ctls[c].timer;
    }
  }

  /** As long as no first deadline comes down, timers that stay as they are keep driving their queues. */
  lemma TimersKept(evs: seq<Ev>, ctls: seq<Ctl>, calling: Option<nat>, i: nat, e: Ev, cs: seq<Ctl>)
    requires TimersOk(evs, ctls, calling) && i < |evs| && User(ctls, i)
    requires HeadsKept(evs, ctls, evs[i := e], cs, None)
    ensures TimersOk(evs[i := e], cs, calling) && User(cs, i)
  {
    var f := evs[i := e];
    forall c {:trigger cs[c]} | 0 <= c < |cs|
      ensures cs[c].timer < |f| && TimerOk(f[cs[c].timer]) && Driven(f, cs[c], calling == Some(c)) && cs[c].timer != i
    {
      assert cs[c].timer == ctls[c].timer;
    }
    forall c, d {:trigger cs[c], cs[d]} | 0 <= c < d < |cs| ensures cs[c].timer != cs[d].timer {
      assert cs[c].timer == ctls[c].timer && cs[d].timer == ctls[d].timer;
    }
  }

  // ---------------------------------------------------------------- deleting and activating

  lemma Unchanged(evs: seq<Ev>, i: nat, e: Ev)
    requires i < |evs| && evs[i] == e
    ensures evs[i := e] == evs
  {
  }

  /** An event in no queue at all. */
  function Idle(e: Ev): Ev {
    e.(timeout := false, inserted := false, active := false, later := false)
  }

  lemma Twice(evs: seq<Ev>, i: nat, a: Ev, b: Ev)
    requires i < |evs|
    ensures evs[i := a][i := b] == evs[i := b]
  {
  }

  /** Takes event i out of the heap or its queue of timeouts, if it is in one. */
  method DropTimeout(b: EventBase, i: nat)
    requires b.Valid() && i < |b.evs|
    modifies b`evs, b`heap, b`ctls, b`eventCount
    ensures b.Valid() && b.evs == old(b.evs)[i := old(b.evs)[i].(timeout := false)] && b.heap == old(b.heap) - {i}
    ensures |b.ctls| == |old(b.ctls)| && HeadsKept(old(b.evs), old(b.ctls), b.evs, b.ctls, None)
    ensures old(b.evs)[i].common.None? ==> b.ctls == old(b.ctls)
  {
    hide ActivesOk, LaterOk, EvsOk, Sum, Lengths, HeadsKept;
    NotInHeap(b.evs, b.heap, i);
    if b.evs[i].timeout {
      HeadsDropped(b.evs, b.ctls, i, b.evs[i].(timeout := false));
      hide HeapOk, QueuesOk;
      b.RemoveTimeout(i);
    } else {
      HeadsSame(b.evs, b.ctls, i, b.evs[i]);
      Unchanged(b.evs, i, b.evs[i].(timeout := false));
    }
  }

  /** Takes callback i out of every other queue. */
  method Unqueue(b: EventBase, i: nat)
    requires b.Valid() && i < |b.evs|
    modifies b`evs, b`active, b`later, b`eventCount, b`activeCount
    ensures b.Valid() && b.evs == old(b.evs)[i := old(b.evs)[i].(active := false, later := false, inserted := false)]
  {
    hide HeapOk, QueuesOk, ActivesOk, LaterOk, Sum, Lengths, EvsOk;
    NotBoth(b.evs, i);
    var inserted := b.evs[i].inserted;
    if b.evs[i].active {
      b.RemoveActive(i);
    } else if b.evs[i].later {
      b.RemoveLater(i);
    }
    assert b.evs == old(b.evs)[i := old(b.evs)[i].(active := false, later := false)];
    if inserted {
      b.RemoveInserted(i);
    }
  }

  /** event_del_nolock_, without its waiting. */
  method EventDel(b: EventBase, i: nat, evenIfFinalizing: bool)
    requires b.Valid() && i < |b.evs|
    modifies b`evs, b`heap, b`ctls, b`active, b`later, b`eventCount, b`activeCount
    ensures b.Valid()
    ensures old(b.evs)[i].finalizing && !evenIfFinalizing ==> b.evs == old(b.evs) && b.ctls == old(b.ctls) && b.heap == old(b.heap)
    ensures !old(b.evs)[i].finalizing || evenIfFinalizing ==>
              b.evs == old(b.evs)[i := Idle(old(b.evs)[i])] && b.heap == old(b.heap) - {i}
    ensures !old(b.evs)[i].finalizing || evenIfFinalizing ==>
              b.evs[i] == old(b.evs)[i].(timeout := false, inserted := false, active := false, later := false)
    ensures HeadsKept(old(b.evs), old(b.ctls), b.evs, b.ctls, None)
  {
    hide HeapOk, QueuesOk, ActivesOk, LaterOk, EvsOk, Sum, Lengths, HeadsKept;
    HeadsSame(b.evs, b.ctls, i, b.evs[i]);
    assert b.evs[i := b.evs[i]] == b.evs;
    if b.evs[i].finalizing && !evenIfFinalizing {
      return;
    }
    ghost var evs0, ctls0 := b.evs, b.ctls;
    Twice(evs0, i, evs0[i].(timeout := false), Idle(evs0[i]));
    DropTimeout(b, i);
    ghost var evs1, ctls1 := b.evs, b.ctls;
    HeadsSame(evs1, ctls1, i, Idle(evs1[i]));
    HeadsTrans(evs0, ctls0, evs1, ctls1, evs1[i := Idle(evs1[i])], ctls1, None);
    Unqueue(b, i);
  }

  lemma NotInHeap(evs: seq<Ev>, heap: set<nat>, i: nat)
    requires HeapOk(evs, heap) && i < |evs|
    ensures i in heap <==> evs[i].timeout && evs[i].common.None?
    ensures i !in heap ==> heap - {i} == heap
  {
  }

  lemma NeverBoth(b: EventBase, i: nat)
    requires b.Valid() && i < |b.evs|
    ensures EvOk(b.evs[i]) && !(b.evs[i].active && b.evs[i].later)
  {
    NotBoth(b.evs, i);
  }

  lemma NotBoth(evs: seq<Ev>, i: nat)
    requires EvsOk(evs) && i < |evs|
    ensures EvOk(evs[i]) && !(evs[i].active && evs[i].later)
  {
  }

  /** event_callback_activate_nolock_: 1 if the callback was not queued before. */
  method CallbackActivate(b: EventBase, i: nat) returns (r: nat)
    requires b.Valid() && i < |b.evs|
    modifies b`evs, b`active, b`later, b`eventCount, b`activeCount
    ensures b.Valid()
    ensures old(b.evs)[i].finalizing ==> b.evs == old(b.evs)
    ensures !old(b.evs)[i].finalizing ==> b.evs == old(b.evs)[i := old(b.evs)[i].(later := false, active := true)]
    ensures r == Bit(!old(b.evs)[i].finalizing && !old(b.evs)[i].active && !old(b.evs)[i].later)
  {
    hide b.Valid;
    r := 1;
    NeverBoth(b, i);
    if b.evs[i].finalizing {
      return 0;
    }
    if b.evs[i].later {
      b.RemoveLater(i);
      r := 0;
    } else if b.evs[i].active {
      assert b.evs == b.evs[i := b.evs[i].(later := false, active := true)];
      return 0;
    }
    b.InsertActive(i);
  }

  /** What an event's results are when it becomes active once more: a timeout is noted, and one noted before stays
      as long as the event is active or due. */
  function Result(e: Ev, isTimeout: bool): (r: bool)
    ensures r <==> isTimeout || (e.resTimeout && (e.active || e.later))
  {
    if e.active || e.later then e.resTimeout || isTimeout else isTimeout
  }

  /** event_active_nolock_, without its waiting. */
  method EventActive(b: EventBase, i: nat, isTimeout: bool)
    requires b.Valid() && i < |b.evs|
    modifies b`evs, b`active, b`later, b`eventCount, b`activeCount
    ensures b.Valid()
    ensures old(b.evs)[i].finalizing ==> b.evs == old(b.evs)
    ensures var e := old(b.evs)[i];
            !e.finalizing ==> b.evs == old(b.evs)[i := e.(later := false, active := true, resTimeout := Result(e, isTimeout))]
  {
    hide b.Valid;
    NeverBoth(b, i);
    if b.evs[i].finalizing {
      return;
    }
    b.Amend(i, b.evs[i].(resTimeout := Result(b.evs[i], isTimeout)));
    if b.evs[i].active {
      assert b.evs[i] == b.evs[i].(later := false, active := true);
      return;
    }
    var _ := CallbackActivate(b, i);
  }

  /** event_active_later_nolock_ */
  method EventActiveLater(b: EventBase, i: nat, isTimeout: bool)
    requires b.Valid() && i < |b.evs|
    modifies b`evs, b`later, b`eventCount, b`activeCount
    ensures b.Valid()
    ensures var e := old(b.evs)[i];
            b.evs == old(b.evs)[i := e.(later := e.later || !e.active, resTimeout := Result(e, isTimeout))]
  {
    hide b.Valid;
    NeverBoth(b, i);
    b.Amend(i, b.evs[i].(resTimeout := Result(b.evs[i], isTimeout)));
    if b.evs[i].active || b.evs[i].later {
      return;
    }
    b.InsertLater(i);
  }

  // ---------------------------------------------------------------- adding

  /** An event that waits for a timeout; a timeout that was due is withdrawn from the active queue. */
  function Waiting(e: Ev, deadline: int, common: Option<nat>, interval: nat, intervalCommon: Option<nat>): Ev {
    e.(timeout := true, active := e.active && !e.resTimeout, deadline := deadline, common := common,
       interval := interval, intervalCommon := intervalCommon)
  }

  /** The part of event_add_nolock_ that deals with the timeout: whether the event is first in its queue. */
  method AddTimeout(b: EventBase, i: nat, deadline: int, common: Option<nat>, interval: nat, intervalCommon: Option<nat>)
    returns (first: bool)
    requires b.Valid() && i < |b.evs| && !b.evs[i].finalizing && b.evs[i].event
    requires common.Some? ==> common.value < |b.ctls|
    requires b.evs[i].closurePersist ==> common == intervalCommon
    modifies b`evs, b`heap, b`ctls, b`active, b`eventCount, b`activeCount
    ensures b.Valid() && b.evs == old(b.evs)[i := Waiting(old(b.evs)[i], deadline, common, interval, intervalCommon)]
    ensures common.None? ==> !first && HeadsKept(old(b.evs), old(b.ctls), b.evs, b.ctls, None)
    ensures common.None? && old(b.evs)[i].common.None? ==> b.ctls == old(b.ctls)
    ensures common.Some? ==>
              && common.value < |b.ctls| && |b.ctls[common.value].events| > 0
              && first == (b.ctls[common.value].events[0] == i)
              && HeadsKept(old(b.evs), old(b.ctls), b.evs, b.ctls, if first then common else None)
  {
    hide HeapOk, QueuesOk, ActivesOk, LaterOk, Sum, Lengths, HeadsKept, EvsOk, Waiting;
    ghost var e := Waiting(b.evs[i], deadline, common, interval, intervalCommon);
    WaitingFacts(b.evs[i], deadline, common, interval, intervalCommon);
    Twice(b.evs, i, e.(timeout := false), e);
    Prepare(b, i, deadline, common, interval, intervalCommon);
    ghost var evs1, ctls1 := b.evs, b.ctls;
    first := InsertWaiting(b, i);
    HeadsTrans(old(b.evs), old(b.ctls), evs1, ctls1, b.evs, b.ctls, if first then common else None);
  }

  /** Takes event i out of the timeouts, and out of the active queue if it is there for its timeout, and
      sets its deadline. */
  method Prepare(b: EventBase, i: nat, deadline: int, common: Option<nat>, interval: nat, intervalCommon: Option<nat>)
    requires b.Valid() && i < |b.evs| && (common.Some? ==> common.value < |b.ctls|)
    requires b.evs[i].closurePersist ==> common == intervalCommon
    modifies b`evs, b`heap, b`ctls, b`active, b`eventCount, b`activeCount
    ensures b.Valid() && |b.ctls| == |old(b.ctls)|
    ensures b.evs == old(b.evs)[i := Waiting(old(b.evs)[i], deadline, common, interval, intervalCommon).(timeout := false)]
    ensures old(b.evs)[i].common.None? ==> b.ctls == old(b.ctls)
    ensures HeadsKept(old(b.evs), old(b.ctls), b.evs, b.ctls, None)
  {
    hide HeapOk, ActivesOk, LaterOk, Sum, Lengths, HeadsKept, EvsOk, Waiting;
    ghost var e := Waiting(b.evs[i], deadline, common, interval, intervalCommon).(timeout := false);
    WaitingFacts(b.evs[i], deadline, common, interval, intervalCommon);
    Twice(b.evs, i, b.evs[i].(timeout := false), e);
    DropTimeout(b, i);
    ghost var evs1, ctls1 := b.evs, b.ctls;
    HeadsSame(evs1, ctls1, i, e);
    hide QueuesOk;
    Redate(b, i, deadline, common, interval, intervalCommon);
    HeadsTrans(old(b.evs), old(b.ctls), evs1, ctls1, b.evs, b.ctls, None);
  }

  lemma WaitingFacts(e: Ev, deadline: int, common: Option<nat>, interval: nat, intervalCommon: Option<nat>)
    ensures var w := Waiting(e, deadline, common, interval, intervalCommon);
            && Waiting(e.(timeout := false), deadline, common, interval, intervalCommon).(timeout := false) == w.(timeout := false)
            && w.(timeout := false).(timeout := true) == w
            && w.common == common && w.event == e.event && w.finalizing == e.finalizing
  {
  }

  /** The same for an event that is in no queue of timeouts. */
  method Redate(b: EventBase, i: nat, deadline: int, common: Option<nat>, interval: nat, intervalCommon: Option<nat>)
    requires b.Valid() && i < |b.evs| && (common.Some? ==> common.value < |b.ctls|) && !b.evs[i].timeout
    requires b.evs[i].closurePersist ==> common == intervalCommon
    modifies b`evs, b`active, b`eventCount, b`activeCount
    ensures b.Valid()
    ensures b.evs == old(b.evs)[i := Waiting(old(b.evs)[i], deadline, common, interval, intervalCommon).(timeout := false)]
  {
    hide HeapOk, QueuesOk, ActivesOk, LaterOk, Sum, Lengths, EvsOk, Waiting;
    ghost var e1, e2 := WaitingStep(b.evs[i], deadline, common, interval, intervalCommon);
    Twice(b.evs, i, e1, e2);
    WithdrawDue(b, i);
    b.SetDeadline(i, deadline, common, interval, intervalCommon);
  }

  lemma WaitingStep(e: Ev, deadline: int, common: Option<nat>, interval: nat, intervalCommon: Option<nat>) returns (e1: Ev, e2: Ev)
    requires !e.timeout
    ensures e1 == e.(active := e.active && !e.resTimeout)
    ensures e2 == e1.(deadline := deadline, common := common, interval := interval, intervalCommon := intervalCommon)
    ensures e2 == Waiting(e, deadline, common, interval, intervalCommon).(timeout := false)
  {
    e1 := e.(active := e.active && !e.resTimeout);
    e2 := e1.(deadline := deadline, common := common, interval := interval, intervalCommon := intervalCommon);
  }

  /** Takes event i out of the active queue if it is there for its timeout. */
  method WithdrawDue(b: EventBase, i: nat)
    requires b.Valid() && i < |b.evs|
    modifies b`evs, b`active, b`eventCount, b`activeCount
    ensures b.Valid() && b.evs == old(b.evs)[i := old(b.evs)[i].(active := old(b.evs)[i].active && !old(b.evs)[i].resTimeout)]
  {
    hide HeapOk, QueuesOk, ActivesOk, LaterOk, Sum, Lengths, EvsOk;
    if b.evs[i].active && b.evs[i].resTimeout {
      b.RemoveActive(i);
    }
  }

  /** event_queue_insert_timeout, and whether the event is now first in a queue of common timeouts. */
  method InsertWaiting(b: EventBase, i: nat) returns (first: bool)
    requires b.Valid() && i < |b.evs| && !b.evs[i].timeout && !b.evs[i].finalizing && b.evs[i].event
    modifies b`evs, b`eventCount, b`heap, b`ctls
    ensures b.Valid() && b.evs == old(b.evs)[i := old(b.evs)[i].(timeout := true)]
    ensures b.evs[i].common.None? ==> !first && HeadsKept(old(b.evs), old(b.ctls), b.evs, b.ctls, None) && b.ctls == old(b.ctls)
    ensures b.evs[i].common.Some? ==>
              var c := b.evs[i].common.value;
              && c < |b.ctls| && |b.ctls[c].events| > 0 && first == (b.ctls[c].events[0] == i)
              && HeadsKept(old(b.evs), old(b.ctls), b.evs, b.ctls, if first then Some(c) else None)
  {
    HeadsSame(b.evs, b.ctls, i, b.evs[i].(timeout := true));
    hide HeapOk, ActivesOk, LaterOk, Sum, Lengths, EvsOk, HeadsKept, Inserted;
    b.InsertTimeout(i);
    first := false;
    match b.evs[i].common {
      case Some(c) =>
        HeadsInserted(old(b.evs), old(b.ctls), i, b.evs[i], c, b.ctls[c].events);
        first := b.ctls[c].events[0] == i;
      case None =>
    }
  }

  predicate SameTimers(ctls: seq<Ctl>, cs: seq<Ctl>) {
    |cs| == |ctls| && forall d {:trigger cs[d]} :: 0 <= d < |cs| ==> cs[d].timer == ctls[d].timer
  }

  /** No event of a user other than i has changed. */
  predicate OthersSame(evs: seq<Ev>, f: seq<Ev>, ctls: seq<Ctl>, i: nat) {
    |f| == |evs| && forall k {:trigger f[k]} :: 0 <= k < |f| && k != i && User(ctls, k) ==> f[k] == evs[k]
  }

  lemma SameTrans(ctls: seq<Ctl>, cs: seq<Ctl>, ds: seq<Ctl>, i: nat)
    requires SameTimers(ctls, cs) && SameTimers(cs, ds)
    ensures SameTimers(ctls, ds) && User(ctls, i) == User(ds, i)
  {
    forall d {:trigger ds[d]} | 0 <= d < |ds| ensures ds[d].timer == ctls[d].timer {
      assert cs[d].timer == ctls[d].timer;
    }
    assert forall d {:trigger ctls[d]} :: 0 <= d < |ctls| ==> ds[d].timer == ctls[d].timer;
  }

  lemma OthersTrans(evs: seq<Ev>, f: seq<Ev>, g: seq<Ev>, ctls: seq<Ctl>, i: nat)
    requires OthersSame(evs, f, ctls, i) && OthersSame(f, g, ctls, i)
    ensures OthersSame(evs, g, ctls, i)
  {
    hide User;
    forall k {:trigger g[k]} | 0 <= k < |g| && k != i && User(ctls, k) ensures g[k] == evs[k] {
      assert f[k] == evs[k];
    }
  }

  /** A change of event i of a user that may bring the first deadline of queue c down. */
  lemma AlmostKept(evs: seq<Ev>, ctls: seq<Ctl>, calling: Option<nat>, i: nat, e: Ev, cs: seq<Ctl>, c: nat)
    requires TimersOk(evs, ctls, calling) && i < |evs| && User(ctls, i)
    requires HeadsKept(evs, ctls, evs[i := e], cs, Some(c)) || HeadsKept(evs, ctls, evs[i := e], cs, None)
    ensures AlmostDriven(evs[i := e], cs, calling, c) && SameTimers(ctls, cs) && User(cs, i)
    ensures OthersSame(evs, evs[i := e], cs, i)
  {
    var f := evs[i := e];
    forall d {:trigger cs[d]} | 0 <= d < |cs|
      ensures cs[d].timer < |f| && TimerOk(f[cs[d].timer]) && (d != c ==> Driven(f, cs[d], calling == Some(d))) && cs[d].timer != i
    {
      assert cs[d].timer == ctls[d].timer;
    }
    forall d, g {:trigger cs[d], cs[g]} | 0 <= d < g < |cs| ensures cs[d].timer != cs[g].timer {
      assert cs[d].timer == ctls[d].timer && cs[g].timer == ctls[g].timer;
    }
  }

  /** common_timeout_schedule: the timer of queue c is put into the heap for the first event of the queue.
      Afterwards the queue is driven, whatever happened to the timer before. */
  method Schedule(b: EventBase, c: nat)
    requires b.Valid() && c < |b.ctls| && |b.ctls[c].events| > 0
    requires AlmostDriven(b.evs, b.ctls, b.calling, c)
    modifies b`evs, b`heap, b`ctls, b`active, b`eventCount, b`activeCount
    ensures Ok(b) && b.ctls == old(b.ctls) && |b.evs| == |old(b.evs)| && OthersSame(old(b.evs), b.evs, b.ctls, |b.evs|)
    ensures b.ctls[c].events[0] < |b.evs| && b.ctls[c].events[0] < |old(b.evs)|
    ensures b.evs[b.ctls[c].events[0]] == old(b.evs)[b.ctls[c].events[0]]
  {
    hide HeapOk, QueuesOk, ActivesOk, LaterOk, Sum, Lengths, HeadsKept, EvsOk, Waiting;
    var t, head := b.ctls[c].timer, b.ctls[c].events[0];
    assert |b.ctls[c].events| > 0 && b.ctls[c].timer < |b.evs| && TimerOk(b.evs[t]);
    HeadInRange(b.evs, b.ctls, c);
    ghost var evs0, ctls0 := b.evs, b.ctls;
    var e := b.evs[t];
    var deadline := b.evs[head].deadline;
    var _ := AddTimeout(b, t, deadline, None, e.interval, e.intervalCommon);
    Scheduled(evs0, ctls0, b.calling, c, b.ctls, Waiting(e, deadline, None, e.interval, e.intervalCommon), deadline);
  }

  /** All timers drive their queues, except perhaps that of queue c. */
  predicate AlmostDriven(evs: seq<Ev>, ctls: seq<Ctl>, calling: Option<nat>, c: nat) {
    && (forall d {:trigger ctls[d]} :: 0 <= d < |ctls| ==>
          && ctls[d].timer < |evs| && TimerOk(evs[ctls[d].timer])
          && (d != c ==> Driven(evs, ctls[d], calling == Some(d))))
    && (forall d, e {:trigger ctls[d], ctls[e]} :: 0 <= d < e < |ctls| ==> ctls[d].timer != ctls[e].timer)
  }

  lemma HeadInRange(evs: seq<Ev>, ctls: seq<Ctl>, c: nat)
    requires QueuesOk(evs, ctls) && c < |ctls| && |ctls[c].events| > 0
    ensures ctls[c].events[0] < |evs| && evs[ctls[c].events[0]].timeout && evs[ctls[c].events[0]].common == Some(c)
  {
    assert QueueOk(evs, ctls[c].events, c);
    assert ctls[c].events[0] in ctls[c].events;
  }

  lemma Scheduled(evs: seq<Ev>, ctls: seq<Ctl>, calling: Option<nat>, c: nat, cs: seq<Ctl>, e: Ev, deadline: int)
    requires AlmostDriven(evs, ctls, calling, c) && c < |ctls| && |ctls[c].events| > 0
    requires ctls[c].timer < |evs| && ctls[c].events[0] < |evs| && deadline == evs[ctls[c].events[0]].deadline
    requires var o := evs[ctls[c].timer]; e == Waiting(o, deadline, None, o.interval, o.intervalCommon)
    requires HeadsKept(evs, ctls, evs[ctls[c].timer := e], cs, None)
    ensures TimersOk(evs[ctls[c].timer := e], cs, calling) && SameTimers(ctls, cs)
    ensures OthersSame(evs, evs[ctls[c].timer := e], cs, |evs|)
  {
    var f := evs[ctls[c].timer := e];
    forall d {:trigger cs[d]} | 0 <= d < |cs|
      ensures cs[d].timer < |f| && TimerOk(f[cs[d].timer]) && Driven(f, cs[d], calling == Some(d)) && cs[d].timer == ctls[d].timer
    {
      assert cs[d].timer == ctls[d].timer;
      assert ctls[d].timer < |evs| && TimerOk(evs[ctls[d].timer]);
      if d != c {
        assert ctls[d].timer != ctls[c].timer;
      }
    }
    forall d, g {:trigger cs[d], cs[g]} | 0 <= d < g < |cs| ensures cs[d].timer != cs[g].timer {
      assert ctls[d].timer != ctls[g].timer;
    }
    assert cs[c].timer == ctls[c].timer;
  }

  // ---------------------------------------------------------------- what users ask for

  /** event_add_nolock_ for an event of a user: what the backend says goes into mapResult. */
  method EventAdd(b: EventBase, i: nat, tv: Option<Tv>, absolute: bool, now: nat, mapResult: int) returns (res: int)
    requires Ok(b) && i < |b.evs| && User(b.ctls, i) && b.evs[i].event && -1 <= mapResult <= 1
    requires tv.Some? && tv.value.common.Some? ==> tv.value.common.value < |b.ctls|
    requires tv.Some? && b.evs[i].closurePersist && absolute ==> tv.value.common == b.evs[i].intervalCommon
    modifies b`evs, b`heap, b`ctls, b`active, b`eventCount, b`activeCount
    ensures Ok(b) && User(b.ctls, i) && |b.evs| == |old(b.evs)|
    ensures old(b.evs)[i].finalizing ==> res == -1 && b.evs == old(b.evs)
    ensures !old(b.evs)[i].finalizing ==>
              var e := old(b.evs)[i];
              && (res == -1 <==> Inserting(e) && mapResult == -1) && (res == -1 ==> b.evs == old(b.evs))
              && (res != -1 ==> b.evs[i] == Added(e.(inserted := e.inserted || Inserting(e)), tv, absolute, now))
              && (res != -1 && tv.Some? ==> Timed(e, b.evs[i], tv.value, absolute, now))
    ensures SameTimers(old(b.ctls), b.ctls) && OthersSame(old(b.evs), b.evs, b.ctls, i)
  {
    hide HeapOk, QueuesOk, ActivesOk, LaterOk, Sum, Lengths, HeadsKept, EvsOk, Waiting, Added, TimersOk, User, Timed;
    res := 0;
    if b.evs[i].finalizing {
      return -1;
    }
    ghost var e0 := b.evs[i];
    if b.evs[i].io && !b.evs[i].inserted && !b.evs[i].active && !b.evs[i].later {
      res := mapResult;
      if res != -1 {
        InsertUser(b, i);
        res := 0;
      }
    }
    AddedNone(b.evs[i], absolute, now);
    if tv.Some? {
      AddedTimed(e0, e0.(inserted := e0.inserted || Inserting(e0)), tv.value, absolute, now);
    }
    if res != -1 && tv.Some? {
      AddTime(b, i, tv.value, absolute, now);
    }
  }

  lemma AddedNone(e: Ev, absolute: bool, now: nat)
    ensures Added(e, None, absolute, now) == e
  {
  }

  /** The timeout of an event of a user. */
  method AddTime(b: EventBase, i: nat, t: Tv, absolute: bool, now: nat)
    requires Ok(b) && i < |b.evs| && User(b.ctls, i) && b.evs[i].event && !b.evs[i].finalizing
    requires t.common.Some? ==> t.common.value < |b.ctls|
    requires b.evs[i].closurePersist && absolute ==> t.common == b.evs[i].intervalCommon
    modifies b`evs, b`heap, b`ctls, b`active, b`eventCount, b`activeCount
    ensures Ok(b) && User(b.ctls, i) && |b.evs| == |old(b.evs)|
    ensures b.evs[i] == Added(old(b.evs)[i], Some(t), absolute, now)
    ensures SameTimers(old(b.ctls), b.ctls) && OthersSame(old(b.evs), b.evs, b.ctls, i)
  {
    hide HeapOk, QueuesOk, ActivesOk, LaterOk, Sum, Lengths, HeadsKept, EvsOk, Waiting, Added, TimersOk, User;
    var e := b.evs[i];
    AddedIs(e, t, absolute, now);
    var interval, intervalCommon := t.usec, t.common;
    if !(e.closurePersist && !absolute) {
      interval, intervalCommon := e.interval, e.intervalCommon;
    }
    AddUserTimeout(b, i, if absolute then t.usec else now + t.usec, t.common, interval, intervalCommon);
  }

  /** Event e waits for its timeout tv: a relative one counts from now. One that was active because of a timeout
      is not active any more, and a persistent event remembers a relative timeout as its interval. */
  predicate Timed(e: Ev, f: Ev, tv: Tv, absolute: bool, now: nat) {
    && f.timeout && f.common == tv.common && f.later == e.later
    && (absolute ==> f.deadline == tv.usec) && (!absolute ==> f.deadline == now + tv.usec)
    && (f.active <==> e.active && !e.resTimeout)
    && (e.closurePersist && !absolute ==> f.interval == tv.usec && f.intervalCommon == tv.common)
    && (!(e.closurePersist && !absolute) ==> f.interval == e.interval && f.intervalCommon == e.intervalCommon)
  }

  /** What the state after event_add_nolock_ means for the timeout of an event. */
  lemma AddedTimed(e: Ev, f: Ev, tv: Tv, absolute: bool, now: nat)
    requires f == e.(inserted := f.inserted)
    ensures Timed(e, Added(f, Some(tv), absolute, now), tv, absolute, now)
  {
  }

  lemma AddedIs(e: Ev, t: Tv, absolute: bool, now: nat)
    ensures var deadline, keep := if absolute then t.usec else now + t.usec, !(e.closurePersist && !absolute);
            && (keep ==> Added(e, Some(t), absolute, now) == Waiting(e, deadline, t.common, e.interval, e.intervalCommon))
            && (!keep ==> Added(e, Some(t), absolute, now) == Waiting(e, deadline, t.common, t.usec, t.common))
  {
    hide Waiting;
  }

  /** Adding e registers it with the backend. */
  predicate Inserting(e: Ev) {
    e.io && !e.inserted && !e.active && !e.later
  }

  /** What event_add_nolock_ makes of an event. */
  function Added(e: Ev, tv: Option<Tv>, absolute: bool, now: nat): Ev {
    if tv.None? then e else
      var t := tv.value;
      var keep := !(e.closurePersist && !absolute);
      Waiting(e, if absolute then t.usec else now + t.usec, t.common,
              if keep then e.interval else t.usec, if keep then e.intervalCommon else t.common)
  }

  method InsertUser(b: EventBase, i: nat)
    requires Ok(b) && i < |b.evs| && User(b.ctls, i) && !b.evs[i].inserted && !b.evs[i].finalizing && b.evs[i].event
    modifies b`evs, b`eventCount
    ensures Ok(b) && b.evs == old(b.evs)[i := old(b.evs)[i].(inserted := true)]
  {
    ghost var e := b.evs[i].(inserted := true);
    HeadsSame(b.evs, b.ctls, i, e);
    TimersKept(b.evs, b.ctls, b.calling, i, e, b.ctls);
    hide HeapOk, QueuesOk, ActivesOk, LaterOk, Sum, Lengths, HeadsKept, EvsOk, TimersOk;
    b.InsertInserted(i);
  }

  /** The timeout of an event of a user, with its queue's timer scheduled when the event is first in it. */
  method AddUserTimeout(b: EventBase, i: nat, deadline: int, common: Option<nat>, interval: nat, intervalCommon: Option<nat>)
    requires Ok(b) && i < |b.evs| && User(b.ctls, i) && !b.evs[i].finalizing && b.evs[i].event
    requires common.Some? ==> common.value < |b.ctls|
    requires b.evs[i].closurePersist ==> common == intervalCommon
    modifies b`evs, b`heap, b`ctls, b`active, b`eventCount, b`activeCount
    ensures Ok(b) && User(b.ctls, i) && |b.evs| == |old(b.evs)| && |b.ctls| == |old(b.ctls)|
    ensures b.evs[i] == Waiting(old(b.evs)[i], deadline, common, interval, intervalCommon)
    ensures SameTimers(old(b.ctls), b.ctls) && OthersSame(old(b.evs), b.evs, b.ctls, i)
  {
    hide HeapOk, QueuesOk, ActivesOk, LaterOk, Sum, Lengths, HeadsKept, EvsOk, Waiting;
    ghost var evs0, ctls0 := b.evs, b.ctls;
    ghost var e := Waiting(b.evs[i], deadline, common, interval, intervalCommon);
    var first := AddTimeout(b, i, deadline, common, interval, intervalCommon);
    if first {
      AlmostKept(evs0, ctls0, b.calling, i, e, b.ctls, common.value);
      ghost var evs1, ctls1 := b.evs, b.ctls;
      Schedule(b, common.value);
      SameTrans(ctls0, ctls1, b.ctls, i);
      OthersTrans(evs0, evs1, b.evs, b.ctls, i);
    } else {
      TimersKept(evs0, ctls0, b.calling, i, e, b.ctls);
      AlmostKept(evs0, ctls0, b.calling, i, e, b.ctls, 0);
    }
  }

  /** event_del_nolock_ for an event of a user. */
  method UserDel(b: EventBase, i: nat, evenIfFinalizing: bool)
    requires Ok(b) && i < |b.evs| && User(b.ctls, i)
    modifies b`evs, b`heap, b`ctls, b`active, b`later, b`eventCount, b`activeCount
    ensures Ok(b) && User(b.ctls, i) && SameTimers(old(b.ctls), b.ctls)
    ensures old(b.evs)[i].finalizing && !evenIfFinalizing ==> b.evs == old(b.evs)
    ensures !old(b.evs)[i].finalizing || evenIfFinalizing ==> b.evs == old(b.evs)[i := Idle(old(b.evs)[i])]
    ensures !old(b.evs)[i].finalizing || evenIfFinalizing ==>
              b.evs[i] == old(b.evs)[i].(timeout := false, inserted := false, active := false, later := false)
  {
    hide HeapOk, QueuesOk, ActivesOk, LaterOk, Sum, Lengths, HeadsKept, EvsOk, TimersOk, User;
    ghost var evs0, ctls0 := b.evs, b.ctls;
    EventDel(b, i, evenIfFinalizing);
    ghost var e := b.evs[i];
    Unchanged(evs0, i, evs0[i]);
    TimersKept(evs0, ctls0, b.calling, i, e, b.ctls);
    AlmostKept(evs0, ctls0, b.calling, i, e, b.ctls, 0);
  }

  lemma UserQueued(evs: seq<Ev>, ctls: seq<Ctl>, calling: Option<nat>, i: nat, e: Ev)
    requires QueuesOk(evs, ctls) && TimersOk(evs, ctls, calling) && i < |evs| && User(ctls, i) && SameTimeout(evs[i], e)
    ensures TimersOk(evs[i := e], ctls, calling)
  {
    HeadsSame(evs, ctls, i, e);
    TimersKept(evs, ctls, calling, i, e, ctls);
  }

  /** event_active for an event of a user. */
  method UserActive(b: EventBase, i: nat, isTimeout: bool)
    requires Ok(b) && i < |b.evs| && User(b.ctls, i)
    modifies b`evs, b`active, b`later, b`eventCount, b`activeCount
    ensures Ok(b)
    ensures old(b.evs)[i].finalizing ==> b.evs == old(b.evs)
    ensures var e := old(b.evs)[i];
            !e.finalizing ==> b.evs == old(b.evs)[i := e.(later := false, active := true, resTimeout := Result(e, isTimeout))]
  {
    UserQueued(b.evs, b.ctls, b.calling, i,
               b.evs[i].(later := false, active := true, resTimeout := Result(b.evs[i], isTimeout)));
    hide HeapOk, QueuesOk, ActivesOk, LaterOk, Sum, Lengths, EvsOk, TimersOk, User;
    EventActive(b, i, isTimeout);
  }

  /** event_active_later_ for an event of a user. */
  method UserActiveLater(b: EventBase, i: nat, isTimeout: bool)
    requires Ok(b) && i < |b.evs| && User(b.ctls, i)
    modifies b`evs, b`later, b`eventCount, b`activeCount
    ensures Ok(b)
    ensures var e := old(b.evs)[i];
            b.evs == old(b.evs)[i := e.(later := e.later || !e.active, resTimeout := Result(e, isTimeout))]
  {
    var e := b.evs[i];
    UserQueued(b.evs, b.ctls, b.calling, i, e.(later := e.later || !e.active, resTimeout := Result(e, isTimeout)));
    hide HeapOk, QueuesOk, ActivesOk, LaterOk, Sum, Lengths, EvsOk, TimersOk, User;
    EventActiveLater(b, i, isTimeout);
  }

  /** event_callback_cancel_nolock_ */
  method CallbackCancel(b: EventBase, i: nat, evenIfFinalizing: bool)
    requires Ok(b) && i < |b.evs| && User(b.ctls, i)
    modifies b`evs, b`heap, b`ctls, b`active, b`later, b`eventCount, b`activeCount
    ensures Ok(b) && User(b.ctls, i) && SameTimers(old(b.ctls), b.ctls)
    ensures old(b.evs)[i].finalizing && !evenIfFinalizing ==> b.evs == old(b.evs)
    ensures !old(b.evs)[i].finalizing || evenIfFinalizing ==> b.evs == old(b.evs)[i := Idle(old(b.evs)[i])]
    ensures !old(b.evs)[i].finalizing || evenIfFinalizing ==>
              b.evs[i] == old(b.evs)[i].(timeout := false, inserted := false, active := false, later := false)
  {
    hide HeapOk, QueuesOk, ActivesOk, LaterOk, Sum, Lengths, HeadsKept, TimersOk, User, EvsOk;
    if b.evs[i].finalizing && !evenIfFinalizing {
      SameTrans(b.ctls, b.ctls, b.ctls, i);
      return;
    }
    if b.evs[i].event {
      UserDel(b, i, evenIfFinalizing);
      return;
    }
    NotBoth(b.evs, i);
    UserQueuedIdle(b, i);
    SameTrans(b.ctls, b.ctls, b.ctls, i);
    Unqueue(b, i);
  }

  lemma UserQueuedIdle(b: EventBase, i: nat)
    requires Ok(b) && i < |b.evs| && User(b.ctls, i) && !b.evs[i].event && EvOk(b.evs[i])
    ensures TimersOk(b.evs[i := Idle(b.evs[i])], b.ctls, b.calling)
    ensures Idle(b.evs[i]) == b.evs[i].(active := false, later := false, inserted := false)
  {
    UserQueued(b.evs, b.ctls, b.calling, i, Idle(b.evs[i]));
  }

  /** event_finalize_nolock_: an event on its way out is active once more, and in no other queue. */
  method EventFinalize(b: EventBase, i: nat)
    requires Ok(b) && i < |b.evs| && User(b.ctls, i) && b.evs[i].event
    modifies b`evs, b`heap, b`ctls, b`active, b`later, b`eventCount, b`activeCount
    ensures Ok(b) && User(b.ctls, i) && SameTimers(old(b.ctls), b.ctls) && |b.evs| == |old(b.evs)|
    ensures b.evs[i].finalizing && !b.evs[i].timeout && !b.evs[i].inserted
    ensures !old(b.evs)[i].finalizing ==> b.evs[i].active && !b.evs[i].later
    ensures OthersSame(old(b.evs), b.evs, b.ctls, i)
  {
    hide HeapOk, ActivesOk, LaterOk, Sum, Lengths, HeadsKept, TimersOk, User;
    NotBoth(b.evs, i);
    hide QueuesOk, EvsOk;
    UserDel(b, i, false);
    ForgetClosure(b, i);
    UserActive(b, i, false);
    FinishFinalize(b, i);
  }

  /** The closure is replaced by that of a finalizer. */
  method ForgetClosure(b: EventBase, i: nat)
    requires Ok(b) && i < |b.evs| && User(b.ctls, i)
    modifies b`evs
    ensures Ok(b) && b.evs == old(b.evs)[i := old(b.evs)[i].(closurePersist := false)]
  {
    hide HeapOk, ActivesOk, LaterOk, Sum, Lengths, HeadsKept, TimersOk, User, EvsOk;
    NotBoth(b.evs, i);
    UserQueued(b.evs, b.ctls, b.calling, i, b.evs[i].(closurePersist := false));
    b.Amend(i, b.evs[i].(closurePersist := false));
  }

  /** event_callback_activate_nolock_ for a callback of a user. */
  method UserCallbackActivate(b: EventBase, i: nat) returns (r: nat)
    requires Ok(b) && i < |b.evs| && User(b.ctls, i)
    modifies b`evs, b`active, b`later, b`eventCount, b`activeCount
    ensures Ok(b)
    ensures old(b.evs)[i].finalizing ==> b.evs == old(b.evs)
    ensures !old(b.evs)[i].finalizing ==> b.evs == old(b.evs)[i := old(b.evs)[i].(later := false, active := true)]
    ensures r == Bit(!old(b.evs)[i].finalizing && !old(b.evs)[i].active && !old(b.evs)[i].later)
  {
    UserQueued(b.evs, b.ctls, b.calling, i, b.evs[i].(later := false, active := true));
    hide HeapOk, QueuesOk, ActivesOk, LaterOk, Sum, Lengths, EvsOk, TimersOk, User;
    r := CallbackActivate(b, i);
  }

  /** The flag EVLIST_FINALIZING is set. */
  method FinishFinalize(b: EventBase, i: nat)
    requires Ok(b) && i < |b.evs| && User(b.ctls, i) && !b.evs[i].timeout && !b.evs[i].inserted
    modifies b`evs
    ensures Ok(b) && b.evs == old(b.evs)[i := old(b.evs)[i].(finalizing := true)]
  {
    hide HeapOk, ActivesOk, LaterOk, Sum, Lengths, HeadsKept, TimersOk, User, EvsOk;
    NotBoth(b.evs, i);
    UserQueued(b.evs, b.ctls, b.calling, i, b.evs[i].(finalizing := true));
    b.Amend(i, b.evs[i].(finalizing := true));
  }

  /** Takes a callback out of every queue, unless it is on its way out. */
  method TakeOut(b: EventBase, i: nat)
    requires Ok(b) && i < |b.evs| && User(b.ctls, i)
    modifies b`evs, b`heap, b`ctls, b`active, b`later, b`eventCount, b`activeCount
    ensures Ok(b) && User(b.ctls, i) && SameTimers(old(b.ctls), b.ctls)
    ensures old(b.evs)[i].finalizing ==> b.evs == old(b.evs)
    ensures !old(b.evs)[i].finalizing ==> b.evs == old(b.evs)[i := Idle(old(b.evs)[i])]
  {
    hide HeapOk, QueuesOk, ActivesOk, LaterOk, Sum, Lengths, HeadsKept, TimersOk, User, EvsOk, Idle;
    if b.evs[i].event {
      UserDel(b, i, false);
    } else {
      CallbackCancel(b, i, false);
    }
  }

  /** event_callback_finalize_nolock_ */
  method CallbackFinalize(b: EventBase, i: nat)
    requires Ok(b) && i < |b.evs| && User(b.ctls, i)
    modifies b`evs, b`heap, b`ctls, b`active, b`later, b`eventCount, b`activeCount
    ensures Ok(b) && User(b.ctls, i) && SameTimers(old(b.ctls), b.ctls) && |b.evs| == |old(b.evs)|
    ensures b.evs[i].finalizing && !b.evs[i].timeout && !b.evs[i].inserted
    ensures !old(b.evs)[i].finalizing ==> b.evs[i].active && !b.evs[i].later
    ensures OthersSame(old(b.evs), b.evs, b.ctls, i)
  {
    hide HeapOk, QueuesOk, ActivesOk, LaterOk, Sum, Lengths, HeadsKept, TimersOk, User, EvsOk;
    NotBoth(b.evs, i);
    TakeOut(b, i);
    ForgetClosure(b, i);
    var _ := UserCallbackActivate(b, i);
    FinishFinalize(b, i);
  }

  // ---------------------------------------------------------------- time

  /** min_heap_top_: an event of the heap whose deadline is least. */
  method HeapTop(b: EventBase) returns (top: Option<nat>)
    requires b.Valid()
    ensures top.None? <==> b.heap == {}
    ensures top.Some? ==> top.value in b.heap && Least(b.evs, b.heap, top.value)
  {
    top := None;
    var rest := b.heap;
    assert forall j {:trigger j in b.heap} :: j in b.heap ==> j < |b.evs|;
    hide QueuesOk, ActivesOk, LaterOk, EvsOk;
    while rest != {}
      invariant rest <= b.heap
      invariant top.None? ==> rest == b.heap
      invariant top.Some? ==> top.value in b.heap
      invariant top.Some? ==> forall j {:trigger j in b.heap} ::
                    j in b.heap && j !in rest ==> b.evs[top.value].deadline <= b.evs[j].deadline
      decreases |rest|
    {
      var i :| i in rest;
      if top.None? || b.evs[i].deadline < b.evs[top.value].deadline {
        top := Some(i);
      }
      rest := rest - {i};
    }
  }

  predicate Least(evs: seq<Ev>, heap: set<nat>, top: nat) {
    top < |evs| && forall j {:trigger j in heap} :: j in heap ==> j < |evs| && evs[top].deadline <= evs[j].deadline
  }

  /** timeout_next: how long to wait for the heap; None if there is nothing to wait for. */
  method TimeoutNext(b: EventBase, now: int) returns (wait: Option<nat>)
    requires b.Valid()
    ensures wait.None? <==> b.heap == {}
    ensures wait == Some(0) <==> exists i {:trigger i in b.heap} :: i in b.heap && i < |b.evs| && b.evs[i].deadline <= now
    ensures wait.Some? && wait.value > 0 ==>
              && (exists i {:trigger i in b.heap} :: i in b.heap && i < |b.evs| && b.evs[i].deadline == now + wait.value)
              && (forall i {:trigger i in b.heap} :: i in b.heap ==> i < |b.evs| && now + wait.value <= b.evs[i].deadline)
  {
    var top := HeapTop(b);
    match top {
      case None => wait := None;
      case Some(i) =>
        if b.evs[i].deadline <= now {
          wait := Some(0);
        } else {
          wait := Some(b.evs[i].deadline - now);
        }
    }
  }

  /** When no callback is active or being run, the deadline of every event, be it in the heap or in a queue of
      common timeouts, has an event of the heap with a deadline no later: what is not too long to wait for the
      heap is not too long for any event. */
  lemma NoTimeoutForgotten(b: EventBase, i: nat, now: int, wait: nat)
    requires Ok(b) && b.activeCount == 0 && b.calling.None?
    requires i < |b.evs| && b.evs[i].timeout
    requires wait == 0 || forall j {:trigger j in b.heap} :: j in b.heap ==> j < |b.evs| && now + wait <= b.evs[j].deadline
    ensures b.heap != {} && (wait == 0 || now + wait <= b.evs[i].deadline)
  {
    NoneActive(b.evs, b.active);
    match b.evs[i].common
    case None => assert i in b.heap;
    case Some(c) =>
      assert QueueOk(b.evs, b.ctls[c].events, c);
      HeadFirst(b.evs, b.ctls[c].events, i);
      var t := b.ctls[c].timer;
      assert TimerOk(b.evs[t]) && Driven(b.evs, b.ctls[c], false);
      assert t in b.heap;
  }

  lemma HeadFirst(evs: seq<Ev>, q: seq<nat>, i: nat)
    requires Sorted(evs, q) && i in q
    ensures |q| > 0 && q[0] < |evs| && i < |evs| && evs[q[0]].deadline <= evs[i].deadline
  {
    var k :| 0 <= k < |q| && q[k] == i;
  }

  lemma NoneActive(evs: seq<Ev>, active: seq<seq<nat>>)
    requires ActivesOk(evs, active) && Lengths(active) == 0
    ensures forall i {:trigger evs[i]} :: 0 <= i < |evs| ==> !evs[i].active
  {
    AllEmpty(active);
    forall i {:trigger evs[i]} | 0 <= i < |evs| ensures !evs[i].active {
      assert ActiveOk(evs, active[evs[i].pri], evs[i].pri);
    }
  }

  /** An event whose timeout has run out. */
  function Expired(e: Ev): Ev {
    Idle(e).(active := true, resTimeout := true)
  }

  /** An event of the heap that expires, perhaps the timer of a queue. */
  lemma TimersExpired(evs: seq<Ev>, ctls: seq<Ctl>, calling: Option<nat>, i: nat, cs: seq<Ctl>)
    requires TimersOk(evs, ctls, calling) && i < |evs|
    requires HeadsKept(evs, ctls, evs[i := Expired(evs[i])], cs, None)
    ensures TimersOk(evs[i := Expired(evs[i])], cs, calling) && SameTimers(ctls, cs)
  {
    var f := evs[i := Expired(evs[i])];
    forall c {:trigger cs[c]} | 0 <= c < |cs|
      ensures cs[c].timer < |f| && TimerOk(f[cs[c].timer]) && Driven(f, cs[c], calling == Some(c)) && cs[c].timer == ctls[c].timer
    {
      assert cs[c].timer == ctls[c].timer;
      assert TimerOk(evs[ctls[c].timer]);
    }
    forall c, d {:trigger cs[c], cs[d]} | 0 <= c < d < |cs| ensures cs[c].timer != cs[d].timer {
      assert cs[c].timer == ctls[c].timer && cs[d].timer == ctls[d].timer;
    }
  }

  /** Deletes event i and activates it for its timeout. */
  method Expire(b: EventBase, i: nat)
    requires b.Valid() && i < |b.evs| && b.evs[i].timeout
    modifies b`evs, b`heap, b`ctls, b`active, b`later, b`eventCount, b`activeCount
    ensures b.Valid() && b.evs == old(b.evs)[i := Expired(old(b.evs)[i])] && b.heap == old(b.heap) - {i}
    ensures HeadsKept(old(b.evs), old(b.ctls), b.evs, b.ctls, None)
  {
    hide HeapOk, ActivesOk, LaterOk, Sum, Lengths, HeadsKept, EvsOk;
    NotBoth(b.evs, i);
    Twice(b.evs, i, Idle(b.evs[i]), Expired(b.evs[i]));
    EventDel(b, i, false);
    ghost var evs1, ctls1 := b.evs, b.ctls;
    HeadsSame(evs1, ctls1, i, Expired(old(b.evs)[i]));
    hide QueuesOk;
    EventActive(b, i, true);
    HeadsTrans(old(b.evs), old(b.ctls), evs1, ctls1, b.evs, b.ctls, None);
  }

  /** Some events have expired, all of them due; the rest are as they were. */
  ghost predicate SomeExpired(evs: seq<Ev>, f: seq<Ev>, gone: set<nat>, now: int) {
    && |f| == |evs|
    && forall i {:trigger f[i]} :: 0 <= i < |f| ==>
      && (i in gone ==> evs[i].timeout && evs[i].deadline <= now && f[i] == Expired(evs[i]))
      && (i !in gone ==> f[i] == evs[i])
  }

  lemma {:induction false} ExpiredStep(evs: seq<Ev>, f: seq<Ev>, gone: set<nat>, now: int, i: nat)
    requires SomeExpired(evs, f, gone, now) && i < |f| && f[i].timeout && f[i].deadline <= now
    ensures SomeExpired(evs, f[i := Expired(f[i])], gone + {i}, now) && i !in gone
  {
    var g := f[i := Expired(f[i])];
    assert i !in gone && f[i] == evs[i];
    forall k {:trigger g[k]} | 0 <= k < |g|
      ensures k in gone + {i} ==> evs[k].timeout && evs[k].deadline <= now && g[k] == Expired(evs[k])
      ensures k !in gone + {i} ==> g[k] == evs[k]
    {
      assert k != i ==> g[k] == f[k];
    }
  }

  /** One round of timeout_process. */
  method ExpireTop(b: EventBase, i: nat, ghost evs0: seq<Ev>, ghost heap0: set<nat>, now: int)
    requires Ok(b) && i in b.heap && i < |b.evs| && b.evs[i].deadline <= now
    requires b.heap <= heap0 && SomeExpired(evs0, b.evs, heap0 - b.heap, now)
    modifies b`evs, b`heap, b`ctls, b`active, b`later, b`eventCount, b`activeCount
    ensures Ok(b) && SameTimers(old(b.ctls), b.ctls) && b.heap == old(b.heap) - {i}
    ensures b.heap <= heap0 && SomeExpired(evs0, b.evs, heap0 - b.heap, now)
  {
    ghost var evs1, ctls1, heap1 := b.evs, b.ctls, b.heap;
    TopWaits(evs1, heap1, i);
    ExpiredStep(evs0, evs1, heap0 - heap1, now, i);
    assert heap0 - heap1 + {i} == heap0 - (heap1 - {i});
    hide HeapOk, QueuesOk, ActivesOk, LaterOk, Sum, Lengths, HeadsKept, EvsOk, TimersOk, SameTimers, SomeExpired, Expired, Least;
    Expire(b, i);
    TimersExpired(evs1, ctls1, b.calling, i, b.ctls);
  }

  /** timeout_process: it ends, exactly the due events of the heap expire, and nothing that is left in the
      heap is due. */
  method TimeoutProcess(b: EventBase, now: int)
    requires Ok(b)
    modifies b`evs, b`heap, b`ctls, b`active, b`later, b`eventCount, b`activeCount
    ensures Ok(b) && SameTimers(old(b.ctls), b.ctls)
    ensures forall j {:trigger j in b.heap} :: j in b.heap ==> j < |b.evs| && b.evs[j].deadline > now
    ensures b.heap <= old(b.heap) && SomeExpired(old(b.evs), b.evs, old(b.heap) - b.heap, now)
    ensures forall j {:trigger j in old(b.heap)} :: j in old(b.heap) && j < |old(b.evs)| && old(b.evs)[j].deadline <= now ==>
              j < |b.evs| && b.evs[j].active && b.evs[j].resTimeout && !b.evs[j].timeout && !b.evs[j].inserted && !b.evs[j].later
    ensures forall j {:trigger j in old(b.heap)} :: j in old(b.heap) && j < |old(b.evs)| && old(b.evs)[j].deadline > now ==>
              j < |b.evs| && j in b.heap && b.evs[j] == old(b.evs)[j]
  {
    hide HeapOk, QueuesOk, ActivesOk, LaterOk, Sum, Lengths, HeadsKept, EvsOk, TimersOk, SameTimers, SomeExpired, Expired, Least;
    SomeExpiredNone(b.evs, now);
    SameTimersAlways(b.ctls);
    assert b.heap - b.heap == {};
    ghost var evs0, heap0, ctls0 := b.evs, b.heap, b.ctls;
    var top := HeapTop(b);
    LeastRange(b.evs, b.heap, top);
    while top.Some? && b.evs[top.value].deadline <= now
      invariant Ok(b) && SameTimers(ctls0, b.ctls)
      invariant top.None? <==> b.heap == {}
      invariant top.Some? ==> top.value in b.heap && top.value < |b.evs| && Least(b.evs, b.heap, top.value)
      invariant b.heap <= heap0 && SomeExpired(evs0, b.evs, heap0 - b.heap, now)
      decreases |b.heap|
    {
      ghost var ctls1 := b.ctls;
      ExpireTop(b, top.value, evs0, heap0, now);
      SameTrans(ctls0, ctls1, b.ctls, 0);
      top := HeapTop(b);
      LeastRange(b.evs, b.heap, top);
    }
    NoneDue(b.evs, b.heap, top, now);
    Processed(evs0, heap0, b.evs, b.heap, now);
  }

  /** Exactly what was due has become active. */
  lemma Processed(evs0: seq<Ev>, heap0: set<nat>, evs: seq<Ev>, heap: set<nat>, now: int)
    requires heap <= heap0 && SomeExpired(evs0, evs, heap0 - heap, now)
    requires forall j {:trigger j in heap} :: j in heap ==> j < |evs| && evs[j].deadline > now
    ensures forall j {:trigger j in heap0} :: j in heap0 && j < |evs0| && evs0[j].deadline <= now ==>
              j < |evs| && evs[j].active && evs[j].resTimeout && !evs[j].timeout && !evs[j].inserted && !evs[j].later
    ensures forall j {:trigger j in heap0} :: j in heap0 && j < |evs0| && evs0[j].deadline > now ==>
              j < |evs| && j in heap && evs[j] == evs0[j]
  {
    forall j {:trigger j in heap0} | j in heap0 && j < |evs0| ensures j < |evs| && (evs0[j].deadline > now <==> j in heap)
      ensures if evs0[j].deadline > now then evs[j] == evs0[j] else evs[j] == Expired(evs0[j])
    {
      if j in heap {
        assert j !in heap0 - heap;
      } else {
        assert j in heap0 - heap;
      }
    }
  }

  lemma SameTimersAlways(ctls: seq<Ctl>)
    ensures SameTimers(ctls, ctls)
  {
  }

  lemma SomeExpiredNone(evs: seq<Ev>, now: int)
    ensures SomeExpired(evs, evs, {}, now)
  {
  }

  lemma TopWaits(evs: seq<Ev>, heap: set<nat>, i: nat)
    requires HeapOk(evs, heap) && i in heap
    ensures i < |evs| && evs[i].timeout && evs[i].common.None?
  {
  }

  lemma LeastRange(evs: seq<Ev>, heap: set<nat>, top: Option<nat>)
    requires top.Some? ==> Least(evs, heap, top.value)
    ensures top.Some? ==> top.value < |evs|
  {
  }

  lemma NoneDue(evs: seq<Ev>, heap: set<nat>, top: Option<nat>, now: int)
    requires top.None? ==> heap == {}
    requires top.Some? ==> top.value < |evs| && Least(evs, heap, top.value) && evs[top.value].deadline > now
    ensures forall j {:trigger j in heap} :: j in heap ==> j < |evs| && evs[j].deadline > now
  {
  }

  // ---------------------------------------------------------------- callbacks

  lemma AlmostExpired(evs: seq<Ev>, ctls: seq<Ctl>, calling: Option<nat>, i: nat, cs: seq<Ctl>, c: nat)
    requires AlmostDriven(evs, ctls, calling, c) && i < |evs| && evs[i].common.Some?
    requires HeadsKept(evs, ctls, evs[i := Expired(evs[i])], cs, None)
    ensures AlmostDriven(evs[i := Expired(evs[i])], cs, calling, c) && SameTimers(ctls, cs)
  {
    var f := evs[i := Expired(evs[i])];
    forall d {:trigger cs[d]} | 0 <= d < |cs|
      ensures cs[d].timer < |f| && TimerOk(f[cs[d].timer]) && (d != c ==> Driven(f, cs[d], calling == Some(d)))
      ensures cs[d].timer == ctls[d].timer
    {
      assert cs[d].timer == ctls[d].timer;
      assert TimerOk(evs[ctls[d].timer]);
    }
    forall d, e {:trigger cs[d], cs[e]} | 0 <= d < e < |cs| ensures cs[d].timer != cs[e].timer {
      assert cs[d].timer == ctls[d].timer && cs[e].timer == ctls[e].timer;
    }
  }

  /** One round of common_timeout_callback: the first event of queue c expires. */
  method ExpireFirst(b: EventBase, c: nat, ghost evs0: seq<Ev>, ghost gone: set<nat>, now: int) returns (ghost gone': set<nat>)
    requires b.Valid() && c < |b.ctls| && |b.ctls[c].events| > 0 && AlmostDriven(b.evs, b.ctls, b.calling, c)
    requires b.ctls[c].events[0] < |b.evs| && b.evs[b.ctls[c].events[0]].deadline <= now
    requires SomeExpired(evs0, b.evs, gone, now)
    modifies b`evs, b`heap, b`ctls, b`active, b`later, b`eventCount, b`activeCount
    ensures b.Valid() && SameTimers(old(b.ctls), b.ctls) && AlmostDriven(b.evs, b.ctls, b.calling, c)
    ensures gone' == gone + {old(b.ctls)[c].events[0]} && SomeExpired(evs0, b.evs, gone', now)
    ensures Waiters(b.evs) < Waiters(old(b.evs))
  {
    ghost var evs1, ctls1 := b.evs, b.ctls;
    var i := b.ctls[c].events[0];
    HeadInRange(evs1, ctls1, c);
    ExpiredStep(evs0, evs1, gone, now, i);
    WaitersStep(evs1, i);
    hide HeapOk, QueuesOk, ActivesOk, LaterOk, Sum, Lengths, HeadsKept, EvsOk, AlmostDriven, SameTimers, SomeExpired, Expired;
    Expire(b, i);
    AlmostExpired(evs1, ctls1, b.calling, i, b.ctls, c);
    gone' := gone + {i};
  }

  /** The number of events that wait for a timeout. */
  function Waiters(evs: seq<Ev>): nat {
    if |evs| == 0 then 0 else Bit(evs[0].timeout) + Waiters(evs[1..])
  }

  lemma {:induction false} WaitersStep(evs: seq<Ev>, i: nat)
    requires i < |evs| && evs[i].timeout
    ensures Waiters(evs[i := Expired(evs[i])]) < Waiters(evs)
  {
    var f := evs[i := Expired(evs[i])];
    if i == 0 {
      assert f[1..] == evs[1..];
    } else {
      WaitersStep(evs[1..], i - 1);
      assert f[1..] == evs[1..][i - 1 := Expired(evs[i])];
    }
  }

  /** The events of users in gone have expired, all of them due; those of other users are as they were. */
  ghost predicate UsersExpired(evs: seq<Ev>, f: seq<Ev>, ctls: seq<Ctl>, gone: set<nat>, now: int) {
    && |f| == |evs|
    && forall i {:trigger f[i]} :: 0 <= i < |f| && User(ctls, i) ==>
      && (i in gone ==> evs[i].timeout && evs[i].deadline <= now && f[i] == Expired(evs[i]))
      && (i !in gone ==> f[i] == evs[i])
  }

  lemma UsersExpiredIntro(evs: seq<Ev>, f: seq<Ev>, g: seq<Ev>, ctls: seq<Ctl>, gone: set<nat>, now: int)
    requires SomeExpired(evs, f, gone, now) && OthersSame(f, g, ctls, |f|)
    ensures UsersExpired(evs, g, ctls, gone, now)
  {
    hide User, Expired;
    forall i {:trigger g[i]} | 0 <= i < |g| && User(ctls, i)
      ensures i in gone ==> evs[i].timeout && evs[i].deadline <= now && g[i] == Expired(evs[i])
      ensures i !in gone ==> g[i] == evs[i]
    {
      assert g[i] == f[i];
    }
  }

  /** common_timeout_callback, once it has the lock: the due events at the front of queue c expire, and the
      timer is scheduled for the first one left. */
  method CommonTimeoutCallback(b: EventBase, c: nat, now: int) returns (ghost gone: set<nat>)
    requires Ok(b) && c < |b.ctls| && b.calling == Some(c)
    modifies b
    ensures Ok(b) && b.calling == None && b.running == old(b.running) && SameTimers(old(b.ctls), b.ctls)
    ensures c < |b.ctls| && forall i {:trigger i in b.ctls[c].events} :: i in b.ctls[c].events ==> i < |b.evs| && b.evs[i].deadline > now
    ensures UsersExpired(old(b.evs), b.evs, b.ctls, gone, now)
  {
    hide HeapOk, QueuesOk, ActivesOk, LaterOk, Sum, Lengths, HeadsKept, EvsOk, AlmostDriven, SomeExpired, Expired, TimersOk;
    hide OthersSame, UsersExpired, SameTimers;
    gone := CommonTimeoutLoop(b, c, now);
    ghost var evs1, ctls1 := b.evs, b.ctls;
    CallReturned(evs1, ctls1, c);
    b.calling := None;
    if |b.ctls[c].events| > 0 {
      Schedule(b, c);
    } else {
      NoneChanged(evs1, ctls1);
    }
    UsersExpiredIntro(old(b.evs), evs1, b.evs, b.ctls, gone, now);
    AllLater(b.evs, b.ctls, c, now);
  }

  /** The loop of common_timeout_callback. */
  method CommonTimeoutLoop(b: EventBase, c: nat, now: int) returns (ghost gone: set<nat>)
    requires Ok(b) && c < |b.ctls| && b.calling == Some(c)
    modifies b`evs, b`heap, b`ctls, b`active, b`later, b`eventCount, b`activeCount
    ensures b.Valid() && SameTimers(old(b.ctls), b.ctls) && AlmostDriven(b.evs, b.ctls, b.calling, c)
    ensures c < |b.ctls| && (|b.ctls[c].events| > 0 ==> b.ctls[c].events[0] < |b.evs| && b.evs[b.ctls[c].events[0]].deadline > now)
    ensures SomeExpired(old(b.evs), b.evs, gone, now)
  {
    AlmostTimers(b.evs, b.ctls, b.calling, c);
    SomeExpiredNone(b.evs, now);
    SameTimersAlways(b.ctls);
    ghost var evs0, ctls0 := b.evs, b.ctls;
    gone := {};
    HeadRange(b.evs, b.ctls, c);
    hide HeapOk, QueuesOk, ActivesOk, LaterOk, Sum, Lengths, HeadsKept, EvsOk, AlmostDriven;
    hide SomeExpired, Expired, TimersOk, Waiters, SameTimers;
    while |b.ctls[c].events| > 0 && b.evs[b.ctls[c].events[0]].deadline <= now
      invariant b.Valid() && AlmostDriven(b.evs, b.ctls, b.calling, c) && SameTimers(ctls0, b.ctls)
      invariant c < |b.ctls| && (|b.ctls[c].events| > 0 ==> b.ctls[c].events[0] < |b.evs|)
      invariant SomeExpired(evs0, b.evs, gone, now)
      decreases Waiters(b.evs)
    {
      ghost var ctls1 := b.ctls;
      gone := ExpireFirst(b, c, evs0, gone, now);
      SameTrans(ctls0, ctls1, b.ctls, 0);
      SameLength(ctls1, b.ctls);
      HeadRange(b.evs, b.ctls, c);
    }
  }

  lemma SameLength(ctls: seq<Ctl>, cs: seq<Ctl>)
    requires SameTimers(ctls, cs)
    ensures |cs| == |ctls|
  {
  }

  lemma HeadRange(evs: seq<Ev>, ctls: seq<Ctl>, c: nat)
    requires QueuesOk(evs, ctls) && c < |ctls|
    ensures |ctls[c].events| > 0 ==> ctls[c].events[0] < |evs|
  {
    if |ctls[c].events| > 0 {
      HeadInRange(evs, ctls, c);
    }
  }

  lemma AlmostTimers(evs: seq<Ev>, ctls: seq<Ctl>, calling: Option<nat>, c: nat)
    requires TimersOk(evs, ctls, calling)
    ensures AlmostDriven(evs, ctls, calling, c)
  {
  }

  /** Queue c does not need the call of its callback any more once it is empty or scheduled. */
  lemma CallReturned(evs: seq<Ev>, ctls: seq<Ctl>, c: nat)
    requires AlmostDriven(evs, ctls, Some(c), c) && c < |ctls|
    ensures AlmostDriven(evs, ctls, None, c)
    ensures |ctls[c].events| == 0 ==> TimersOk(evs, ctls, None)
  {
  }

  lemma NoneChanged(evs: seq<Ev>, ctls: seq<Ctl>)
    ensures OthersSame(evs, evs, ctls, |evs|)
  {
  }

  lemma AllLater(evs: seq<Ev>, ctls: seq<Ctl>, c: nat, now: int)
    requires QueuesOk(evs, ctls) && c < |ctls|
    requires |ctls[c].events| > 0 ==> ctls[c].events[0] < |evs| && evs[ctls[c].events[0]].deadline > now
    ensures forall i {:trigger i in ctls[c].events} :: i in ctls[c].events ==> i < |evs| && evs[i].deadline > now
  {
    assert QueueOk(evs, ctls[c].events, c);
    forall i {:trigger i in ctls[c].events} | i in ctls[c].events ensures i < |evs| && evs[i].deadline > now {
      HeadFirst(evs, ctls[c].events, i);
    }
  }

  /** The queue whose timer i is, if it is one. */
  method FindTimer(ctls: seq<Ctl>, i: nat) returns (c: Option<nat>)
    ensures c.None? <==> User(ctls, i)
    ensures c.Some? ==> c.value < |ctls| && ctls[c.value].timer == i
  {
    var k := 0;
    while k < |ctls|
      invariant k <= |ctls| && forall d {:trigger ctls[d]} :: 0 <= d < k ==> ctls[d].timer != i
    {
      if ctls[k].timer == i {
        return Some(k);
      }
      k := k + 1;
    }
    c := None;
  }

  /** event_process_active_single_queue: takes the first callback of priority p off its queue and starts
      to run it. A persistent or finalizing one keeps what else it waits for. */
  method TakeActive(b: EventBase, p: nat) returns (i: nat)
    requires Ok(b) && p < |b.active| && |b.active[p]| > 0 && b.running.None? && b.calling.None?
    modifies b
    ensures Ok(b) && i == old(b.active)[p][0] && b.running == Some(i) && i < |old(b.evs)|
    ensures SameTimers(old(b.ctls), b.ctls) && (b.calling.None? <==> User(b.ctls, i))
    ensures var e := old(b.evs)[i];
            b.evs == old(b.evs)[i := if !e.event || e.persist || e.finalizing then e.(active := false) else Idle(e)]
  {
    hide HeapOk, QueuesOk, ActivesOk, LaterOk, EvsOk, Sum, Lengths, HeadsKept, SameTimers, TimersOk, User, Idle;
    i := b.active[p][0];
    FirstTaken(b, p);
    var c := FindTimer(b.ctls, i);
    ghost var evs0, ctls0, e := b.evs, b.ctls, b.evs[i];
    if b.evs[i].event && !b.evs[i].persist && !b.evs[i].finalizing {
      EventDel(b, i, false);
      TimersTaken(evs0, ctls0, i, Idle(e), b.ctls, c);
    } else {
      HeadsSame(evs0, ctls0, i, e.(active := false));
      TimersTaken(evs0, ctls0, i, e.(active := false), ctls0, c);
      b.RemoveActive(i);
    }
    b.running, b.calling := Some(i), c;
  }

  lemma FirstTaken(b: EventBase, p: nat)
    requires b.Valid() && p < |b.active| && |b.active[p]| > 0
    ensures b.active[p][0] < |b.evs| && b.evs[b.active[p][0]].active && QueuesOk(b.evs, b.ctls)
  {
    FirstActive(b.evs, b.active, p);
  }

  lemma FirstActive(evs: seq<Ev>, active: seq<seq<nat>>, p: nat)
    requires ActivesOk(evs, active) && p < |active| && |active[p]| > 0
    ensures active[p][0] < |evs| && evs[active[p][0]].active
  {
    assert ActiveOk(evs, active[p], p);
    assert active[p][0] in active[p];
  }

  /** An event that is taken to be run: if it is a timer, its callback has been called. */
  lemma TimersTaken(evs: seq<Ev>, ctls: seq<Ctl>, i: nat, e: Ev, cs: seq<Ctl>, c: Option<nat>)
    requires TimersOk(evs, ctls, None) && i < |evs| && HeadsKept(evs, ctls, evs[i := e], cs, None)
    requires e == Idle(evs[i]) || e == evs[i].(active := false)
    requires c.None? <==> User(ctls, i)
    requires c.Some? ==> c.value < |ctls| && ctls[c.value].timer == i
    ensures TimersOk(evs[i := e], cs, c) && SameTimers(ctls, cs) && User(cs, i) == User(ctls, i)
  {
    var f := evs[i := e];
    forall d {:trigger cs[d]} | 0 <= d < |cs|
      ensures cs[d].timer < |f| && TimerOk(f[cs[d].timer]) && Driven(f, cs[d], c == Some(d)) && cs[d].timer == ctls[d].timer
    {
      assert cs[d].timer == ctls[d].timer;
      assert TimerOk(evs[ctls[d].timer]) && Driven(evs, ctls[d], false);
      if c.Some? && d != c.value {
        assert ctls[d].timer != ctls[c.value].timer;
      }
    }
    forall d, g {:trigger cs[d], cs[g]} | 0 <= d < g < |cs| ensures cs[d].timer != cs[g].timer {
      assert cs[d].timer == ctls[d].timer && cs[g].timer == ctls[g].timer;
    }
    assert forall d {:trigger ctls[d]} :: 0 <= d < |ctls| ==> cs[d].timer == ctls[d].timer;
  }

  /** The callback being run has returned. */
  method FinishCallback(b: EventBase)
    requires Ok(b) && b.calling.None?
    modifies b`running
    ensures Ok(b) && b.running.None?
  {
    b.running := None;
  }

  /** event_persist_closure: a persistent event with an interval waits for its next turn, which is never
      before now. */
  method PersistClosure(b: EventBase, i: nat, now: nat, mapResult: int)
    requires Ok(b) && i < |b.evs| && User(b.ctls, i) && b.evs[i].closurePersist && b.evs[i].event && -1 <= mapResult <= 1
    modifies b`evs, b`heap, b`ctls, b`active, b`eventCount, b`activeCount
    ensures Ok(b) && |b.evs| == |old(b.evs)|
    ensures var e := old(b.evs)[i];
            var waits := (e.interval > 0 || e.intervalCommon.Some?) && !e.finalizing;
            && (!waits || (Inserting(e) && mapResult == -1) ==> b.evs == old(b.evs))
            && (waits && !(Inserting(e) && mapResult == -1) ==>
                  b.evs[i] == Waiting(e.(inserted := e.inserted || Inserting(e)), NextTurn(e, now), e.intervalCommon, e.interval,
                                      e.intervalCommon))
    ensures var e := old(b.evs)[i];
            (e.interval > 0 || e.intervalCommon.Some?) && !e.finalizing && !(Inserting(e) && mapResult == -1) ==>
              && b.evs[i].timeout && b.evs[i].common == e.intervalCommon && b.evs[i].deadline >= now
              && (e.resTimeout && e.deadline + e.interval >= now ==> b.evs[i].deadline == e.deadline + e.interval)
              && (!(e.resTimeout && e.deadline + e.interval >= now) ==> b.evs[i].deadline == now + e.interval)
  {
    hide b.Valid, TimersOk, User, Inserting;
    if b.evs[i].interval > 0 || b.evs[i].intervalCommon.Some? {
      var runAt := (if b.evs[i].resTimeout then b.evs[i].deadline else now) + b.evs[i].interval;
      if runAt < now {
        runAt := now + b.evs[i].interval;
      }
      AddAgain(b, i, runAt, now, mapResult);
    }
  }

  /** A persistent event waits for runAt. */
  method AddAgain(b: EventBase, i: nat, runAt: nat, now: nat, mapResult: int)
    requires Ok(b) && i < |b.evs| && User(b.ctls, i) && b.evs[i].closurePersist && b.evs[i].event && -1 <= mapResult <= 1
    modifies b`evs, b`heap, b`ctls, b`active, b`eventCount, b`activeCount
    ensures Ok(b) && |b.evs| == |old(b.evs)|
    ensures var e := old(b.evs)[i];
            && (e.finalizing || (Inserting(e) && mapResult == -1) ==> b.evs == old(b.evs))
            && (!e.finalizing && !(Inserting(e) && mapResult == -1) ==>
                  b.evs[i] == Waiting(e.(inserted := e.inserted || Inserting(e)), runAt, e.intervalCommon, e.interval, e.intervalCommon))
  {
    hide b.Valid, TimersOk, HeadsKept, Waiting, Added, User, SameTimers, OthersSame, Inserting;
    EvFacts(b, i);
    ghost var e := b.evs[i];
    var tv := Tv(runAt, b.evs[i].intervalCommon);
    var _ := EventAdd(b, i, Some(tv), true, now, mapResult);
    AddedAt(e.(inserted := e.inserted || Inserting(e)), tv, now);
  }

  /** When a persistent event is to run again. */
  function NextTurn(e: Ev, now: nat): int {
    var runAt := (if e.resTimeout then e.deadline else now) + e.interval;
    if runAt < now then now + e.interval else runAt
  }

  lemma AddedAt(e: Ev, tv: Tv, now: nat)
    ensures Added(e, Some(tv), true, now) == Waiting(e, tv.usec, tv.common, e.interval, e.intervalCommon)
  {
  }

  lemma EvFacts(b: EventBase, i: nat)
    requires b.Valid() && i < |b.evs|
    ensures (b.evs[i].common.Some? ==> b.evs[i].common.value < |b.ctls|)
    ensures b.evs[i].closurePersist ==> b.evs[i].common == b.evs[i].intervalCommon
  {
  }

  /** event_queue_make_later_events_active, as the loop runs it before it waits. */
  method LaterToActive(b: EventBase)
    requires Ok(b)
    modifies b`evs, b`active, b`later
    ensures Ok(b) && b.later == []
    ensures Moved(old(b.evs), old(b.active), old(b.later), |old(b.later)|, b.evs, b.active)
  {
    ghost var evs0, active0, later0 := b.evs, b.active, b.later;
    LaterRange(evs0, later0);
    b.MakeLaterActive();
    TimersMoved(evs0, active0, later0, b.ctls, b.calling, b.evs, b.active);
  }

  lemma {:induction false} TimersMoved(evs0: seq<Ev>, active0: seq<seq<nat>>, later: seq<nat>, ctls: seq<Ctl>, calling: Option<nat>,
                    evs: seq<Ev>, active: seq<seq<nat>>)
    requires TimersOk(evs0, ctls, calling) && Moved(evs0, active0, later, |later|, evs, active)
    requires forall k {:trigger later[k]} :: 0 <= k < |later| ==> later[k] < |evs0| && evs0[later[k]].later
    ensures TimersOk(evs, ctls, calling)
  {
    assert later[..|later|] == later;
    forall c {:trigger ctls[c]} | 0 <= c < |ctls|
      ensures ctls[c].timer < |evs| && TimerOk(evs[ctls[c].timer]) && Driven(evs, ctls[c], calling == Some(c))
    {
      assert TimerOk(evs0[ctls[c].timer]) && Driven(evs0, ctls[c], calling == Some(c));
      assert ctls[c].timer !in later;
    }
  }

  // ---------------------------------------------------------------- what the invariant is for

  /** Each callback is in the queues its flags say, exactly once, never in two active queues at once, and
      a finalizing one is in no queue of timeouts. */
  lemma WhereFlagsSay(b: EventBase, i: nat)
    requires Ok(b) && i < |b.evs|
    ensures forall p {:trigger b.active[p]} :: 0 <= p < |b.active| ==>
              multiset(b.active[p])[i] == Bit(b.evs[i].active && b.evs[i].pri == p)
    ensures multiset(b.later)[i] == Bit(b.evs[i].later) && !(b.evs[i].active && b.evs[i].later)
    ensures i in b.heap <==> b.evs[i].timeout && b.evs[i].common.None?
    ensures forall c {:trigger b.ctls[c]} :: 0 <= c < |b.ctls| ==>
              multiset(b.ctls[c].events)[i] == Bit(b.evs[i].timeout && b.evs[i].common == Some(c))
    ensures b.evs[i].finalizing ==> i !in b.heap && forall c {:trigger b.ctls[c]} :: 0 <= c < |b.ctls| ==> i !in b.ctls[c].events
  {
    assert EvOk(b.evs[i]);
    Once(b.later, i);
    forall p {:trigger b.active[p]} | 0 <= p < |b.active|
      ensures multiset(b.active[p])[i] == Bit(b.evs[i].active && b.evs[i].pri == p)
    {
      assert ActiveOk(b.evs, b.active[p], p);
      Once(b.active[p], i);
    }
    forall c {:trigger b.ctls[c]} | 0 <= c < |b.ctls|
      ensures multiset(b.ctls[c].events)[i] == Bit(b.evs[i].timeout && b.evs[i].common == Some(c))
      ensures i in b.ctls[c].events <==> b.evs[i].timeout && b.evs[i].common == Some(c)
    {
      assert QueueOk(b.evs, b.ctls[c].events, c);
      Once(b.ctls[c].events, i);
    }
  }

  // ---------------------------------------------------------------- new events and queues

  const MAX_COMMON_TIMEOUTS: nat := 256

  /** event_assign: a new event of a user. */
  method NewEvent(b: EventBase, event: bool, io: bool, persist: bool, closurePersist: bool, pri: nat) returns (i: nat)
    requires Ok(b) && pri < |b.active| && (closurePersist ==> event)
    modifies b`evs
    ensures Ok(b) && i == |old(b.evs)| && |b.evs| == i + 1 && b.evs[..i] == old(b.evs) && User(b.ctls, i)
    ensures New(b.evs[i]) && !b.evs[i].finalizing && !b.evs[i].internal
  {
    var e := Ev(false, false, false, false, false, false, event, false, 0, None, pri, io, persist, closurePersist, 0, None);
    TimersNew(b.evs, b.ctls, b.calling, e);
    hide HeapOk, QueuesOk, ActivesOk, LaterOk, Sum, Lengths, EvsOk, TimersOk, User;
    i := b.NewEv(e);
  }

  lemma TimersNew(evs: seq<Ev>, ctls: seq<Ctl>, calling: Option<nat>, e: Ev)
    requires QueuesOk(evs, ctls) && TimersOk(evs, ctls, calling)
    ensures TimersOk(evs + [e], ctls, calling) && User(ctls, |evs|)
  {
    forall c {:trigger ctls[c]} | 0 <= c < |ctls|
      ensures ctls[c].timer < |evs + [e]| && TimerOk((evs + [e])[ctls[c].timer]) && Driven(evs + [e], ctls[c], calling == Some(c))
    {
      assert TimerOk(evs[ctls[c].timer]) && Driven(evs, ctls[c], calling == Some(c));
      HeadRange(evs, ctls, c);
      DrivenNew(evs, ctls[c], calling == Some(c), e);
    }
  }

  lemma DrivenNew(evs: seq<Ev>, ctl: Ctl, called: bool, e: Ev)
    requires ctl.timer < |evs| && Driven(evs, ctl, called)
    requires |ctl.events| > 0 ==> ctl.events[0] < |evs|
    ensures Driven(evs + [e], ctl, called)
  {
  }

  const SECOND: nat := 1000000

  /** A duration as its queue is looked up: with less than a second in microseconds, except that a duration that
      is not marked with a queue may have exactly a second in them. */
  function Normal(d: Duration, marked: bool): Duration {
    if marked || d.usec > SECOND then Duration(d.sec + d.usec / SECOND, d.usec % SECOND) else d
  }

  /** Two durations of the same length have the same queue unless exactly one of them has a second in
      microseconds. */
  lemma SameQueue(d: Duration, e: Duration)
    requires d.sec * SECOND + d.usec == e.sec * SECOND + e.usec
    ensures Normal(d, false) == Normal(e, false) <==> (d.usec == SECOND <==> e.usec == SECOND)
  {
    if d.usec != SECOND && e.usec != SECOND {
      NormalParts(d);
      NormalParts(e);
    }
  }

  lemma NormalParts(d: Duration)
    requires d.usec != SECOND
    ensures var n := Normal(d, false); n.usec < SECOND && n.sec * SECOND + n.usec == d.sec * SECOND + d.usec
  {
  }

  /** event_base_init_common_timeout: the queue for a duration, made when there is none, or None when
      there are too many. */
  method InitCommonTimeout(b: EventBase, duration: Duration, marked: bool) returns (c: Option<nat>)
    requires Ok(b) && |b.active| > 0
    modifies b`evs, b`ctls
    ensures Ok(b)
    ensures c.Some? ==> c.value < |b.ctls| && b.ctls[c.value].duration == Normal(duration, marked)
    ensures (exists d {:trigger old(b.ctls)[d]} ::
               0 <= d < |old(b.ctls)| && old(b.ctls)[d].duration == Normal(duration, marked)) ==>
              c.Some? && b.ctls == old(b.ctls)
    ensures c.None? ==> b.ctls == old(b.ctls) && |b.ctls| >= MAX_COMMON_TIMEOUTS
    ensures |old(b.evs)| <= |b.evs| && b.evs[..|old(b.evs)|] == old(b.evs)
  {
    var d := duration;
    if marked || d.usec > SECOND {
      d := Duration(d.sec + d.usec / SECOND, d.usec % SECOND);
    }
    c := FindQueue(b.ctls, d);
    if c.None? && |b.ctls| < MAX_COMMON_TIMEOUTS {
      var q := AddQueue(b, d);
      c := Some(q);
    }
  }

  method FindQueue(ctls: seq<Ctl>, duration: Duration) returns (c: Option<nat>)
    ensures c.Some? ==> c.value < |ctls| && ctls[c.value].duration == duration
    ensures c.None? ==> forall d {:trigger ctls[d]} :: 0 <= d < |ctls| ==> ctls[d].duration != duration
  {
    var k := 0;
    while k < |ctls|
      invariant k <= |ctls| && forall d {:trigger ctls[d]} :: 0 <= d < k ==> ctls[d].duration != duration
    {
      if ctls[k].duration == duration {
        return Some(k);
      }
      k := k + 1;
    }
    c := None;
  }

  /** A new queue of common timeouts with its internal event. */
  method AddQueue(b: EventBase, duration: Duration) returns (q: nat)
    requires Ok(b) && |b.active| > 0
    modifies b`evs, b`ctls
    ensures Ok(b) && q == |old(b.ctls)| && |b.ctls| == q + 1 && b.ctls[q].duration == duration
    ensures |old(b.evs)| <= |b.evs| && b.evs[..|old(b.evs)|] == old(b.evs)
  {
    var e := Ev(false, false, false, false, true, false, true, false, 0, None, 0, false, false, false, 0, None);
    TimersNew(b.evs, b.ctls, b.calling, e);
    QueueAdded(b.evs + [e], b.ctls, b.calling, Ctl([], |b.evs|, duration));
    hide HeapOk, QueuesOk, ActivesOk, LaterOk, Sum, Lengths, EvsOk, TimersOk, User;
    var i := b.NewEv(e);
    q := b.NewQueue(i, duration);
  }

  lemma QueueAdded(evs: seq<Ev>, ctls: seq<Ctl>, calling: Option<nat>, ctl: Ctl)
    requires TimersOk(evs, ctls, calling) && User(ctls, ctl.timer) && ctl.events == []
    requires ctl.timer < |evs| && TimerOk(evs[ctl.timer])
    ensures TimersOk(evs, ctls + [ctl], calling)
  {
    var cs := ctls + [ctl];
    forall c {:trigger cs[c]} | 0 <= c < |cs|
      ensures cs[c].timer < |evs| && TimerOk(evs[cs[c].timer]) && Driven(evs, cs[c], calling == Some(c))
    {
      assert c < |ctls| ==> cs[c] == ctls[c];
    }
    forall c, d {:trigger cs[c], cs[d]} | 0 <= c < d < |cs| ensures cs[c].timer != cs[d].timer {
      assert cs[c] == ctls[c] && (d < |ctls| ==> cs[d] == ctls[d]);
    }
  }
}
