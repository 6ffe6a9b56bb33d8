/** The queues of an event base and the counters that go with them. */
module EventQueues {
  import opened Lists
  import opened Options

  /** An event, or a bare callback when event is not set. The flags are those of evcb_flags; deadline is
      its time in microseconds, and common the queue it belongs to when its timeout is a common one.
      interval and intervalCommon are ev_io_timeout. */
  datatype Ev = Ev(timeout: bool, inserted: bool, active: bool, later: bool, internal: bool, finalizing: bool, event: bool,
                   resTimeout: bool, deadline: int, common: Option<nat>, pri: nat, io: bool, persist: bool,
                   closurePersist: bool, interval: nat, intervalCommon: Option<nat>)

  /** Seconds, and microseconds that need not be less than one. */
  datatype Duration = Duration(sec: int, usec: nat)

  /** A queue of events with the same timeout, and the internal event that drives it. */
  datatype Ctl = Ctl(events: seq<nat>, timer: nat, duration: Duration)

  function Bit(b: bool): nat {
    if b then 1 else 0
  }

  /** What an event adds to event_count. */
  function Weight(e: Ev): nat {
    if e.internal then 0 else Bit(e.timeout) + Bit(e.inserted) + Bit(e.active) + Bit(e.later)
  }

  function Sum(evs: seq<Ev>): nat {
    if |evs| == 0 then 0 else Weight(evs[0]) + Sum(evs[1..])
  }

  /** Deadlines do not go down along s. */
  predicate Sorted(evs: seq<Ev>, s: seq<nat>) {
    && (forall i {:trigger s[i]} :: 0 <= i < |s| ==> s[i] < |evs|)
    && (forall i, j {:trigger s[i], s[j]} :: 0 <= i < j < |s| ==> evs[s[i]].deadline <= evs[s[j]].deadline)
  }

  // ---------------------------------------------------------------- invariants

  /** Exactly the events whose flags say so, and that belong there, are in the heap or in queue c. */
  predicate HeapOk(evs: seq<Ev>, heap: set<nat>) {
    && (forall i {:trigger i in heap} :: i in heap ==> i < |evs|)
    && (forall i {:trigger evs[i]} :: 0 <= i < |evs| ==> (i in heap <==> evs[i].timeout && evs[i].common.None?))
  }

  predicate QueueOk(evs: seq<Ev>, q: seq<nat>, c: nat) {
    && NoDuplicates(q) && Sorted(evs, q)
    && (forall i {:trigger evs[i]} :: 0 <= i < |evs| ==> (i in q <==> evs[i].timeout && evs[i].common == Some(c)))
  }

  predicate QueuesOk(evs: seq<Ev>, ctls: seq<Ctl>) {
    && (forall c {:trigger ctls[c]} :: 0 <= c < |ctls| ==> QueueOk(evs, ctls[c].events, c))
    && (forall i {:trigger evs[i]} :: 0 <= i < |evs| && evs[i].common.Some? ==> evs[i].common.value < |ctls|)
  }

  /** Exactly the callbacks that are active and have priority p are in queue p. */
  predicate ActiveOk(evs: seq<Ev>, q: seq<nat>, p: nat) {
    && NoDuplicates(q)
    && (forall i {:trigger i in q} :: i in q ==> i < |evs|)
    && (forall i {:trigger evs[i]} :: 0 <= i < |evs| ==> (i in q <==> evs[i].active && evs[i].pri == p))
  }

  predicate ActivesOk(evs: seq<Ev>, active: seq<seq<nat>>) {
    && (forall p {:trigger active[p]} :: 0 <= p < |active| ==> ActiveOk(evs, active[p], p))
    && (forall i {:trigger evs[i]} :: 0 <= i < |evs| ==> evs[i].pri < |active|)
  }

  predicate LaterOk(evs: seq<Ev>, later: seq<nat>) {
    && NoDuplicates(later)
    && (forall i {:trigger i in later} :: i in later ==> i < |evs|)
    && (forall i {:trigger evs[i]} :: 0 <= i < |evs| ==> (i in later <==> evs[i].later))
  }

  /** No callback is active and due later at once; a finalizing one waits for nothing; a persistent event
      that waits for a timeout remembers the interval of the same queue. */
  predicate EvOk(e: Ev) {
    && !(e.active && e.later)
    && (e.finalizing ==> !e.timeout && !e.inserted)
    && (!e.event ==> !e.timeout && !e.inserted && !e.closurePersist)
    && (e.closurePersist ==> e.common == e.intervalCommon)
  }

  predicate EvsOk(evs: seq<Ev>) {
    forall i {:trigger evs[i]} :: 0 <= i < |evs| ==> EvOk(evs[i])
  }

  // ---------------------------------------------------------------- lists

  lemma {:induction false} DropSorted(evs: seq<Ev>, s: seq<nat>, x: nat)
    requires Sorted(evs, s)
    ensures Sorted(evs, Drop(s, x))
    ensures |Drop(s, x)| > 0 ==> evs[s[0]].deadline <= evs[Drop(s, x)[0]].deadline
    ensures forall y :: y in Drop(s, x) ==> y in s
  {
    if |s| > 0 {
      var t := s[1..];
      assert forall i {:trigger t[i]} :: 0 <= i < |t| ==> t[i] == s[i + 1];
      DropSorted(evs, t, x);
      var d := Drop(t, x);
      forall i | 0 <= i < |d| ensures d[i] < |evs| && evs[s[0]].deadline <= evs[d[i]].deadline {
        assert d[i] in t;
        var k :| 0 <= k < |t| && t[k] == d[i];
      }
    }
  }

  lemma {:induction false} SumUpdate(evs: seq<Ev>, i: nat, e: Ev)
    requires i < |evs|
    ensures Sum(evs[i := e]) + Weight(evs[i]) == Sum(evs) + Weight(e)
    ensures Sum(evs) >= Weight(evs[i])
  {
    var f := evs[i := e];
    if i == 0 {
      assert f[1..] == evs[1..];
    } else {
      SumUpdate(evs[1..], i - 1, e);
      assert f[1..] == evs[1..][i - 1 := e];
    }
  }

  // ---------------------------------------------------------------- changes of one event

  /** e' differs from e in nothing that concerns timeouts. */
  predicate SameTimeout(e: Ev, e': Ev) {
    e'.timeout == e.timeout && e'.common == e.common && (e.timeout ==> e'.deadline == e.deadline)
  }

  predicate SameActive(e: Ev, e': Ev) {
    e'.active == e.active && e'.later == e.later && e'.pri == e.pri
  }

  lemma TimeoutsSame(evs: seq<Ev>, heap: set<nat>, ctls: seq<Ctl>, i: nat, e: Ev)
    requires HeapOk(evs, heap) && QueuesOk(evs, ctls) && i < |evs| && SameTimeout(evs[i], e)
    ensures HeapOk(evs[i := e], heap) && QueuesOk(evs[i := e], ctls)
  {
    hide NoDuplicates;
    var f := evs[i := e];
    assert forall k {:trigger f[k]} :: 0 <= k < |f| && k != i ==> f[k] == evs[k];
    forall c {:trigger ctls[c]} | 0 <= c < |ctls| ensures QueueOk(f, ctls[c].events, c) {
      var q := ctls[c].events;
      assert QueueOk(evs, q, c);
      forall k {:trigger q[k]} | 0 <= k < |q| ensures f[q[k]].deadline == evs[q[k]].deadline {
        assert q[k] in q;
      }
    }
  }

  lemma ActivesSame(evs: seq<Ev>, active: seq<seq<nat>>, later: seq<nat>, i: nat, e: Ev)
    requires ActivesOk(evs, active) && LaterOk(evs, later) && i < |evs| && SameActive(evs[i], e)
    ensures ActivesOk(evs[i := e], active) && LaterOk(evs[i := e], later)
  {
    var f := evs[i := e];
    assert forall k {:trigger f[k]} :: 0 <= k < |f| && k != i ==> f[k] == evs[k];
    forall p {:trigger active[p]} | 0 <= p < |active| ensures ActiveOk(f, active[p], p) {
      assert ActiveOk(evs, active[p], p);
    }
  }

  lemma EvKnown(evs: seq<Ev>, i: nat)
    requires EvsOk(evs) && i < |evs|
    ensures EvOk(evs[i])
  {
  }

  lemma PriKnown(evs: seq<Ev>, active: seq<seq<nat>>, i: nat)
    requires ActivesOk(evs, active) && i < |evs|
    ensures evs[i].pri < |active|
  {
  }

  lemma EvsUpdate(evs: seq<Ev>, i: nat, e: Ev)
    requires EvsOk(evs) && i < |evs| && EvOk(e)
    ensures EvsOk(evs[i := e])
  {
  }

  /** r is the sorted queue q with i at the place its deadline gives it, behind equal ones. */
  ghost predicate Inserted(evs: seq<Ev>, q: seq<nat>, i: nat, r: seq<nat>) {
    exists k {:trigger q[..k]} :: 0 <= k <= |q| && r == q[..k] + [i] + q[k..] && InPlace(evs, q, i, k)
  }

  predicate InPlace(evs: seq<Ev>, q: seq<nat>, i: nat, k: nat) {
    && i < |evs| && k <= |q|
    && (k > 0 ==> q[k - 1] < |evs| && evs[q[k - 1]].deadline <= evs[i].deadline)
    && (k < |q| ==> q[k] < |evs| && evs[i].deadline < evs[q[k]].deadline)
  }

  /** The callbacks of s with priority p, in order. */
  function OfPriority(evs: seq<Ev>, s: seq<nat>, p: nat): seq<nat> {
    if |s| == 0 then [] else (if s[0] < |evs| && evs[s[0]].pri == p then [s[0]] else []) + OfPriority(evs, s[1..], p)
  }

  lemma {:induction false} OfPrioritySnoc(evs: seq<Ev>, s: seq<nat>, i: nat, p: nat)
    requires i < |evs|
    ensures OfPriority(evs, s + [i], p) == OfPriority(evs, s, p) + if evs[i].pri == p then [i] else []
  {
    if |s| == 0 {
      assert (s + [i])[1..] == [];
    } else {
      assert (s + [i])[1..] == s[1..] + [i];
      OfPrioritySnoc(evs, s[1..], i, p);
    }
  }

  /** After the first k callbacks of later have been moved: they are active, and in their queues in
      that order. */
  predicate Moved(evs0: seq<Ev>, active0: seq<seq<nat>>, later: seq<nat>, k: nat, evs: seq<Ev>, active: seq<seq<nat>>) {
    && k <= |later| && |evs| == |evs0| && |active| == |active0|
    && (forall i {:trigger evs[i]} :: 0 <= i < |evs| ==>
          && (i in later[..k] ==> evs[i] == evs0[i].(later := false, active := true))
          && (i !in later[..k] ==> evs[i] == evs0[i]))
    && (forall p {:trigger active[p]} :: 0 <= p < |active| ==> active[p] == active0[p] + OfPriority(evs0, later[..k], p))
  }

  lemma MovedNone(evs: seq<Ev>, active: seq<seq<nat>>, later: seq<nat>)
    ensures Moved(evs, active, later, 0, evs, active)
  {
    assert later[..0] == [];
  }

  lemma MovedStep(evs0: seq<Ev>, active0: seq<seq<nat>>, later: seq<nat>, k: nat, evs: seq<Ev>, active: seq<seq<nat>>)
    requires Moved(evs0, active0, later, k, evs, active) && k < |later| && NoDuplicates(later)
    requires later[k] < |evs| && evs[later[k]].pri < |active|
    ensures var i := later[k];
            var p := evs[i].pri;
            Moved(evs0, active0, later, k + 1, evs[i := evs[i].(later := false, active := true)], active[p := active[p] + [i]])
  {
    var i := later[k];
    assert later[..k + 1] == later[..k] + [i];
    assert i !in later[..k];
    var p := evs[i].pri;
    var f, qs := evs[i := evs[i].(later := false, active := true)], active[p := active[p] + [i]];
    assert forall m {:trigger f[m]} :: 0 <= m < |f| && m != i ==> f[m] == evs[m];
    forall r {:trigger qs[r]} | 0 <= r < |qs| ensures qs[r] == active0[r] + OfPriority(evs0, later[..k + 1], r) {
      OfPrioritySnoc(evs0, later[..k], i, r);
      assert active[r] == active0[r] + OfPriority(evs0, later[..k], r);
    }
  }

  class EventBase {
    var evs: seq<Ev>
    var heap: set<nat>
    var ctls: seq<Ctl>
    /** One queue of active callbacks for each priority, and those to be activated later. */
    var active: seq<seq<nat>>
    var later: seq<nat>
    var eventCount: int
    var activeCount: int
    /** The callback that is being run. */
    var running: Option<nat>
    /** The queue of timeouts whose callback has been called, but does not have the lock yet. */
    var calling: Option<nat>

    /** Every callback is in the queues its flags say, and the counters are exact. */
    ghost predicate Valid()
      reads this
    {
      && HeapOk(evs, heap) && QueuesOk(evs, ctls) && ActivesOk(evs, active) && LaterOk(evs, later) && EvsOk(evs)
      && eventCount == Sum(evs) && activeCount == Lengths(active) + |later|
    }

    constructor (priorities: nat)
      ensures Valid() && evs == [] && ctls == [] && |active| == priorities && running == None && calling == None
    {
      evs, heap, ctls, later, eventCount, activeCount := [], {}, [], [], 0, 0;
      active := seq(priorities, _ => []);
      running, calling := None, None;
      new;
      NoLengths(active);
    }

    /** A new callback, in no queue. */
    method NewEv(e: Ev) returns (i: nat)
      requires Valid() && New(e) && e.pri < |active| && EvOk(e)
      modifies this`evs
      ensures Valid() && i == |old(evs)| && evs == old(evs) + [e]
    {
      i := |evs|;
      TimeoutsNew(evs, heap, ctls, e);
      ActivesNew(evs, active, later, e);
      hide HeapOk, QueuesOk, ActivesOk, LaterOk;
      SumNew(evs, e);
      evs := evs + [e];
    }

    /** A new queue of common timeouts. */
    method NewQueue(timer: nat, duration: Duration) returns (c: nat)
      requires Valid()
      modifies this`ctls
      ensures Valid() && c == |old(ctls)| && ctls == old(ctls) + [Ctl([], timer, duration)]
    {
      c := |ctls|;
      QueueNew(evs, ctls, Ctl([], timer, duration));
      ctls := ctls + [Ctl([], timer, duration)];
    }

    /** event_queue_remove_inserted */
    method RemoveInserted(i: nat)
      requires Valid() && i < |evs| && evs[i].inserted
      modifies this`evs, this`eventCount
      ensures Valid() && evs == old(evs)[i := old(evs)[i].(inserted := false)]
      ensures eventCount == old(eventCount) - if evs[i].internal then 0 else 1
    {
      hide HeapOk, QueuesOk, ActivesOk, LaterOk, EvsOk, Sum, Lengths, Inserted, Drop;
      var e := evs[i].(inserted := false);
      EvKnown(evs, i);
      EvsUpdate(evs, i, e);
      SumUpdate(evs, i, e);
      TimeoutsSame(evs, heap, ctls, i, e);
      ActivesSame(evs, active, later, i, e);
      eventCount := eventCount - Bit(!evs[i].internal);
      evs := evs[i := e];
    }

    /** event_queue_insert_inserted */
    method InsertInserted(i: nat)
      requires Valid() && i < |evs| && !evs[i].inserted && !evs[i].finalizing && evs[i].event
      modifies this`evs, this`eventCount
      ensures Valid() && evs == old(evs)[i := old(evs)[i].(inserted := true)]
      ensures eventCount == old(eventCount) + if evs[i].internal then 0 else 1
    {
      hide HeapOk, QueuesOk, ActivesOk, LaterOk, EvsOk, Sum, Lengths, Inserted, Drop;
      var e := evs[i].(inserted := true);
      EvKnown(evs, i);
      EvsUpdate(evs, i, e);
      SumUpdate(evs, i, e);
      TimeoutsSame(evs, heap, ctls, i, e);
      ActivesSame(evs, active, later, i, e);
      eventCount := eventCount + Bit(!evs[i].internal);
      evs := evs[i := e];
    }

    /** event_queue_remove_active */
    method RemoveActive(i: nat)
      requires Valid() && i < |evs| && evs[i].active
      modifies this`evs, this`eventCount, this`active, this`activeCount
      ensures Valid() && evs == old(evs)[i := old(evs)[i].(active := false)]
      ensures evs[i].pri < |old(active)| && active == old(active)[evs[i].pri := Drop(old(active)[evs[i].pri], i)]
      ensures activeCount == old(activeCount) - 1 && eventCount == old(eventCount) - if evs[i].internal then 0 else 1
    {
      hide HeapOk, QueuesOk, ActivesOk, LaterOk, EvsOk, Sum, Lengths, Inserted, Drop;
      var e, p := evs[i].(active := false), evs[i].pri;
      EvKnown(evs, i);
      EvsUpdate(evs, i, e);
      SumUpdate(evs, i, e);
      TimeoutsSame(evs, heap, ctls, i, e);
      ActiveDropped(evs, active, later, i);
      LengthsUpdate(active, p, Drop(active[p], i));
      eventCount := eventCount - Bit(!evs[i].internal);
      activeCount := activeCount - 1;
      evs := evs[i := e];
      active := active[p := Drop(active[p], i)];
    }

    /** event_queue_insert_active */
    method InsertActive(i: nat)
      requires Valid() && i < |evs| && !evs[i].later
      modifies this`evs, this`eventCount, this`active, this`activeCount
      ensures Valid() && evs == old(evs)[i := old(evs)[i].(active := true)]
      ensures evs[i].pri < |old(active)|
      ensures active == if old(evs)[i].active then old(active)
                        else old(active)[evs[i].pri := old(active)[evs[i].pri] + [i]]
      ensures activeCount == old(activeCount) + if old(evs)[i].active then 0 else 1
      ensures eventCount == old(eventCount) + if old(evs)[i].active || evs[i].internal then 0 else 1
    {
      hide HeapOk, QueuesOk, ActivesOk, LaterOk, EvsOk, Sum, Lengths, Inserted, Drop;
      var e, p := evs[i].(active := true), evs[i].pri;
      if evs[i].active {
        PriKnown(evs, active, i);
        assert evs == evs[i := e];
        return;
      }
      EvKnown(evs, i);
      EvsUpdate(evs, i, e);
      SumUpdate(evs, i, e);
      TimeoutsSame(evs, heap, ctls, i, e);
      ActiveAppended(evs, active, later, i);
      LengthsUpdate(active, p, active[p] + [i]);
      eventCount := eventCount + Bit(!evs[i].internal);
      activeCount := activeCount + 1;
      evs := evs[i := e];
      active := active[p := active[p] + [i]];
    }

    /** event_queue_remove_active_later */
    method RemoveLater(i: nat)
      requires Valid() && i < |evs| && evs[i].later
      modifies this`evs, this`eventCount, this`later, this`activeCount
      ensures Valid() && evs == old(evs)[i := old(evs)[i].(later := false)]
      ensures later == Drop(old(later), i) && activeCount == old(activeCount) - 1
      ensures eventCount == old(eventCount) - if evs[i].internal then 0 else 1
    {
      hide HeapOk, QueuesOk, ActivesOk, LaterOk, EvsOk, Sum, Lengths, Inserted, Drop;
      var e := evs[i].(later := false);
      EvKnown(evs, i);
      EvsUpdate(evs, i, e);
      SumUpdate(evs, i, e);
      TimeoutsSame(evs, heap, ctls, i, e);
      LaterDropped(evs, active, later, i);
      eventCount := eventCount - Bit(!evs[i].internal);
      activeCount := activeCount - 1;
      evs := evs[i := e];
      later := Drop(later, i);
    }

    /** event_queue_insert_active_later */
    method InsertLater(i: nat)
      requires Valid() && i < |evs|
      modifies this`evs, this`eventCount, this`later, this`activeCount
      ensures Valid()
      ensures if old(evs)[i].active || old(evs)[i].later then evs == old(evs) && later == old(later)
              else evs == old(evs)[i := old(evs)[i].(later := true)] && later == old(later) + [i]
      ensures activeCount == old(activeCount) + if old(evs)[i].active || old(evs)[i].later then 0 else 1
      ensures eventCount == old(eventCount) + if old(evs)[i].active || old(evs)[i].later || old(evs)[i].internal then 0 else 1
    {
      hide HeapOk, QueuesOk, ActivesOk, LaterOk, EvsOk, Sum, Lengths, Inserted, Drop;
      if evs[i].later || evs[i].active {
        return;
      }
      var e := evs[i].(later := true);
      EvKnown(evs, i);
      EvsUpdate(evs, i, e);
      SumUpdate(evs, i, e);
      TimeoutsSame(evs, heap, ctls, i, e);
      LaterAppended(evs, active, later, i);
      eventCount := eventCount + Bit(!evs[i].internal);
      activeCount := activeCount + 1;
      evs := evs[i := e];
      later := later + [i];
    }

    /** event_queue_remove_timeout */
    method RemoveTimeout(i: nat)
      requires Valid() && i < |evs| && evs[i].timeout
      modifies this`evs, this`eventCount, this`heap, this`ctls
      ensures Valid() && evs == old(evs)[i := old(evs)[i].(timeout := false)] && |ctls| == |old(ctls)|
      ensures eventCount == old(eventCount) - if evs[i].internal then 0 else 1
      ensures old(evs)[i].common.None? ==> heap == old(heap) - {i} && i in old(heap) && ctls == old(ctls)
      ensures old(evs)[i].common.Some? ==>
                var c := old(evs)[i].common.value;
                && c < |old(ctls)| && heap == old(heap)
                && ctls == old(ctls)[c := old(ctls)[c].(events := Drop(old(ctls)[c].events, i))]
    {
      hide HeapOk, QueuesOk, ActivesOk, LaterOk, EvsOk, Sum, Lengths, Inserted, Drop;
      var e := evs[i].(timeout := false);
      TimeoutDropped(evs, heap, ctls, i, e);
      EvKnown(evs, i);
      EvsUpdate(evs, i, e);
      SumUpdate(evs, i, e);
      ActivesSame(evs, active, later, i, e);
      eventCount := eventCount - Bit(!evs[i].internal);
      match evs[i].common {
        case Some(c) => ctls := ctls[c := ctls[c].(events := Drop(ctls[c].events, i))];
        case None => heap := heap - {i};
      }
      evs := evs[i := e];
    }

    /** Sets the deadline, and the interval, of an event that is in no queue of timeouts. */
    method SetDeadline(i: nat, deadline: int, common: Option<nat>, interval: nat, intervalCommon: Option<nat>)
      requires Valid() && i < |evs| && !evs[i].timeout && (common.Some? ==> common.value < |ctls|)
      requires evs[i].closurePersist ==> common == intervalCommon
      modifies this`evs
      ensures Valid()
      ensures evs == old(evs)[i :=
                old(evs)[i].(deadline := deadline, common := common, interval := interval, intervalCommon := intervalCommon)]
    {
      var e := evs[i].(deadline := deadline, common := common, interval := interval, intervalCommon := intervalCommon);
      DeadlineSet(evs, heap, ctls, i, e);
      hide HeapOk, QueuesOk, ActivesOk, LaterOk;
      SumUpdate(evs, i, e);
      ActivesSame(evs, active, later, i, e);
      evs := evs[i := e];
    }

    /** event_queue_insert_timeout */
    method InsertTimeout(i: nat)
      requires Valid() && i < |evs| && !evs[i].timeout && !evs[i].finalizing && evs[i].event
      modifies this`evs, this`eventCount, this`heap, this`ctls
      ensures Valid() && evs == old(evs)[i := old(evs)[i].(timeout := true)] && |ctls| == |old(ctls)|
      ensures eventCount == old(eventCount) + if evs[i].internal then 0 else 1
      ensures evs[i].common.None? ==> heap == old(heap) + {i} && ctls == old(ctls)
      ensures evs[i].common.Some? ==>
                var c := evs[i].common.value;
                && c < |ctls| && heap == old(heap) && Inserted(old(evs), old(ctls)[c].events, i, ctls[c].events)
                && ctls == old(ctls)[c := old(ctls)[c].(events := ctls[c].events)]
    {
      hide HeapOk, QueuesOk, ActivesOk, LaterOk, EvsOk, Sum, Lengths, Inserted, Drop;
      var e := evs[i].(timeout := true);
      CommonInRange(evs, ctls, i);
      EvKnown(evs, i);
      EvsUpdate(evs, i, e);
      SumUpdate(evs, i, e);
      ActivesSame(evs, active, later, i, e);
      eventCount := eventCount + Bit(!evs[i].internal);
      match evs[i].common {
        case Some(c) =>
          QueueSorted(evs, ctls, c);
          var q := InsertInorder(evs, ctls[c].events, i);
          QueueInserted(evs, heap, ctls, i, e, c, q);
          ctls := ctls[c := ctls[c].(events := q)];
        case None =>
          HeapInserted(evs, heap, ctls, i, e);
          heap := heap + {i};
      }
      evs := evs[i := e];
    }

    /** The loop of insert_common_timeout_inorder, from the end of the queue. */
    static method InsertInorder(evs: seq<Ev>, q: seq<nat>, i: nat) returns (r: seq<nat>)
      requires Sorted(evs, q) && i < |evs|
      ensures Inserted(evs, q, i, r)
    {
      var k := |q|;
      while k > 0 && evs[i].deadline < evs[q[k - 1]].deadline
        invariant 0 <= k <= |q|
        invariant k < |q| ==> evs[i].deadline < evs[q[k]].deadline
      {
        k := k - 1;
      }
      r := q[..k] + [i] + q[k..];
    }

    /** Changes what an event is like, but not where it is. */
    method Amend(i: nat, e: Ev)
      requires Valid() && i < |evs| && EvOk(e) && SameTimeout(evs[i], e) && SameActive(evs[i], e)
      requires e.inserted == evs[i].inserted && e.internal == evs[i].internal
      modifies this`evs
      ensures Valid() && evs == old(evs)[i := e]
    {
      TimeoutsSame(evs, heap, ctls, i, e);
      ActivesSame(evs, active, later, i, e);
      hide HeapOk, QueuesOk, ActivesOk, LaterOk;
      SumUpdate(evs, i, e);
      evs := evs[i := e];
    }

    /** One round of event_queue_make_later_events_active. */
    method MoveFirst()
      requires Valid() && |later| > 0
      modifies this`evs, this`active, this`later
      ensures Valid() && later == old(later)[1..] && old(later)[0] < |old(evs)| && old(evs)[old(later)[0]].pri < |old(active)|
      ensures var i := old(later)[0];
              var p := old(evs)[i].pri;
              && evs == old(evs)[i := old(evs)[i].(later := false, active := true)]
              && active == old(active)[p := old(active)[p] + [i]]
    {
      LaterMoved(evs, heap, ctls, active, later);
      hide HeapOk, QueuesOk, ActivesOk, LaterOk, EvsOk, Sum, Lengths;
      var i := later[0];
      var p := evs[i].pri;
      evs := evs[i := evs[i].(later := false, active := true)];
      later := later[1..];
      active := active[p := active[p] + [i]];
    }

    /** event_queue_make_later_events_active: the callbacks keep their order. */
    method MakeLaterActive()
      requires Valid()
      modifies this`evs, this`active, this`later
      ensures Valid() && later == []
      ensures Moved(old(evs), old(active), old(later), |old(later)|, evs, active)
    {
      LaterRange(evs, later);
      ghost var k := 0;
      ghost var l, evs0, active0 := later, evs, active;
      MovedNone(evs, active, l);
      hide HeapOk, QueuesOk, ActivesOk, LaterOk, EvsOk, Sum, Lengths, Moved;
      while |later| > 0
        invariant Valid()
        invariant k <= |l| && later == l[k..] && Moved(evs0, active0, l, k, evs, active)
        decreases |later|
      {
        ghost var f, qs := evs, active;
        MoveFirst();
        MovedStep(evs0, active0, l, k, f, qs);
        k := k + 1;
      }
    }
  }

  /** A queue is not affected by a change of an event that is not and will not be in it. */
  lemma QueueOther(evs: seq<Ev>, i: nat, e: Ev, q: seq<nat>, c: nat)
    requires QueueOk(evs, q, c) && i < |evs|
    requires !(evs[i].timeout && evs[i].common == Some(c)) && !(e.timeout && e.common == Some(c))
    ensures QueueOk(evs[i := e], q, c)
  {
    var f := evs[i := e];
    assert forall k {:trigger f[k]} :: 0 <= k < |f| && k != i ==> f[k] == evs[k];
    assert i !in q;
    forall k {:trigger q[k]} | 0 <= k < |q| ensures q[k] < |evs| && q[k] != i {
      assert q[k] in q;
    }
  }

  lemma QueueDrop(evs: seq<Ev>, i: nat, e: Ev, q: seq<nat>, c: nat)
    requires QueueOk(evs, q, c) && i < |evs| && evs[i].timeout && evs[i].common == Some(c) && !e.timeout
    ensures QueueOk(evs[i := e], Drop(q, i), c)
  {
    var f, d := evs[i := e], Drop(q, i);
    DropFacts(q, i);
    DropSorted(evs, q, i);
    assert forall k {:trigger f[k]} :: 0 <= k < |f| && k != i ==> f[k] == evs[k];
    forall k {:trigger d[k]} | 0 <= k < |d| ensures d[k] < |evs| && d[k] != i {
      assert d[k] in d;
    }
    hide Drop, NoDuplicates;
    assert Sorted(f, d);
  }

  lemma QueueInsert(evs: seq<Ev>, i: nat, e: Ev, q: seq<nat>, c: nat, r: seq<nat>)
    requires QueueOk(evs, q, c) && i < |evs| && !evs[i].timeout && e.timeout && e.common == Some(c)
    requires e.deadline == evs[i].deadline && Inserted(evs, q, i, r)
    ensures QueueOk(evs[i := e], r, c)
  {
    hide NoDuplicates, InPlace, Sorted;
    var f := evs[i := e];
    var k :| 0 <= k <= |q| && r == q[..k] + [i] + q[k..] && InPlace(evs, q, i, k);
    assert i !in q;
    InsertedQueue(evs, q, i, k, r);
    assert forall m {:trigger f[m]} :: 0 <= m < |f| && m != i ==> f[m] == evs[m];
    SortedSame(evs, f, r);
  }

  /** Sortedness depends on deadlines only. */
  lemma {:induction false} SortedSame(evs: seq<Ev>, f: seq<Ev>, q: seq<nat>)
    requires Sorted(evs, q) && |f| == |evs|
    requires forall k {:trigger f[k]} :: 0 <= k < |f| ==> f[k].deadline == evs[k].deadline
    ensures Sorted(f, q)
  {
  }

  lemma TimeoutDropped(evs: seq<Ev>, heap: set<nat>, ctls: seq<Ctl>, i: nat, e: Ev)
    requires HeapOk(evs, heap) && QueuesOk(evs, ctls) && i < |evs| && evs[i].timeout && e == evs[i].(timeout := false)
    ensures evs[i].common.None? ==> i in heap && HeapOk(evs[i := e], heap - {i}) && QueuesOk(evs[i := e], ctls)
    ensures evs[i].common.Some? ==>
              var c := evs[i].common.value;
              c < |ctls| && HeapOk(evs[i := e], heap) && QueuesOk(evs[i := e], ctls[c := ctls[c].(events := Drop(ctls[c].events, i))])
  {
    var d := evs[i].common;
    var cs := if d.None? then ctls else ctls[d.value := ctls[d.value].(events := Drop(ctls[d.value].events, i))];
    forall c {:trigger cs[c]} | 0 <= c < |cs| ensures QueueOk(evs[i := e], cs[c].events, c) {
      assert QueueOk(evs, ctls[c].events, c);
      if d == Some(c) {
        QueueDrop(evs, i, e, ctls[c].events, c);
      } else {
        QueueOther(evs, i, e, ctls[c].events, c);
      }
    }
    hide QueueOk, Drop;
    assert QueuesOk(evs[i := e], cs);
  }

  lemma DeadlineSet(evs: seq<Ev>, heap: set<nat>, ctls: seq<Ctl>, i: nat, e: Ev)
    requires HeapOk(evs, heap) && QueuesOk(evs, ctls) && i < |evs| && !evs[i].timeout && !e.timeout
    requires e.common.Some? ==> e.common.value < |ctls|
    ensures HeapOk(evs[i := e], heap) && QueuesOk(evs[i := e], ctls)
  {
    forall c {:trigger ctls[c]} | 0 <= c < |ctls| ensures QueueOk(evs[i := e], ctls[c].events, c) {
      assert QueueOk(evs, ctls[c].events, c);
      QueueOther(evs, i, e, ctls[c].events, c);
    }
    hide QueueOk;
  }

  lemma CommonInRange(evs: seq<Ev>, ctls: seq<Ctl>, i: nat)
    requires QueuesOk(evs, ctls) && i < |evs|
    ensures evs[i].common.Some? ==> evs[i].common.value < |ctls|
  {
  }

  lemma QueueSorted(evs: seq<Ev>, ctls: seq<Ctl>, c: nat)
    requires QueuesOk(evs, ctls) && c < |ctls|
    ensures Sorted(evs, ctls[c].events)
  {
    assert QueueOk(evs, ctls[c].events, c);
  }

  lemma HeapInserted(evs: seq<Ev>, heap: set<nat>, ctls: seq<Ctl>, i: nat, e: Ev)
    requires HeapOk(evs, heap) && QueuesOk(evs, ctls) && i < |evs| && evs[i].common.None? && e == evs[i].(timeout := true)
    ensures HeapOk(evs[i := e], heap + {i}) && QueuesOk(evs[i := e], ctls)
  {
    HeapMore(evs, heap, i, e);
    hide HeapOk, QueueOk;
    forall c {:trigger ctls[c]} | 0 <= c < |ctls| ensures QueueOk(evs[i := e], ctls[c].events, c) {
      assert QueueOk(evs, ctls[c].events, c);
      QueueOther(evs, i, e, ctls[c].events, c);
    }
  }

  lemma HeapMore(evs: seq<Ev>, heap: set<nat>, i: nat, e: Ev)
    requires HeapOk(evs, heap) && i < |evs| && evs[i].common.None? && e == evs[i].(timeout := true)
    ensures HeapOk(evs[i := e], heap + {i})
  {
  }

  lemma QueueInserted(evs: seq<Ev>, heap: set<nat>, ctls: seq<Ctl>, i: nat, e: Ev, c: nat, q: seq<nat>)
    requires HeapOk(evs, heap) && QueuesOk(evs, ctls) && i < |evs| && !evs[i].timeout && evs[i].common == Some(c) && c < |ctls|
    requires e == evs[i].(timeout := true) && Inserted(evs, ctls[c].events, i, q)
    ensures HeapOk(evs[i := e], heap) && QueuesOk(evs[i := e], ctls[c := ctls[c].(events := q)])
  {
    var cs := ctls[c := ctls[c].(events := q)];
    forall d {:trigger cs[d]} | 0 <= d < |cs| ensures QueueOk(evs[i := e], cs[d].events, d) {
      assert QueueOk(evs, ctls[d].events, d);
      if d == c {
        QueueInsert(evs, i, e, ctls[c].events, c, q);
      } else {
        QueueOther(evs, i, e, ctls[d].events, d);
      }
    }
    hide QueueOk, Inserted;
    assert QueuesOk(evs[i := e], cs);
  }

  /** q is o with i put in at place k. */
  predicate Spliced(o: seq<nat>, i: nat, k: nat, q: seq<nat>) {
    k <= |o| && |q| == |o| + 1
    && forall j {:trigger q[j]} :: 0 <= j < |q| ==>
         (j < k ==> q[j] == o[j]) && (j == k ==> q[j] == i) && (j > k ==> q[j] == o[j - 1])
  }

  lemma SplicedSame(o: seq<nat>, i: nat, k: nat, q: seq<nat>)
    requires Spliced(o, i, k, q) && NoDuplicates(o) && i !in o
    ensures NoDuplicates(q) && forall y :: y in q <==> y in o || y == i
  {
    forall y | y in o ensures y in q {
      var j :| 0 <= j < |o| && o[j] == y;
      assert q[if j < k then j else j + 1] == y;
    }
    assert q[k] == i;
  }

  lemma SplicedSorted(evs: seq<Ev>, o: seq<nat>, i: nat, k: nat, q: seq<nat>)
    requires Spliced(o, i, k, q) && Sorted(evs, o) && InPlace(evs, o, i, k) && i < |evs|
    ensures Sorted(evs, q)
  {
  }

  lemma InsertedQueue(evs: seq<Ev>, o: seq<nat>, i: nat, k: nat, q: seq<nat>)
    requires Sorted(evs, o) && NoDuplicates(o) && i !in o && InPlace(evs, o, i, k) && q == o[..k] + [i] + o[k..]
    requires i < |evs|
    ensures Sorted(evs, q) && NoDuplicates(q) && forall y :: y in q <==> y in o || y == i
  {
    hide Sorted, NoDuplicates;
    assert Spliced(o, i, k, q);
    SplicedSame(o, i, k, q);
    SplicedSorted(evs, o, i, k, q);
  }

  lemma LaterRange(evs: seq<Ev>, later: seq<nat>)
    requires LaterOk(evs, later)
    ensures NoDuplicates(later) && forall k {:trigger later[k]} :: 0 <= k < |later| ==> later[k] < |evs| && evs[later[k]].later
  {
    forall k {:trigger later[k]} | 0 <= k < |later| ensures later[k] < |evs| && evs[later[k]].later {
      assert later[k] in later;
    }
  }

  lemma LaterFirst(later: seq<nat>)
    requires |later| > 0
    ensures Drop(later, later[0]) == later[1..]
  {
  }

  /** The first callback of the later queue moves to the queue of its priority. */
  lemma LaterMoved(evs: seq<Ev>, heap: set<nat>, ctls: seq<Ctl>, active: seq<seq<nat>>, later: seq<nat>)
    requires HeapOk(evs, heap) && QueuesOk(evs, ctls) && ActivesOk(evs, active) && LaterOk(evs, later) && EvsOk(evs) && |later| > 0
    ensures later[0] < |evs| && evs[later[0]].later && evs[later[0]].pri < |active|
    ensures var i := later[0];
            var f, p := evs[i := evs[i].(later := false, active := true)], evs[i].pri;
            var qs := active[p := active[p] + [i]];
            && HeapOk(f, heap) && QueuesOk(f, ctls) && ActivesOk(f, qs) && LaterOk(f, later[1..]) && EvsOk(f)
            && Sum(f) == Sum(evs) && Lengths(qs) == Lengths(active) + 1
  {
    hide HeapOk, QueuesOk, ActivesOk, LaterOk, EvsOk, Sum, Lengths, Drop;
    LaterRange(evs, later);
    var i := later[0];
    LaterFirst(later);
    PriKnown(evs, active, i);
    var e, h := evs[i].(later := false), evs[i].(later := false, active := true);
    EvKnown(evs, i);
    EvsUpdate(evs, i, h);
    TimeoutsSame(evs, heap, ctls, i, h);
    SumUpdate(evs, i, h);
    LengthsUpdate(active, evs[i].pri, active[evs[i].pri] + [i]);
    LaterDropped(evs, active, later, i);
    ActiveAppended(evs[i := e], active, later[1..], i);
    assert evs[i := e][i := h] == evs[i := h];
  }

  /** A callback in no queue. */
  predicate New(e: Ev) {
    !e.timeout && !e.inserted && !e.active && !e.later && e.common.None?
  }

  lemma TimeoutsNew(evs: seq<Ev>, heap: set<nat>, ctls: seq<Ctl>, e: Ev)
    requires HeapOk(evs, heap) && QueuesOk(evs, ctls) && New(e)
    ensures HeapOk(evs + [e], heap) && QueuesOk(evs + [e], ctls)
  {
    var f := evs + [e];
    assert forall k {:trigger f[k]} :: 0 <= k < |evs| ==> f[k] == evs[k];
    forall c {:trigger ctls[c]} | 0 <= c < |ctls| ensures QueueOk(f, ctls[c].events, c) {
      var q := ctls[c].events;
      assert QueueOk(evs, q, c);
      forall k {:trigger q[k]} | 0 <= k < |q| ensures q[k] < |evs| {
        assert q[k] in q;
      }
    }
  }

  lemma ActivesNew(evs: seq<Ev>, active: seq<seq<nat>>, later: seq<nat>, e: Ev)
    requires ActivesOk(evs, active) && LaterOk(evs, later) && New(e) && e.pri < |active|
    ensures ActivesOk(evs + [e], active) && LaterOk(evs + [e], later)
  {
    var f := evs + [e];
    assert forall k {:trigger f[k]} :: 0 <= k < |evs| ==> f[k] == evs[k];
    forall p {:trigger active[p]} | 0 <= p < |active| ensures ActiveOk(f, active[p], p) {
      assert ActiveOk(evs, active[p], p);
    }
  }

  lemma {:induction false} SumNew(evs: seq<Ev>, e: Ev)
    requires New(e)
    ensures Sum(evs + [e]) == Sum(evs)
  {
    if |evs| == 0 {
      assert (evs + [e])[1..] == [];
    } else {
      SumNew(evs[1..], e);
      assert (evs + [e])[1..] == evs[1..] + [e];
    }
  }

  lemma QueueNew(evs: seq<Ev>, ctls: seq<Ctl>, ctl: Ctl)
    requires QueuesOk(evs, ctls) && ctl.events == []
    ensures QueuesOk(evs, ctls + [ctl])
  {
    var cs := ctls + [ctl];
    forall c {:trigger cs[c]} | 0 <= c < |cs| ensures QueueOk(evs, cs[c].events, c) {
      if c < |ctls| {
        assert cs[c] == ctls[c] && QueueOk(evs, ctls[c].events, c);
      }
    }
  }

  lemma ActiveDropped(evs: seq<Ev>, active: seq<seq<nat>>, later: seq<nat>, i: nat)
    requires ActivesOk(evs, active) && LaterOk(evs, later) && i < |evs| && evs[i].active
    ensures var f, p := evs[i := evs[i].(active := false)], evs[i].pri;
            && p < |active| && i in active[p] && |Drop(active[p], i)| == |active[p]| - 1
            && ActivesOk(f, active[p := Drop(active[p], i)]) && LaterOk(f, later)
  {
    var f, p := evs[i := evs[i].(active := false)], evs[i].pri;
    assert ActiveOk(evs, active[p], p);
    DropFacts(active[p], i);
    var qs := active[p := Drop(active[p], i)];
    assert forall k {:trigger f[k]} :: 0 <= k < |f| && k != i ==> f[k] == evs[k];
    forall r {:trigger qs[r]} | 0 <= r < |qs| ensures ActiveOk(f, qs[r], r) {
      assert ActiveOk(evs, active[r], r);
    }
  }

  lemma ActiveAppended(evs: seq<Ev>, active: seq<seq<nat>>, later: seq<nat>, i: nat)
    requires ActivesOk(evs, active) && LaterOk(evs, later) && i < |evs| && !evs[i].active
    ensures var f, p := evs[i := evs[i].(active := true)], evs[i].pri;
            && p < |active| && ActivesOk(f, active[p := active[p] + [i]]) && LaterOk(f, later)
  {
    var f, p := evs[i := evs[i].(active := true)], evs[i].pri;
    assert ActiveOk(evs, active[p], p);
    AppendOne(active[p], i);
    var qs := active[p := active[p] + [i]];
    assert forall k {:trigger f[k]} :: 0 <= k < |f| && k != i ==> f[k] == evs[k];
    forall r {:trigger qs[r]} | 0 <= r < |qs| ensures ActiveOk(f, qs[r], r) {
      assert ActiveOk(evs, active[r], r);
    }
  }

  lemma LaterDropped(evs: seq<Ev>, active: seq<seq<nat>>, later: seq<nat>, i: nat)
    requires ActivesOk(evs, active) && LaterOk(evs, later) && i < |evs| && evs[i].later
    ensures var f := evs[i := evs[i].(later := false)]; ActivesOk(f, active) && LaterOk(f, Drop(later, i)) && i in later
    ensures |Drop(later, i)| == |later| - 1
  {
    var f := evs[i := evs[i].(later := false)];
    DropFacts(later, i);
    assert forall k {:trigger f[k]} :: 0 <= k < |f| && k != i ==> f[k] == evs[k];
    forall r {:trigger active[r]} | 0 <= r < |active| ensures ActiveOk(f, active[r], r) {
      assert ActiveOk(evs, active[r], r);
    }
  }

  lemma LaterAppended(evs: seq<Ev>, active: seq<seq<nat>>, later: seq<nat>, i: nat)
    requires ActivesOk(evs, active) && LaterOk(evs, later) && i < |evs| && !evs[i].later
    ensures var f := evs[i := evs[i].(later := true)]; ActivesOk(f, active) && LaterOk(f, later + [i])
  {
    var f := evs[i := evs[i].(later := true)];
    AppendOne(later, i);
    assert forall k {:trigger f[k]} :: 0 <= k < |f| && k != i ==> f[k] == evs[k];
    forall r {:trigger active[r]} | 0 <= r < |active| ensures ActiveOk(f, active[r], r) {
      assert ActiveOk(evs, active[r], r);
    }
  }
}
