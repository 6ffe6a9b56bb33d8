/** Runs of an event base: any sequence of what users and the loop do to callbacks and timeouts. */
module EventRuns {
  import opened EventLoop
  import opened EventQueues
  import opened Options

  datatype Op =
    | Create(event: bool, io: bool, persist: bool, closurePersist: bool, pri: nat)
    | MakeCommon(duration: Duration, marked: bool)
    | Add(i: nat, tv: Option<Tv>, absolute: bool, now: nat, mapResult: int)
    | Delete(i: nat, evenIfFinalizing: bool)
    | Activate(i: nat, isTimeout: bool)
    | ActivateLater(i: nat, isTimeout: bool)
    | ActivateCallback(i: nat)
    | CancelCallback(i: nat, evenIfFinalizing: bool)
    | FinalizeEvent(i: nat)
    | FinalizeCallback(i: nat)
    | ProcessTimeouts(time: int)
    | MakeLaterActive
    | Take(p: nat)
    | RunPersistent(now: nat, mapResult: int)
    | RunCommon(time: int)
    | Finish

  /** What a user does, or nothing when it cannot be called now. */
  method PerformUser(b: EventBase, op: Op)
    requires Ok(b)
    modifies b
    ensures Ok(b)
  {
    hide b.Valid, TimersOk, Waiting, OthersSame, SameTimers;
    match op {
      case Create(event, io, persist, closurePersist, pri) =>
        if pri < |b.active| && (closurePersist ==> event) {
          var _ := NewEvent(b, event, io, persist, closurePersist, pri);
        }
      case MakeCommon(duration, marked) =>
        if |b.active| > 0 {
          var _ := InitCommonTimeout(b, duration, marked);
        }
      case Add(i, tv, absolute, now, mapResult) =>
        if && i < |b.evs| && User(b.ctls, i) && b.evs[i].event && -1 <= mapResult <= 1
           && (tv.Some? && tv.value.common.Some? ==> tv.value.common.value < |b.ctls|)
           && (tv.Some? && b.evs[i].closurePersist && absolute ==> tv.value.common == b.evs[i].intervalCommon) {
          var _ := EventAdd(b, i, tv, absolute, now, mapResult);
        }
      case Delete(i, evenIfFinalizing) =>
        if i < |b.evs| && User(b.ctls, i) {
          UserDel(b, i, evenIfFinalizing);
        }
      case Activate(i, isTimeout) =>
        if i < |b.evs| && User(b.ctls, i) {
          UserActive(b, i, isTimeout);
        }
      case ActivateLater(i, isTimeout) =>
        if i < |b.evs| && User(b.ctls, i) {
          UserActiveLater(b, i, isTimeout);
        }
      case ActivateCallback(i) =>
        if i < |b.evs| && User(b.ctls, i) {
          var _ := UserCallbackActivate(b, i);
        }
      case CancelCallback(i, evenIfFinalizing) =>
        if i < |b.evs| && User(b.ctls, i) {
          CallbackCancel(b, i, evenIfFinalizing);
        }
      case FinalizeEvent(i) =>
        if i < |b.evs| && User(b.ctls, i) && b.evs[i].event {
          EventFinalize(b, i);
        }
      case FinalizeCallback(i) =>
        if i < |b.evs| && User(b.ctls, i) {
          CallbackFinalize(b, i);
        }
      case _ =>
    }
  }

  /** What the loop does. */
  method PerformLoop(b: EventBase, op: Op)
    requires Ok(b)
    modifies b
    ensures Ok(b)
  {
    hide b.Valid, TimersOk, Waiting, OthersSame, SameTimers, SomeExpired, UsersExpired;
    match op {
      case ProcessTimeouts(time) =>
        TimeoutProcess(b, time);
      case MakeLaterActive =>
        LaterToActive(b);
      case Take(p) =>
        if p < |b.active| && |b.active[p]| > 0 && b.running.None? && b.calling.None? {
          var _ := TakeActive(b, p);
        }
      case RunPersistent(now, mapResult) =>
        if b.running.Some? && b.running.value < |b.evs| && User(b.ctls, b.running.value) && -1 <= mapResult <= 1 {
          var i := b.running.value;
          if b.evs[i].closurePersist && b.evs[i].event {
            PersistClosure(b, i, now, mapResult);
          }
        }
      case RunCommon(time) =>
        if b.calling.Some? && b.calling.value < |b.ctls| {
          ghost var gone := CommonTimeoutCallback(b, b.calling.value, time);
        }
      case Finish =>
        if b.calling.None? {
          FinishCallback(b);
        }
      case _ =>
    }
  }

  lemma HeapWaits(b: EventBase)
    requires Ok(b)
    ensures forall i {:trigger i in b.heap} :: i in b.heap ==> i < |b.evs| && b.evs[i].timeout
  {
  }

  /** Whatever users and the loop do in whatever order: when nothing is active and no queue of common timeouts
      is being run, the loop is to wait no longer than until the earliest deadline of all events; and in any
      case until some deadline is reached. */
  method Run(b: EventBase, ops: seq<Op>, now: int) returns (wait: Option<nat>)
    requires Ok(b)
    modifies b
    ensures Ok(b)
    ensures b.activeCount == 0 && b.calling.None? ==>
              forall i {:trigger b.evs[i]} :: 0 <= i < |b.evs| && b.evs[i].timeout ==>
                wait.Some? && (wait.value == 0 || now + wait.value <= b.evs[i].deadline)
    ensures wait == Some(0) ==> exists i :: 0 <= i < |b.evs| && b.evs[i].timeout && b.evs[i].deadline <= now
    ensures wait.Some? && wait.value > 0 ==> exists i :: 0 <= i < |b.evs| && b.evs[i].timeout && b.evs[i].deadline == now + wait.value
  {
    hide b.Valid, TimersOk;
    for k := 0 to |ops|
      invariant Ok(b)
    {
      PerformUser(b, ops[k]);
      PerformLoop(b, ops[k]);
    }
    wait := TimeoutNext(b, now);
    HeapWaits(b);
    if b.activeCount == 0 && b.calling.None? {
      forall i {:trigger b.evs[i]} | 0 <= i < |b.evs| && b.evs[i].timeout
        ensures wait.Some? && (wait.value == 0 || now + wait.value <= b.evs[i].deadline)
      {
        NoTimeoutForgotten(b, i, now, 0);
        NoTimeoutForgotten(b, i, now, wait.value);
      }
    }
  }

  /** An event added for t microseconds from now has expired when the heap is worked off later, if and only if that
      long has passed. */
  method OnTime(b: EventBase, i: nat, t: nat, now: nat, later: int)
    requires Ok(b) && i < |b.evs| && User(b.ctls, i) && b.evs[i].event && !b.evs[i].finalizing
    modifies b
    ensures Ok(b) && i < |b.evs|
    ensures b.evs[i].timeout <==> later < now + t
    ensures later >= now + t ==> b.evs[i].active && b.evs[i].resTimeout
  {
    hide TimersOk, Waiting, Added, Expired, SomeExpired;
    ghost var e := b.evs[i];
    var tv := Tv(t, None);
    var _ := EventAdd(b, i, Some(tv), false, now, 0);
    assert Timed(e, b.evs[i], tv, false, now);
    assert i in b.heap;
    TimeoutProcess(b, later);
  }
}
