/** Bandwidth suspension of bufferevents, alone and in groups, with locks that may be taken. Every method
    is one section of code that runs without interruption; any order of such sections is possible. */
module RateLimits {
  import opened Lists
  import opened Options
  import opened TokenBucket

  /** The lock of a bufferevent: free, or held by a thread, which can take it again. */
  datatype Lock = Free | Held(thread: nat)

  /** One direction of a bufferevent's own bucket, and the flag BEV_SUSPEND_BW. */
  datatype Own = Own(limit: int, bw: bool)

  /** The refill timer. pending: it is in the heap. firing: it has expired and its callback is going to
      take the lock. */
  datatype Timer = Timer(pending: bool, firing: bool)

  /** One direction of a member of a group: the flag BEV_SUSPEND_BW_GROUP, and whether an addition to
      the group has found it suspended and is going to set that flag. */
  datatype Flags = Flags(suspended: bool, joining: bool)

  /** A configuration object; two of them with equal contents are not the same. */
  datatype CfgRef = CfgRef(id: nat, cfg: Cfg)

  /** A rate-limited bufferevent. */
  datatype Bev = Bev(lock: Lock, cfg: Option<CfgRef>, read: Own, write: Own, lastUpdated: nat, timer: Timer,
                     member: Option<nat>, readFlags: Flags, writeFlags: Flags)

  /** One direction of a group: its limit, whether it is suspended, and pending_unsuspend. */
  datatype GroupSide = GroupSide(limit: int, suspended: bool, pending: bool)

  datatype Group = Group(cfg: Cfg, configuredMinShare: nat, minShare: nat, read: GroupSide, write: GroupSide,
                         lastUpdated: nat, members: seq<nat>)

  /** The direction for writing, or for reading. */
  function At(b: Bev, w: bool): Own {
    if w then b.write else b.read
  }

  function FlagsAt(b: Bev, w: bool): Flags {
    if w then b.writeFlags else b.readFlags
  }

  function GroupAt(g: Group, w: bool): GroupSide {
    if w then g.write else g.read
  }

  function GroupWith(g: Group, w: bool, s: GroupSide): Group {
    if w then g.(write := s) else g.(read := s)
  }

  function Max(c: Cfg, w: bool): nat {
    if w then c.writeMax else c.readMax
  }

  function Rate(c: Cfg, w: bool): nat {
    if w then c.writeRate else c.readRate
  }

  /** b with the flag of its group set or cleared in one direction. */
  function SetGroup(b: Bev, w: bool, flag: bool): Bev {
    if w then b.(writeFlags := b.writeFlags.(suspended := flag)) else b.(readFlags := b.readFlags.(suspended := flag))
  }

  /** Whether thread t gets the lock of b without waiting. */
  predicate CanLock(b: Bev, t: nat) {
    b.lock == Free || b.lock == Held(t)
  }

  // ---------------------------------------------------------------- invariant

  /** A bufferevent suspended for its own bandwidth has its refill timer pending, or about to run. */
  predicate OwnOk(cfg: Option<CfgRef>, read: Own, write: Own, timer: Timer) {
    && (read.bw || write.bw ==> cfg.Some? && (timer.pending || timer.firing))
    && (cfg.Some? ==> ValidCfg(cfg.value.cfg))
  }

  predicate BevOk(b: Bev) {
    && OwnOk(b.cfg, b.read, b.write, b.timer)
    && (b.readFlags.joining || b.writeFlags.joining ==> b.lock.Held? && b.member.Some?)
    && (b.member.None? ==> !b.readFlags.suspended && !b.writeFlags.suspended)
  }

  /** A member suspended for its group, or about to be, is in a group that is suspended or remembers
      that members are still to be released. */
  predicate Justified(b: Bev, g: Group) {
    && (b.readFlags.suspended || b.readFlags.joining ==> g.read.suspended || g.read.pending)
    && (b.writeFlags.suspended || b.writeFlags.joining ==> g.write.suspended || g.write.pending)
  }

  predicate GroupOk(g: Group) {
    && ValidCfg(g.cfg) && g.minShare <= g.cfg.readRate && g.minShare <= g.cfg.writeRate
    && NoDuplicates(g.members)
    && !(g.read.suspended && g.read.pending) && !(g.write.suspended && g.write.pending)
  }

  predicate Member(bevs: seq<Bev>, groups: seq<Group>, i: nat)
    requires i < |bevs|
  {
    bevs[i].member.Some? ==>
      var g := bevs[i].member.value;
      g < |groups| && i in groups[g].members && Justified(bevs[i], groups[g])
  }

  predicate Members(bevs: seq<Bev>, groups: seq<Group>, g: nat)
    requires g < |groups|
  {
    forall i {:trigger i in groups[g].members} :: i in groups[g].members ==> i < |bevs| && bevs[i].member == Some(g)
  }

  predicate Inv(bevs: seq<Bev>, groups: seq<Group>) {
    && (forall i {:trigger bevs[i]} :: 0 <= i < |bevs| ==> BevOk(bevs[i]) && Member(bevs, groups, i))
    && (forall g {:trigger groups[g]} :: 0 <= g < |groups| ==> GroupOk(groups[g]) && Members(bevs, groups, g))
  }

  /** Thread t is not in the middle of adding a bufferevent to a group. */
  predicate NotJoining(bevs: seq<Bev>, t: nat) {
    forall i {:trigger bevs[i]} :: 0 <= i < |bevs| && bevs[i].lock == Held(t) ==>
      !bevs[i].readFlags.joining && !bevs[i].writeFlags.joining
  }

  // ---------------------------------------------------------------- changes that keep it

  /** A change of one bufferevent that leaves its membership, and asks no more of its group. */
  lemma ChangeBev(bevs: seq<Bev>, groups: seq<Group>, i: nat, b: Bev)
    requires Inv(bevs, groups) && i < |bevs| && BevOk(b) && b.member == bevs[i].member
    requires b.member.Some? && b.member.value < |groups| ==> Justified(b, groups[b.member.value])
    ensures Inv(bevs[i := b], groups)
  {
    var c := bevs[i := b];
    forall j {:trigger c[j]} | 0 <= j < |c| ensures BevOk(c[j]) && Member(c, groups, j) {
      assert BevOk(bevs[j]) && Member(bevs, groups, j);
    }
    forall g {:trigger groups[g]} | 0 <= g < |groups| ensures GroupOk(groups[g]) && Members(c, groups, g) {
      assert GroupOk(groups[g]) && Members(bevs, groups, g);
      forall k {:trigger k in groups[g].members} | k in groups[g].members ensures k < |c| && c[k].member == Some(g) {
        assert bevs[k].member == Some(g);
      }
    }
    MakeInv(c, groups);
  }

  /** What is known of bufferevent i. */
  lemma BevFacts(bevs: seq<Bev>, groups: seq<Group>, i: nat)
    requires Inv(bevs, groups) && i < |bevs|
    ensures BevOk(bevs[i])
    ensures bevs[i].member.Some? ==>
              var g := bevs[i].member.value;
              g < |groups| && |groups[g].members| > 0 && i in groups[g].members && Justified(bevs[i], groups[g]) && GroupOk(groups[g])
  {
    assert Member(bevs, groups, i);
  }

  /** Some member in ms cannot be locked by thread t. */
  ghost predicate Missed(bevs: seq<Bev>, ms: seq<nat>, t: nat) {
    exists k {:trigger ms[k]} :: 0 <= k < |ms| && ms[k] < |bevs| && !CanLock(bevs[ms[k]], t)
  }

  /** The bufferevents of ms that thread t can lock have the flag of their group set to flag; the others
      are as they were. */
  ghost predicate Swept(bevs: seq<Bev>, c: seq<Bev>, ms: seq<nat>, w: bool, t: nat, flag: bool) {
    && |c| == |bevs|
    && forall i {:trigger c[i]} :: 0 <= i < |c| ==>
      && (i in ms && CanLock(bevs[i], t) ==> c[i] == SetGroup(bevs[i], w, flag))
      && (!(i in ms && CanLock(bevs[i], t)) ==> c[i] == bevs[i])
  }

  /** The members of group g are swept to go with its new side s; those missed have it set pending. */
  ghost predicate Sweeping(bevs: seq<Bev>, groups: seq<Group>, g: nat, w: bool, s: GroupSide, c: seq<Bev>, t: nat) {
    && Inv(bevs, groups) && g < |groups| && NotJoining(bevs, t)
    && (s.suspended ==> !s.pending && Swept(bevs, c, groups[g].members, w, t, true))
    && (!s.suspended ==> Swept(bevs, c, groups[g].members, w, t, false))
    && (!s.suspended && Missed(bevs, groups[g].members, t) ==> s.pending)
  }

  lemma SweptBev(bevs: seq<Bev>, groups: seq<Group>, g: nat, w: bool, s: GroupSide, c: seq<Bev>, t: nat, i: nat)
    requires Sweeping(bevs, groups, g, w, s, c, t) && i < |c|
    ensures BevOk(c[i]) && Member(c, groups[g := GroupWith(groups[g], w, s)], i)
    ensures c[i].lock == Held(t) ==> !c[i].readFlags.joining && !c[i].writeFlags.joining
  {
    BevFacts(bevs, groups, i);
    assert bevs[i].member == Some(g) <==> i in groups[g].members by { assert Members(bevs, groups, g); }
    assert i in groups[g].members && !CanLock(bevs[i], t) ==> Missed(bevs, groups[g].members, t);
  }

  lemma SweptGroup(bevs: seq<Bev>, groups: seq<Group>, g: nat, w: bool, s: GroupSide, c: seq<Bev>, t: nat, k: nat)
    requires Sweeping(bevs, groups, g, w, s, c, t) && k < |groups|
    ensures var h := groups[g := GroupWith(groups[g], w, s)]; GroupOk(h[k]) && Members(c, h, k)
  {
    var h := groups[g := GroupWith(groups[g], w, s)];
    assert GroupOk(groups[k]) && Members(bevs, groups, k);
    SweptMembers(bevs, c, groups[g].members, w, t, true);
    SweptMembers(bevs, c, groups[g].members, w, t, false);
    forall m {:trigger m in h[k].members} | m in h[k].members ensures m < |c| && c[m].member == Some(k) {
      assert bevs[m].member == Some(k);
    }
  }

  /** A new side of a group, with its members swept accordingly. */
  lemma ChangeGroup(bevs: seq<Bev>, groups: seq<Group>, g: nat, w: bool, s: GroupSide, c: seq<Bev>, t: nat)
    requires Inv(bevs, groups) && g < |groups| && NotJoining(bevs, t)
    requires s.suspended ==> !s.pending && Swept(bevs, c, groups[g].members, w, t, true)
    requires !s.suspended ==> Swept(bevs, c, groups[g].members, w, t, false)
    requires !s.suspended ==> (Missed(bevs, groups[g].members, t) ==> s.pending)
    ensures Inv(c, groups[g := GroupWith(groups[g], w, s)]) && NotJoining(c, t)
  {
    hide Inv, Swept, Missed, BevOk, Member, GroupOk, Members, GroupWith;
    assert Sweeping(bevs, groups, g, w, s, c, t);
    var h := groups[g := GroupWith(groups[g], w, s)];
    forall i {:trigger c[i]} | 0 <= i < |c|
      ensures BevOk(c[i]) && Member(c, h, i)
      ensures c[i].lock == Held(t) ==> !c[i].readFlags.joining && !c[i].writeFlags.joining
    {
      SweptBev(bevs, groups, g, w, s, c, t, i);
    }
    forall k {:trigger h[k]} | 0 <= k < |h| ensures GroupOk(h[k]) && Members(c, h, k) {
      SweptGroup(bevs, groups, g, w, s, c, t, k);
    }
    MakeInv(c, h);
  }

  lemma {:induction false} MakeInv(bevs: seq<Bev>, groups: seq<Group>)
    requires forall i {:trigger bevs[i]} :: 0 <= i < |bevs| ==> BevOk(bevs[i]) && Member(bevs, groups, i)
    requires forall g {:trigger groups[g]} :: 0 <= g < |groups| ==> GroupOk(groups[g]) && Members(bevs, groups, g)
    ensures Inv(bevs, groups)
  {
  }

  lemma SweptMembers(bevs: seq<Bev>, c: seq<Bev>, ms: seq<nat>, w: bool, t: nat, flag: bool)
    ensures Swept(bevs, c, ms, w, t, flag) ==>
              |c| == |bevs| && forall i {:trigger c[i]} :: 0 <= i < |c| ==> c[i].member == bevs[i].member
  {
  }

  /** A member added to or taken from a group. */
  lemma {:induction false} ChangeMembers(bevs: seq<Bev>, groups: seq<Group>, i: nat, b: Bev, g: nat, ms: seq<nat>)
    requires Inv(bevs, groups) && i < |bevs| && g < |groups| && BevOk(b) && NoDuplicates(ms)
    requires bevs[i].member.None? || bevs[i].member == Some(g)
    requires b.member.None? || (b.member == Some(g) && Justified(b, groups[g]))
    requires forall k :: k in ms <==> (k in groups[g].members && k != i) || (k == i && b.member == Some(g))
    ensures Inv(bevs[i := b], groups[g := groups[g].(members := ms)])
  {
    var c, h := bevs[i := b], groups[g := groups[g].(members := ms)];
    forall j {:trigger c[j]} | 0 <= j < |c| ensures BevOk(c[j]) && Member(c, h, j) {
      assert BevOk(bevs[j]) && Member(bevs, groups, j);
    }
    forall k {:trigger h[k]} | 0 <= k < |h| ensures GroupOk(h[k]) && Members(c, h, k) {
      assert GroupOk(groups[k]) && Members(bevs, groups, k);
      forall m {:trigger m in h[k].members} | m in h[k].members ensures m < |c| && c[m].member == Some(k) {
        if k != g {
          assert bevs[m].member == Some(k);
        } else if m != i {
          assert m in groups[g].members;
        }
      }
    }
    MakeInv(c, h);
  }

  // ---------------------------------------------------------------- one direction

  /** event_del on the refill timer; an expired one is cancelled if its callback has not begun. */
  function EventDel(timer: Timer, cancelled: bool): Timer {
    Timer(false, timer.firing && !cancelled)
  }

  /** A charge of bytes: suspends the direction and starts the timer, or releases it. */
  method Deduct(own: Own, otherBw: bool, timer: Timer, bytes: int, cancelled: bool) returns (own': Own, timer': Timer)
    requires own.bw || otherBw ==> timer.pending || timer.firing
    ensures own' == Own(own.limit - bytes, own.limit - bytes <= 0)
    ensures own'.bw || otherBw ==> timer'.pending || timer'.firing
  {
    var limit := own.limit - bytes;
    own', timer' := Own(limit, own.bw), timer;
    if limit <= 0 {
      own', timer' := Own(limit, true), timer.(pending := true);
    } else if own.bw {
      if !otherBw {
        timer' := EventDel(timer, cancelled);
      }
      own' := Own(limit, false);
    }
  }

  /** A change of a limit by the user, which acts when the limit crosses zero. */
  method Cross(own: Own, otherBw: bool, timer: Timer, decr: int, cancelled: bool) returns (own': Own, timer': Timer)
    requires own.bw || otherBw ==> timer.pending || timer.firing
    ensures own'.limit == own.limit - decr
    ensures own.limit > 0 && own'.limit <= 0 ==> own'.bw
    ensures own.limit <= 0 && own'.limit > 0 ==> !own'.bw
    ensures (own.limit > 0 <==> own'.limit > 0) ==> own'.bw == own.bw
    ensures own'.bw || otherBw ==> timer'.pending || timer'.firing
  {
    var limit := own.limit - decr;
    own', timer' := Own(limit, own.bw), timer;
    if own.limit > 0 && limit <= 0 {
      own', timer' := Own(limit, true), timer.(pending := true);
    } else if own.limit <= 0 && limit > 0 {
      if !otherBw {
        timer' := EventDel(timer, cancelled);
      }
      own' := Own(limit, false);
    }
  }

  /** A limit with its bucket updated. */
  function Updated(limit: int, lastUpdated: nat, tick: nat, rate: nat, max: nat): int {
    Refill(limit, Elapsed(lastUpdated, tick), rate, max)
  }

  function NewTick(lastUpdated: nat, tick: nat): nat {
    if 0 < Elapsed(lastUpdated, tick) <= INT_MAX then tick else lastUpdated
  }

  /** From last to tick n ticks have passed, as the counter of 32 bits shows them. */
  predicate Passed(last: nat, tick: nat, n: nat) {
    0 < n <= INT_MAX && tick == (last + n) % UINT32
  }

  /** What an ssize_t can hold that is not above max. */
  predicate Below(limit: int, max: nat) {
    SSIZE_MIN <= limit <= max <= SSIZE_MAX
  }

  /** When n ticks have passed, a limit that is within its maximum grows by n times the rate, up to the maximum. */
  lemma UpdatedIs(limit: int, last: nat, tick: nat, n: nat, rate: nat, max: nat)
    requires Passed(last, tick, n)
    ensures NewTick(last, tick) == tick
    ensures Below(limit, max) ==> Updated(limit, last, tick, rate, max) == Min(max, limit + n * rate)
  {
    ElapsedIs(last, tick, n);
    hide Refill;
    if Below(limit, max) {
      RefillMeaning(limit, n, rate, max);
    }
  }

  lemma ElapsedIs(last: nat, tick: nat, n: nat)
    requires Passed(last, tick, n)
    ensures Elapsed(last, tick) == n
  {
    var m := (last + n) / UINT32;
    assert tick - last == n - m * UINT32;
    assert (n - m * UINT32) % UINT32 == n;
  }

  /** The same for both limits of a bucket. */
  ghost predicate Grown(c: Cfg, last: nat, read: int, write: int, tick: nat, last': nat, read': int, write': int) {
    && (tick == last ==> last' == last && read' == read && write' == write)
    && (forall n: nat {:trigger Passed(last, tick, n)} :: Passed(last, tick, n) ==>
          && last' == tick
          && (Below(read, c.readMax) ==> read' == Min(c.readMax, read + n * c.readRate))
          && (Below(write, c.writeMax) ==> write' == Min(c.writeMax, write + n * c.writeRate)))
  }

  lemma NoneGrown(c: Cfg, last: nat, read: int, write: int)
    requires last < UINT32
    ensures Grown(c, last, read, write, last, last, read, write)
  {
    forall n: nat {:trigger Passed(last, last, n)} ensures !Passed(last, last, n) {
      if Passed(last, last, n) {
        ElapsedIs(last, last, n);
      }
    }
  }

  lemma UpdatedGrown(c: Cfg, last: nat, read: int, write: int, tick: nat)
    ensures Grown(c, last, read, write, tick, NewTick(last, tick), Updated(read, last, tick, c.readRate, c.readMax),
                  Updated(write, last, tick, c.writeRate, c.writeMax))
  {
    assert tick == last ==> Elapsed(last, tick) == 0;
    assert Refill(read, 0, c.readRate, c.readMax) == read && Refill(write, 0, c.writeRate, c.writeMax) == write;
    assert tick == last ==> NewTick(last, tick) == last;
    assert tick == last ==> Updated(read, last, tick, c.readRate, c.readMax) == read;
    assert tick == last ==> Updated(write, last, tick, c.writeRate, c.writeMax) == write;
    hide Updated, NewTick;
    forall n: nat {:trigger Passed(last, tick, n)} | Passed(last, tick, n)
      ensures NewTick(last, tick) == tick
      ensures Below(read, c.readMax) ==> Updated(read, last, tick, c.readRate, c.readMax) == Min(c.readMax, read + n * c.readRate)
      ensures Below(write, c.writeMax) ==>
                Updated(write, last, tick, c.writeRate, c.writeMax) == Min(c.writeMax, write + n * c.writeRate)
    {
      UpdatedIs(read, last, tick, n, c.readRate, c.readMax);
      UpdatedIs(write, last, tick, n, c.writeRate, c.writeMax);
    }
  }

  /** A direction when its timer has run: released if the limit is positive again. */
  method Release(own: Own, limit: int) returns (own': Own, again: bool)
    ensures own' == Own(limit, own.bw && limit <= 0) && again == own'.bw
  {
    own', again := Own(limit, own.bw), false;
    if own.bw {
      if limit > 0 {
        own' := Own(limit, false);
      } else {
        again := true;
      }
    }
  }

  /** Only the bucket and its timer differ. */
  predicate SameBut(b: Bev, c: Bev) {
    c.lock == b.lock && c.cfg == b.cfg && c.member == b.member && c.readFlags == b.readFlags && c.writeFlags == b.writeFlags
  }

  // ---------------------------------------------------------------- sweeping a group

  lemma SweptStep(bevs: seq<Bev>, c: seq<Bev>, ms: seq<nat>, i: nat, w: bool, t: nat, flag: bool)
    requires i < |ms| && ms[i] < |bevs| && Swept(bevs, c, ms[..i], w, t, flag)
    ensures CanLock(c[ms[i]], t) == CanLock(bevs[ms[i]], t)
    ensures CanLock(bevs[ms[i]], t) ==> Swept(bevs, c[ms[i] := SetGroup(c[ms[i]], w, flag)], ms[..i + 1], w, t, flag)
    ensures !CanLock(bevs[ms[i]], t) ==> Swept(bevs, c, ms[..i + 1], w, t, flag)
  {
    var m := ms[i];
    assert ms[..i + 1] == ms[..i] + [m];
    assert forall k :: k in ms[..i + 1] <==> k in ms[..i] || k == m;
    var d := c[m := SetGroup(c[m], w, flag)];
    assert forall k {:trigger d[k]} :: 0 <= k < |d| && k != m ==> d[k] == c[k];
  }

  /** Two sweeps over the parts of a list are one sweep over all of it. */
  lemma {:induction false} SweptJoin(bevs: seq<Bev>, c: seq<Bev>, d: seq<Bev>, ps: seq<nat>, qs: seq<nat>, ms: seq<nat>,
                                    w: bool, t: nat, flag: bool)
    requires Swept(bevs, c, ps, w, t, flag) && Swept(c, d, qs, w, t, flag)
    requires forall k :: k in ms <==> k in ps || k in qs
    ensures Swept(bevs, d, ms, w, t, flag)
  {
    forall i {:trigger d[i]} | 0 <= i < |d|
      ensures i in ms && CanLock(bevs[i], t) ==> d[i] == SetGroup(bevs[i], w, flag)
      ensures !(i in ms && CanLock(bevs[i], t)) ==> d[i] == bevs[i]
    {
      assert c[i].lock == bevs[i].lock;
    }
  }

  predicate InRange(ms: seq<nat>, n: nat) {
    forall k {:trigger ms[k]} :: 0 <= k < |ms| ==> ms[k] < n
  }

  lemma MissedStep(bevs: seq<Bev>, ms: seq<nat>, i: nat, t: nat)
    requires i < |ms| && ms[i] < |bevs|
    ensures Missed(bevs, ms[..i + 1], t) <==> Missed(bevs, ms[..i], t) || !CanLock(bevs[ms[i]], t)
  {
    var a, b := ms[..i], ms[..i + 1];
    assert b[i] == ms[i];
    assert forall k {:trigger a[k]} :: 0 <= k < i ==> a[k] == b[k];
    assert forall k {:trigger b[k]} :: 0 <= k < i ==> a[k] == b[k];
  }

  lemma {:induction false} MissedJoin(bevs: seq<Bev>, d: seq<Bev>, ms: seq<nat>, which: nat, t: nat)
    requires which <= |ms| && |d| == |bevs| && forall i {:trigger d[i]} :: 0 <= i < |d| ==> d[i].lock == bevs[i].lock
    ensures Missed(bevs, ms, t) <==> Missed(bevs, ms[which..], t) || Missed(d, ms[..which], t)
  {
    var a, b := ms[..which], ms[which..];
    assert forall k {:trigger a[k]} :: 0 <= k < |a| ==> a[k] == ms[k];
    assert forall k {:trigger b[k]} :: 0 <= k < |b| ==> b[k] == ms[which + k];
    assert forall k {:trigger ms[k]} :: 0 <= k < |ms| ==> ms[k] == if k < which then a[k] else b[k - which];
  }

  /** A loop over members ms that tries each lock and sets the flag where it gets it. */
  method Sweep(bevs: seq<Bev>, ms: seq<nat>, w: bool, t: nat, flag: bool) returns (c: seq<Bev>, missed: bool)
    requires InRange(ms, |bevs|)
    ensures Swept(bevs, c, ms, w, t, flag) && missed == Missed(bevs, ms, t)
  {
    c, missed := bevs, false;
    var i := 0;
    assert ms[..0] == [];
    while i < |ms|
      invariant i <= |ms| && Swept(bevs, c, ms[..i], w, t, flag)
      invariant missed == Missed(bevs, ms[..i], t)
    {
      SweptStep(bevs, c, ms, i, w, t, flag);
      MissedStep(bevs, ms, i, t);
      if CanLock(c[ms[i]], t) {
        c := c[ms[i] := SetGroup(c[ms[i]], w, flag)];
      } else {
        missed := true;
      }
      i := i + 1;
    }
    assert ms[..i] == ms;
  }

  /** FOREACH_RANDOM_ORDER, clearing flags: from member number which to the end, then from the start. */
  method SweepRandom(bevs: seq<Bev>, ms: seq<nat>, w: bool, t: nat, which: nat) returns (c: seq<Bev>, missed: bool)
    requires InRange(ms, |bevs|) && which <= |ms|
    ensures Swept(bevs, c, ms, w, t, false) && missed == Missed(bevs, ms, t)
  {
    hide Swept;
    var d, again := Sweep(bevs, ms[which..], w, t, false);
    SweptMembers(bevs, d, ms[which..], w, t, false);
    SweptLocks(bevs, d, ms[which..], w, t, false);
    assert ms == ms[..which] + ms[which..];
    MissedJoin(bevs, d, ms, which, t);
    var again';
    c, again' := Sweep(d, ms[..which], w, t, false);
    SweptJoin(bevs, d, c, ms[which..], ms[..which], ms, w, t, false);
    missed := again || again';
  }

  lemma SweptLocks(bevs: seq<Bev>, c: seq<Bev>, ms: seq<nat>, w: bool, t: nat, flag: bool)
    requires Swept(bevs, c, ms, w, t, flag)
    ensures |c| == |bevs| && forall i {:trigger c[i]} :: 0 <= i < |c| ==> c[i].lock == bevs[i].lock
  {
  }

  lemma MembersInRange(bevs: seq<Bev>, groups: seq<Group>, g: nat)
    requires Inv(bevs, groups) && g < |groups|
    ensures InRange(groups[g].members, |bevs|)
  {
    var ms := groups[g].members;
    assert Members(bevs, groups, g);
    assert forall k {:trigger ms[k]} :: 0 <= k < |ms| ==> ms[k] in groups[g].members;
  }

  /** v differs from g in limits and configuration only. */
  predicate SameStanding(g: Group, v: Group) {
    && v.members == g.members
    && v.read.suspended == g.read.suspended && v.read.pending == g.read.pending
    && v.write.suspended == g.write.suspended && v.write.pending == g.write.pending
  }

  lemma ChangeLimits(bevs: seq<Bev>, groups: seq<Group>, g: nat, v: Group)
    requires Inv(bevs, groups) && g < |groups| && GroupOk(v) && SameStanding(groups[g], v)
    ensures Inv(bevs, groups[g := v])
  {
    var h := groups[g := v];
    forall i {:trigger bevs[i]} | 0 <= i < |bevs| ensures BevOk(bevs[i]) && Member(bevs, h, i) {
      assert BevOk(bevs[i]) && Member(bevs, groups, i);
    }
    forall k {:trigger h[k]} | 0 <= k < |h| ensures GroupOk(h[k]) && Members(bevs, h, k) {
      assert GroupOk(groups[k]) && Members(bevs, groups, k);
      forall m {:trigger m in h[k].members} | m in h[k].members ensures m < |bevs| && bevs[m].member == Some(k) {
        assert m in groups[k].members;
      }
    }
    MakeInv(bevs, h);
  }

  /** A refill with this limit is to release the members. */
  predicate Due(s: GroupSide, limit: int, minShare: nat) {
    s.pending || (s.suspended && limit >= minShare)
  }

  /** One direction of a group after a refill that brings it to limit. */
  function Released(s: GroupSide, limit: int, minShare: nat, missed: bool): GroupSide {
    if Due(s, limit, minShare) then GroupSide(limit, false, missed) else s.(limit := limit)
  }

  lemma ReleasedLimit(s: GroupSide, limit: int, minShare: nat, missed: bool)
    ensures Released(s, limit, minShare, missed).limit == limit
    ensures Released(s.(limit := limit), limit, minShare, missed) == Released(s, limit, minShare, missed)
    ensures SideAfter(s, Released(s, limit, minShare, missed), minShare, missed)
  {
  }

  /** Side n of a group after a refill of side s: released when some members were missed before or the limit is back
      at the minimum share, with a release left pending for those missed now; else it stays as it is. */
  predicate SideAfter(s: GroupSide, n: GroupSide, minShare: nat, missed: bool) {
    && (s.pending || (s.suspended && n.limit >= minShare) ==> !n.suspended && n.pending == missed)
    && (!(s.pending || (s.suspended && n.limit >= minShare)) ==> n.suspended == s.suspended && n.pending == s.pending)
  }

  predicate SameLocks(bevs: seq<Bev>, c: seq<Bev>) {
    |c| == |bevs| && forall i {:trigger c[i]} :: 0 <= i < |c| ==> c[i].lock == bevs[i].lock
  }

  lemma SameLocksTrans(a: seq<Bev>, b: seq<Bev>, c: seq<Bev>, ms: seq<nat>, t: nat, r: GroupSide, read: int, w: GroupSide, write: int,
                       minShare: nat)
    requires if Due(r, read, minShare) then Swept(a, b, ms, false, t, false) else b == a
    requires if Due(w, write, minShare) then Swept(b, c, ms, true, t, false) else c == b
    ensures SameLocks(a, c)
  {
    assert |b| == |a| && forall i {:trigger b[i]} :: 0 <= i < |b| ==> b[i].lock == a[i].lock;
    assert |c| == |b| && forall i {:trigger c[i]} :: 0 <= i < |c| ==> c[i].lock == b[i].lock;
  }

  lemma MissedSame(bevs: seq<Bev>, c: seq<Bev>, ms: seq<nat>, t: nat, s: GroupSide, limit: int, minShare: nat)
    requires if Due(s, limit, minShare) then Swept(bevs, c, ms, false, t, false) else c == bevs
    ensures Missed(c, ms, t) == Missed(bevs, ms, t)
  {
    assert |c| == |bevs| && forall i {:trigger c[i]} :: 0 <= i < |c| ==> c[i].lock == bevs[i].lock;
  }

  const FRESH_BEV := Bev(Free, None, Own(0, false), Own(0, false), 0, Timer(false, false), None, Flags(false, false), Flags(false, false))

  lemma AddBev(bevs: seq<Bev>, groups: seq<Group>, b: Bev)
    requires Inv(bevs, groups) && BevOk(b) && b.member.None?
    ensures Inv(bevs + [b], groups)
  {
    var c := bevs + [b];
    forall j {:trigger c[j]} | 0 <= j < |c| ensures BevOk(c[j]) && Member(c, groups, j) {
      if j < |bevs| {
        assert c[j] == bevs[j] && BevOk(bevs[j]) && Member(bevs, groups, j);
      }
    }
    forall g {:trigger groups[g]} | 0 <= g < |groups| ensures GroupOk(groups[g]) && Members(c, groups, g) {
      assert GroupOk(groups[g]) && Members(bevs, groups, g);
    }
    MakeInv(c, groups);
  }

  lemma AddGroup(bevs: seq<Bev>, groups: seq<Group>, v: Group)
    requires Inv(bevs, groups) && GroupOk(v) && v.members == []
    ensures Inv(bevs, groups + [v])
  {
    var h := groups + [v];
    forall i {:trigger bevs[i]} | 0 <= i < |bevs| ensures BevOk(bevs[i]) && Member(bevs, h, i) {
      assert BevOk(bevs[i]) && Member(bevs, groups, i);
    }
    forall k {:trigger h[k]} | 0 <= k < |h| ensures GroupOk(h[k]) && Members(bevs, h, k) {
      if k < |groups| {
        assert h[k] == groups[k] && GroupOk(groups[k]) && Members(bevs, groups, k);
      }
    }
    MakeInv(bevs, h);
  }

  lemma RemoveAt(ms: seq<nat>, k: nat)
    requires NoDuplicates(ms) && k < |ms|
    ensures NoDuplicates(ms[..k] + ms[k + 1..])
    ensures forall m :: m in ms[..k] + ms[k + 1..] <==> m in ms && m != ms[k]
  {
    var r := ms[..k] + ms[k + 1..];
    forall m | m in ms && m != ms[k] ensures m in r {
      var j :| 0 <= j < |ms| && ms[j] == m;
      assert r[if j < k then j else j - 1] == m;
    }
  }

  lemma NoMember(bevs: seq<Bev>, groups: seq<Group>, b: nat)
    requires Inv(bevs, groups) && b < |bevs| && bevs[b].member.None?
    ensures forall g {:trigger groups[g]} :: 0 <= g < |groups| ==> b !in groups[g].members
  {
    forall g {:trigger groups[g]} | 0 <= g < |groups| ensures b !in groups[g].members {
      assert Members(bevs, groups, g);
    }
  }

  /** The share that a configured minimum comes to: no more than either rate. */
  method MinShare(share: nat, cfg: Cfg) returns (s: nat)
    ensures s == Min(Min(share, cfg.readRate), cfg.writeRate)
  {
    s := share;
    if s > cfg.readRate {
      s := cfg.readRate;
    }
    if s > cfg.writeRate {
      s := cfg.writeRate;
    }
  }

  /** Division as in C, towards zero. */
  function Quotient(x: int, n: nat): int
    requires n > 0
  {
    if x >= 0 then x / n else -(-x / n)
  }

  function AtLeastZero(x: int): nat {
    if x < 0 then 0 else x
  }

  /** What one member of g may move, but at least the minimum share. */
  function Share(g: Group, w: bool): int
    requires |g.members| > 0
  {
    var s := Quotient(GroupAt(g, w).limit, |g.members|);
    if s < g.minShare then g.minShare else s
  }

  /** Shares above the minimum add up to no more than the limit of the group, and leave less of it than there are
      members; the minimum share is for when more would not. */
  lemma ShareIs(g: Group, w: bool)
    requires |g.members| > 0
    ensures var s, limit, m := Share(g, w), GroupAt(g, w).limit, |g.members|;
            && s >= g.minShare
            && (s > g.minShare ==> s * m <= limit < (s + 1) * m)
            && (s == g.minShare ==> limit < (s + 1) * m)
  {
    var limit, m := GroupAt(g, w).limit, |g.members|;
    QuotientIs(limit, m);
    TimesMore(Quotient(limit, m) + 1, g.minShare + 1, m);
    TimesMore(0, g.minShare + 1, m);
    hide Quotient, GroupAt;
  }

  lemma QuotientIs(x: int, m: nat)
    requires m > 0
    ensures var q := Quotient(x, m); (x >= 0 ==> q >= 0 && q * m <= x < (q + 1) * m) && (x < 0 ==> q <= 0)
  {
    if x >= 0 {
      assert (x / m + 1) * m == x / m * m + m;
    }
  }

  lemma TimesMore(a: int, b: int, m: nat)
    ensures a <= b ==> a * m <= b * m
  {
  }

  class RateLimits {
    var bevs: seq<Bev>
    var groups: seq<Group>

    ghost predicate Valid()
      reads this
    {
      Inv(bevs, groups)
    }

    constructor ()
      ensures Valid() && bevs == [] && groups == []
    {
      bevs, groups := [], [];
    }

    // -------------------------------------------------------------- locks and timers

    /** Thread t takes the lock of bufferevent b, which is free or its own. */
    method TakeLock(b: nat, t: nat)
      requires Valid() && b < |bevs| && CanLock(bevs[b], t)
      modifies this`bevs
      ensures Valid() && bevs == old(bevs)[b := old(bevs)[b].(lock := Held(t))]
    {
      BevFacts(bevs, groups, b);
      ChangeBev(bevs, groups, b, bevs[b].(lock := Held(t)));
      bevs := bevs[b := bevs[b].(lock := Held(t))];
    }

    /** A thread gives up the lock of bufferevent b. */
    method Unlock(b: nat)
      requires Valid() && b < |bevs| && !bevs[b].readFlags.joining && !bevs[b].writeFlags.joining
      modifies this`bevs
      ensures Valid() && bevs == old(bevs)[b := old(bevs)[b].(lock := Free)]
    {
      BevFacts(bevs, groups, b);
      ChangeBev(bevs, groups, b, bevs[b].(lock := Free));
      bevs := bevs[b := bevs[b].(lock := Free)];
    }

    /** The refill timer of bufferevent b expires. */
    method FireRefill(b: nat)
      requires Valid() && b < |bevs| && bevs[b].timer.pending
      modifies this`bevs
      ensures Valid() && bevs == old(bevs)[b := old(bevs)[b].(timer := Timer(false, true))]
    {
      BevFacts(bevs, groups, b);
      ChangeBev(bevs, groups, b, bevs[b].(timer := Timer(false, true)));
      bevs := bevs[b := bevs[b].(timer := Timer(false, true))];
    }

    // -------------------------------------------------------------- one bufferevent

    /** Stores what a section of code made of the bucket of bufferevent b. */
    method StoreOwn(b: nat, cfg: Option<CfgRef>, read: Own, write: Own, lastUpdated: nat, timer: Timer)
      requires Valid() && b < |bevs| && OwnOk(cfg, read, write, timer)
      modifies this`bevs
      ensures Valid()
      ensures bevs == old(bevs)[b := old(bevs)[b].(cfg := cfg, read := read, write := write, lastUpdated := lastUpdated, timer := timer)]
    {
      BevFacts(bevs, groups, b);
      var v := bevs[b].(cfg := cfg, read := read, write := write, lastUpdated := lastUpdated, timer := timer);
      ChangeBev(bevs, groups, b, v);
      bevs := bevs[b := v];
    }

    /** The part of bufferevent_decrement_read_buckets_ and bufferevent_decrement_write_buckets_ for the
        bufferevent's own bucket; cancelled tells whether event_del still caught an expired timer. */
    method DecrementOwn(b: nat, w: bool, bytes: int, cancelled: bool)
      requires Valid() && b < |bevs| && bevs[b].lock.Held?
      modifies this`bevs
      ensures Valid() && |bevs| == |old(bevs)|
      ensures forall i {:trigger bevs[i]} :: 0 <= i < |bevs| && i != b ==> bevs[i] == old(bevs)[i]
      ensures old(bevs)[b].cfg.None? ==> bevs[b] == old(bevs)[b]
      ensures old(bevs)[b].cfg.Some? ==>
                var limit := At(old(bevs)[b], w).limit - bytes;
                At(bevs[b], w) == Own(limit, limit <= 0) && At(bevs[b], !w) == At(old(bevs)[b], !w)
    {
      BevFacts(bevs, groups, b);
      var v := bevs[b];
      if v.cfg.Some? {
        if w {
          var own, timer := Deduct(v.write, v.read.bw, v.timer, bytes, cancelled);
          StoreOwn(b, v.cfg, v.read, own, v.lastUpdated, timer);
        } else {
          var own, timer := Deduct(v.read, v.write.bw, v.timer, bytes, cancelled);
          StoreOwn(b, v.cfg, own, v.write, v.lastUpdated, timer);
        }
      }
    }

    /** bufferevent_decrement_read_limit and bufferevent_decrement_write_limit, with any decrement. */
    method DecrementLimit(b: nat, w: bool, decr: int, cancelled: bool)
      requires Valid() && b < |bevs| && bevs[b].lock.Held? && bevs[b].cfg.Some?
      modifies this`bevs
      ensures Valid() && |bevs| == |old(bevs)|
      ensures forall i {:trigger bevs[i]} :: 0 <= i < |bevs| && i != b ==> bevs[i] == old(bevs)[i]
      ensures var o, n := At(old(bevs)[b], w), At(bevs[b], w);
              && n.limit == o.limit - decr
              && (o.limit > 0 && n.limit <= 0 ==> n.bw)
              && (o.limit <= 0 && n.limit > 0 ==> !n.bw)
      ensures At(bevs[b], !w) == At(old(bevs)[b], !w)
    {
      BevFacts(bevs, groups, b);
      var v := bevs[b];
      if w {
        var own, timer := Cross(v.write, v.read.bw, v.timer, decr, cancelled);
        StoreOwn(b, v.cfg, v.read, own, v.lastUpdated, timer);
      } else {
        var own, timer := Cross(v.read, v.write.bw, v.timer, decr, cancelled);
        StoreOwn(b, v.cfg, own, v.write, v.lastUpdated, timer);
      }
    }

    /** bev_refill_callback_, once it has the lock. */
    method RefillCallback(b: nat, tick: nat)
      requires Valid() && b < |bevs| && bevs[b].lock.Held? && bevs[b].timer.firing && tick < UINT32
      modifies this`bevs
      ensures Valid() && |bevs| == |old(bevs)| && !bevs[b].timer.firing
      ensures forall i {:trigger bevs[i]} :: 0 <= i < |bevs| && i != b ==> bevs[i] == old(bevs)[i]
      ensures var v := old(bevs)[b];
              v.cfg.Some? ==>
                var c := v.cfg.value.cfg;
                var r, s := Updated(v.read.limit, v.lastUpdated, tick, c.readRate, c.readMax),
                            Updated(v.write.limit, v.lastUpdated, tick, c.writeRate, c.writeMax);
                && bevs[b].read == Own(r, v.read.bw && r <= 0) && bevs[b].write == Own(s, v.write.bw && s <= 0)
                && (bevs[b].read.bw || bevs[b].write.bw ==> bevs[b].timer.pending)
                && Grown(c, v.lastUpdated, v.read.limit, v.write.limit, tick, bevs[b].lastUpdated, r, s)
      ensures SameBut(old(bevs)[b], bevs[b])
    {
      BevFacts(bevs, groups, b);
      hide Updated, NewTick, Grown;
      var v := bevs[b];
      if v.cfg.None? {
        StoreOwn(b, v.cfg, v.read, v.write, v.lastUpdated, Timer(v.timer.pending, false));
        return;
      }
      var c := v.cfg.value.cfg;
      UpdatedGrown(c, v.lastUpdated, v.read.limit, v.write.limit, tick);
      var read, again := Release(v.read, Updated(v.read.limit, v.lastUpdated, tick, c.readRate, c.readMax));
      var write, again' := Release(v.write, Updated(v.write.limit, v.lastUpdated, tick, c.writeRate, c.writeMax));
      StoreOwn(b, v.cfg, read, write, NewTick(v.lastUpdated, tick), Timer(v.timer.pending || again || again', false));
    }

    /** bufferevent_set_rate_limit */
    method SetRateLimit(b: nat, cfg: Option<CfgRef>, tick: nat, cancelled: bool)
      requires Valid() && b < |bevs| && bevs[b].lock.Held? && tick < UINT32
      requires cfg.Some? ==> ValidCfg(cfg.value.cfg)
      modifies this`bevs
      ensures Valid() && |bevs| == |old(bevs)| && bevs[b].cfg == cfg
      ensures forall i {:trigger bevs[i]} :: 0 <= i < |bevs| && i != b ==> bevs[i] == old(bevs)[i]
      ensures cfg.None? ==> !bevs[b].read.bw && !bevs[b].write.bw
      ensures cfg.Some? && cfg != old(bevs)[b].cfg ==>
                var c := cfg.value.cfg;
                && (bevs[b].read.bw <==> bevs[b].read.limit <= 0) && bevs[b].read.limit <= c.readMax
                && (bevs[b].write.bw <==> bevs[b].write.limit <= 0) && bevs[b].write.limit <= c.writeMax
      ensures cfg.Some? && old(bevs)[b].cfg.None? ==>
                var c := cfg.value.cfg;
                bevs[b].read.limit == c.readRate && bevs[b].write.limit == c.writeRate && bevs[b].lastUpdated == tick
      ensures cfg.Some? && old(bevs)[b].cfg.Some? && cfg != old(bevs)[b].cfg ==>
                var c := cfg.value.cfg;
                && bevs[b].read.limit == (if old(bevs)[b].read.limit > c.readMax then c.readMax else old(bevs)[b].read.limit)
                && bevs[b].write.limit == (if old(bevs)[b].write.limit > c.writeMax then c.writeMax else old(bevs)[b].write.limit)
                && bevs[b].lastUpdated == old(bevs)[b].lastUpdated
    {
      BevFacts(bevs, groups, b);
      var v := bevs[b];
      if cfg.None? {
        StoreOwn(b, None, Own(v.read.limit, false), Own(v.write.limit, false), v.lastUpdated, EventDel(v.timer, cancelled));
      } else if v.cfg != cfg {
        var c := cfg.value.cfg;
        var reinit := v.cfg.Some?;
        var readLimit, writeLimit, last, timer := c.readRate as int, c.writeRate as int, tick, v.timer;
        if reinit {
          readLimit, writeLimit := Min(v.read.limit, c.readMax), Min(v.write.limit, c.writeMax);
          last, timer := v.lastUpdated, EventDel(timer, cancelled);
        }
        var suspended := readLimit <= 0 || writeLimit <= 0;
        if suspended {
          timer := timer.(pending := true);
        }
        StoreOwn(b, cfg, Own(readLimit, readLimit <= 0), Own(writeLimit, writeLimit <= 0), last, timer);
      }
    }

    // -------------------------------------------------------------- groups

    /** bev_group_suspend_reading_ and bev_group_suspend_writing_, run by thread t. */
    method GroupSuspend(g: nat, w: bool, t: nat)
      requires Valid() && g < |groups| && NotJoining(bevs, t)
      modifies this
      ensures Valid() && NotJoining(bevs, t)
      ensures groups == old(groups)[g := GroupWith(old(groups)[g], w, GroupSide(GroupAt(old(groups)[g], w).limit, true, false))]
      ensures Swept(old(bevs), bevs, groups[g].members, w, t, true)
    {
      hide Swept, NotJoining;
      var s := GroupSide(GroupAt(groups[g], w).limit, true, false);
      MembersInRange(bevs, groups, g);
      var c, _ := Sweep(bevs, groups[g].members, w, t, true);
      ChangeGroup(bevs, groups, g, w, s, c, t);
      bevs, groups := c, groups[g := GroupWith(groups[g], w, s)];
    }

    /** bev_group_unsuspend_reading_ and bev_group_unsuspend_writing_, run by thread t, starting at
        member number which. */
    method GroupUnsuspend(g: nat, w: bool, t: nat, which: nat)
      requires Valid() && g < |groups| && NotJoining(bevs, t) && which <= |groups[g].members|
      modifies this
      ensures Valid() && NotJoining(bevs, t)
      ensures groups == old(groups)[g := GroupWith(old(groups)[g], w,
                          GroupSide(GroupAt(old(groups)[g], w).limit, false, Missed(old(bevs), old(groups)[g].members, t)))]
      ensures Swept(old(bevs), bevs, groups[g].members, w, t, false)
    {
      hide Swept, NotJoining;
      MembersInRange(bevs, groups, g);
      var c, again := SweepRandom(bevs, groups[g].members, w, t, which);
      var s := GroupSide(GroupAt(groups[g], w).limit, false, again);
      ChangeGroup(bevs, groups, g, w, s, c, t);
      bevs, groups := c, groups[g := GroupWith(groups[g], w, s)];
    }

    /** Stores a group that differs in its limits and its configuration only. */
    method StoreGroup(g: nat, v: Group)
      requires Valid() && g < |groups| && GroupOk(v) && SameStanding(groups[g], v)
      modifies this`groups
      ensures Valid() && groups == old(groups)[g := v]
    {
      ChangeLimits(bevs, groups, g, v);
      groups := groups[g := v];
    }

    /** Takes decr bytes off the limit of group g in one direction. */
    method TakeFromGroup(g: nat, w: bool, decr: int)
      requires Valid() && g < |groups|
      modifies this`groups
      ensures Valid()
      ensures var s := GroupAt(old(groups)[g], w);
              groups == old(groups)[g := GroupWith(old(groups)[g], w, s.(limit := s.limit - decr))]
    {
      var s := GroupAt(groups[g], w);
      assert GroupOk(groups[g]);
      StoreGroup(g, GroupWith(groups[g], w, s.(limit := s.limit - decr)));
    }

    /** The part of bufferevent_decrement_read_buckets_ and bufferevent_decrement_write_buckets_ for the
        group: it is suspended exactly as long as its limit is not positive. */
    method DecrementGroup(g: nat, w: bool, bytes: int, t: nat, which: nat)
      requires Valid() && g < |groups| && NotJoining(bevs, t) && which <= |groups[g].members|
      modifies this
      ensures Valid() && NotJoining(bevs, t) && |groups| == |old(groups)|
      ensures var o, n := GroupAt(old(groups)[g], w), GroupAt(groups[g], w);
              && n.limit == o.limit - bytes && (n.suspended <==> n.limit <= 0)
      ensures GroupAt(groups[g], !w) == GroupAt(old(groups)[g], !w)
      ensures forall k {:trigger groups[k]} :: 0 <= k < |groups| && k != g ==> groups[k] == old(groups)[k]
    {
      TakeFromGroup(g, w, bytes);
      if GroupAt(groups[g], w).limit <= 0 {
        GroupSuspend(g, w, t);
      } else if GroupAt(groups[g], w).suspended {
        GroupUnsuspend(g, w, t, which);
      }
    }

    /** bufferevent_rate_limit_group_decrement_read and bufferevent_rate_limit_group_decrement_write: acts
        when the limit crosses zero. */
    method DecrementGroupLimit(g: nat, w: bool, decr: int, t: nat, which: nat)
      requires Valid() && g < |groups| && NotJoining(bevs, t) && which <= |groups[g].members|
      modifies this
      ensures Valid() && NotJoining(bevs, t) && |groups| == |old(groups)|
      ensures var o, n := GroupAt(old(groups)[g], w), GroupAt(groups[g], w);
              && n.limit == o.limit - decr
              && (o.limit > 0 && n.limit <= 0 ==> n.suspended)
              && (o.limit <= 0 && n.limit > 0 ==> !n.suspended)
      ensures GroupAt(groups[g], !w) == GroupAt(old(groups)[g], !w)
    {
      var oldLimit := GroupAt(groups[g], w).limit;
      TakeFromGroup(g, w, decr);
      var newLimit := GroupAt(groups[g], w).limit;
      if oldLimit > 0 && newLimit <= 0 {
        GroupSuspend(g, w, t);
      } else if oldLimit <= 0 && newLimit > 0 {
        GroupUnsuspend(g, w, t, which);
      }
    }

    /** bev_group_refill_callback_, one direction: releases the members when the limit is back at the
        minimum share, or when some were missed before. */
    method ReleaseGroup(g: nat, w: bool, t: nat, which: nat)
      requires Valid() && g < |groups| && NotJoining(bevs, t) && which <= |groups[g].members|
      modifies this
      ensures Valid() && NotJoining(bevs, t)
      ensures var v := old(groups)[g];
              var o := GroupAt(v, w);
              groups == old(groups)[g := GroupWith(v, w, Released(o, o.limit, v.minShare, Missed(old(bevs), v.members, t)))]
      ensures var v := old(groups)[g];
              if Due(GroupAt(v, w), GroupAt(v, w).limit, v.minShare) then Swept(old(bevs), bevs, v.members, w, t, false)
              else bevs == old(bevs)
    {
      var s := GroupAt(groups[g], w);
      if s.pending || (s.suspended && s.limit >= groups[g].minShare) {
        GroupUnsuspend(g, w, t, which);
      } else {
        assert groups == groups[g := GroupWith(groups[g], w, s)];
      }
    }

    /** bev_group_refill_callback_ */
    method GroupRefillCallback(g: nat, tick: nat, t: nat, which: nat, which': nat)
      requires Valid() && g < |groups| && NotJoining(bevs, t)
      requires which <= |groups[g].members| && which' <= |groups[g].members|
      modifies this
      ensures Valid() && NotJoining(bevs, t) && |groups| == |old(groups)|
      ensures var v := old(groups)[g];
              var c, missed := v.cfg, Missed(old(bevs), v.members, t);
              && groups[g].read
              == Released(v.read, Updated(v.read.limit, v.lastUpdated, tick, c.readRate, c.readMax), v.minShare, missed)
              && groups[g].write
              == Released(v.write, Updated(v.write.limit, v.lastUpdated, tick, c.writeRate, c.writeMax), v.minShare, missed)
              && Grown(c, v.lastUpdated, v.read.limit, v.write.limit, tick, groups[g].lastUpdated, groups[g].read.limit,
                       groups[g].write.limit)
              && SideAfter(v.read, groups[g].read, v.minShare, missed) && SideAfter(v.write, groups[g].write, v.minShare, missed)
              && groups[g] == v.(read := groups[g].read, write := groups[g].write, lastUpdated := groups[g].lastUpdated)
      ensures SameLocks(old(bevs), bevs)
    {
      hide Updated, NewTick, Swept, NotJoining, Released, Due, Grown, SameLocks, SideAfter;
      var v := groups[g];
      assert GroupOk(v);
      var c := v.cfg;
      UpdatedGrown(c, v.lastUpdated, v.read.limit, v.write.limit, tick);
      var read := v.read.(limit := Updated(v.read.limit, v.lastUpdated, tick, c.readRate, c.readMax));
      var write := v.write.(limit := Updated(v.write.limit, v.lastUpdated, tick, c.writeRate, c.writeMax));
      StoreGroup(g, v.(read := read, write := write, lastUpdated := NewTick(v.lastUpdated, tick)));
      ghost var was := bevs;
      ReleaseGroup(g, false, t, which);
      ghost var bevs1 := bevs;
      MissedSame(was, bevs, v.members, t, read, read.limit, v.minShare);
      ReleaseGroup(g, true, t, which');
      SameLocksTrans(was, bevs1, bevs, v.members, t, read, read.limit, write, write.limit, v.minShare);
      ReleasedLimit(v.read, read.limit, v.minShare, Missed(was, v.members, t));
      ReleasedLimit(v.write, write.limit, v.minShare, Missed(was, v.members, t));
    }

    // -------------------------------------------------------------- membership

    /** A new bufferevent with a rate-limiting record, in no group. */
    method NewBev() returns (b: nat)
      requires Valid()
      modifies this`bevs
      ensures Valid() && b == |old(bevs)| && bevs == old(bevs) + [FRESH_BEV]
    {
      b := |bevs|;
      AddBev(bevs, groups, FRESH_BEV);
      bevs := bevs + [FRESH_BEV];
    }

    /** bufferevent_rate_limit_group_new */
    method NewGroup(cfg: Cfg, tick: nat) returns (g: nat)
      requires Valid() && ValidCfg(cfg)
      modifies this`groups
      ensures Valid() && g == |old(groups)| && |groups| == g + 1 && groups[..g] == old(groups)
      ensures groups[g].members == [] && groups[g].minShare == Min(Min(64, cfg.readRate), cfg.writeRate)
      ensures groups[g].read == GroupSide(cfg.readRate, false, false) && groups[g].write == GroupSide(cfg.writeRate, false, false)
      ensures groups[g].cfg == cfg && groups[g].lastUpdated == tick && groups[g].configuredMinShare == 64
    {
      g := |groups|;
      var share := MinShare(64, cfg);
      var v := Group(cfg, 64, share, GroupSide(cfg.readRate, false, false), GroupSide(cfg.writeRate, false, false), tick, []);
      AddGroup(bevs, groups, v);
      groups := groups + [v];
    }

    /** bufferevent_rate_limit_group_set_cfg: clips the limits downwards and adjusts the minimum share. */
    method SetGroupCfg(g: nat, cfg: Cfg)
      requires Valid() && g < |groups| && ValidCfg(cfg)
      modifies this`groups
      ensures Valid() && |groups| == |old(groups)| && groups[g].cfg == cfg
      ensures groups[g].read.limit == Min(old(groups)[g].read.limit, cfg.readMax)
      ensures groups[g].write.limit == Min(old(groups)[g].write.limit, cfg.writeMax)
      ensures groups[g].minShare == Min(Min(groups[g].configuredMinShare, cfg.readRate), cfg.writeRate)
      ensures SameStanding(old(groups)[g], groups[g]) && groups[g].configuredMinShare == old(groups)[g].configuredMinShare
    {
      var v := groups[g];
      assert GroupOk(v);
      var share := MinShare(v.configuredMinShare, cfg);
      var read := v.read.(limit := Min(v.read.limit, cfg.readMax));
      var write := v.write.(limit := Min(v.write.limit, cfg.writeMax));
      StoreGroup(g, v.(cfg := cfg, minShare := share, read := read, write := write));
    }

    /** bufferevent_rate_limit_group_set_min_share */
    method SetMinShare(g: nat, share: nat) returns (ok: bool)
      requires Valid() && g < |groups|
      modifies this`groups
      ensures Valid() && ok == (share <= SSIZE_MAX)
      ensures !ok ==> groups == old(groups)
      ensures ok ==>
                var v := old(groups)[g];
                groups == old(groups)[g := v.(configuredMinShare := share, minShare := Min(Min(share, v.cfg.readRate), v.cfg.writeRate))]
    {
      ok := share <= SSIZE_MAX;
      if ok {
        assert GroupOk(groups[g]);
        var least := MinShare(share, groups[g].cfg);
        StoreGroup(g, groups[g].(configuredMinShare := share, minShare := least));
      }
    }

    /** bufferevent_add_to_rate_limit_group, the part under the lock of the group: joins the group and
        notes which directions it is suspended in. */
    method Join(b: nat, g: nat, t: nat)
      requires Valid() && b < |bevs| && g < |groups| && bevs[b].lock == Held(t) && bevs[b].member.None?
      modifies this
      ensures Valid() && groups == old(groups)[g := old(groups)[g].(members := [b] + old(groups)[g].members)]
      ensures bevs == old(bevs)[b := old(bevs)[b].(member := Some(g), readFlags := Flags(false, groups[g].read.suspended),
                                                   writeFlags := Flags(false, groups[g].write.suspended))]
    {
      BevFacts(bevs, groups, b);
      var v := groups[g];
      assert GroupOk(v) && Members(bevs, groups, g);
      assert b !in v.members;
      var w := bevs[b].(member := Some(g), readFlags := Flags(false, v.read.suspended), writeFlags := Flags(false, v.write.suspended));
      ChangeMembers(bevs, groups, b, w, g, [b] + v.members);
      bevs, groups := bevs[b := w], groups[g := v.(members := [b] + v.members)];
    }

    /** bufferevent_add_to_rate_limit_group up to there: a bufferevent leaves the group it is in, unless that is g. */
    method Enter(b: nat, g: nat, t: nat)
      requires Valid() && b < |bevs| && g < |groups| && bevs[b].lock == Held(t) && NotJoining(bevs, t)
      modifies this
      ensures Valid() && |groups| == |old(groups)| && g < |groups|
      ensures old(bevs)[b].member == Some(g) ==> bevs == old(bevs) && groups == old(groups)
      ensures old(bevs)[b].member != Some(g) ==>
                && bevs == old(bevs)[b := old(bevs)[b].(member := Some(g), readFlags := Flags(false, groups[g].read.suspended),
                                                        writeFlags := Flags(false, groups[g].write.suspended))]
                && b in groups[g].members && forall h {:trigger groups[h]} :: 0 <= h < |groups| && h != g ==> b !in groups[h].members
    {
      hide Inv;
      if bevs[b].member == Some(g) {
        return;
      }
      var was := bevs[b];
      ghost var bevs0 := bevs;
      Leave(b, t);
      ghost var bevs1, groups1 := bevs, groups;
      Join(b, g, t);
      assert bevs == bevs0[b := was.(member := Some(g), readFlags := Flags(false, groups[g].read.suspended),
                                     writeFlags := Flags(false, groups[g].write.suspended))];
    }

    /** The rest of bufferevent_add_to_rate_limit_group, without the lock of the group: whatever happened
        to the group in between, a suspension noted before is carried out. */
    method FinishJoin(b: nat)
      requires Valid() && b < |bevs| && bevs[b].lock.Held?
      modifies this`bevs
      ensures Valid()
      ensures var v := old(bevs)[b];
              bevs == old(bevs)[b := v.(readFlags := Flags(v.readFlags.suspended || v.readFlags.joining, false),
                                        writeFlags := Flags(v.writeFlags.suspended || v.writeFlags.joining, false))]
    {
      BevFacts(bevs, groups, b);
      var v := bevs[b];
      var w := v.(readFlags := Flags(v.readFlags.suspended || v.readFlags.joining, false),
                  writeFlags := Flags(v.writeFlags.suspended || v.writeFlags.joining, false));
      ChangeBev(bevs, groups, b, w);
      bevs := bevs[b := w];
    }

    /** bufferevent_remove_from_rate_limit_group */
    method Leave(b: nat, t: nat)
      requires Valid() && b < |bevs| && bevs[b].lock == Held(t) && NotJoining(bevs, t)
      modifies this
      ensures Valid() && |groups| == |old(groups)|
      ensures bevs == old(bevs)[b := old(bevs)[b].(member := None, readFlags := Flags(false, false), writeFlags := Flags(false, false))]
      ensures forall g {:trigger groups[g]} :: 0 <= g < |groups| ==> b !in groups[g].members
    {
      BevFacts(bevs, groups, b);
      var v := bevs[b];
      var w := v.(member := None, readFlags := Flags(false, false), writeFlags := Flags(false, false));
      if v.member.None? {
        assert bevs == bevs[b := w];
      } else {
        var g := v.member.value;
        var ms := groups[g].members;
        var k := 0;
        while ms[k] != b
          invariant k < |ms| && b in ms[k..]
          modifies {}
          decreases |ms| - k
        {
          assert b in ms[k + 1..];
          k := k + 1;
        }
        RemoveAt(ms, k);
        ChangeMembers(bevs, groups, b, w, g, ms[..k] + ms[k + 1..]);
        bevs, groups := bevs[b := w], groups[g := groups[g].(members := ms[..k] + ms[k + 1..])];
      }
      NoMember(bevs, groups, b);
    }

    // -------------------------------------------------------------- how much may move

    /** bufferevent_update_buckets */
    method UpdateBuckets(b: nat, tick: nat)
      requires Valid() && b < |bevs| && bevs[b].cfg.Some? && tick < UINT32
      modifies this`bevs
      ensures Valid()
      ensures var v := old(bevs)[b];
              var c := v.cfg.value.cfg;
              bevs == old(bevs)[b := v.(read := Own(Updated(v.read.limit, v.lastUpdated, tick, c.readRate, c.readMax), v.read.bw),
                                        write := Own(Updated(v.write.limit, v.lastUpdated, tick, c.writeRate, c.writeMax), v.write.bw),
                                        lastUpdated := NewTick(v.lastUpdated, tick))]
      ensures b < |bevs|
      ensures var v, u := old(bevs)[b], bevs[b];
              Grown(v.cfg.value.cfg, v.lastUpdated, v.read.limit, v.write.limit, tick, u.lastUpdated, u.read.limit, u.write.limit)
    {
      BevFacts(bevs, groups, b);
      hide Updated, NewTick, Grown;
      var v := bevs[b];
      UpdatedGrown(v.cfg.value.cfg, v.lastUpdated, v.read.limit, v.write.limit, tick);
      var c := v.cfg.value.cfg;
      StoreOwn(b, v.cfg, Own(Updated(v.read.limit, v.lastUpdated, tick, c.readRate, c.readMax), v.read.bw),
               Own(Updated(v.write.limit, v.lastUpdated, tick, c.writeRate, c.writeMax), v.write.bw),
               NewTick(v.lastUpdated, tick), v.timer);
    }

    /** The share of bufferevent b in its group: nothing while the group is suspended. A member that
        missed the suspension catches up here. */
    method GroupShare(b: nat, w: bool) returns (share: int)
      requires Valid() && b < |bevs| && bevs[b].lock.Held? && bevs[b].member.Some?
      modifies this`bevs
      ensures Valid() && |bevs| == |old(bevs)|
      ensures var g := old(bevs)[b].member.value;
              && g < |groups| && |groups[g].members| > 0
              && (GroupAt(groups[g], w).suspended ==> share == 0 && bevs == old(bevs)[b := SetGroup(old(bevs)[b], w, true)])
              && (!GroupAt(groups[g], w).suspended ==> share == Share(groups[g], w) && bevs == old(bevs))
    {
      BevFacts(bevs, groups, b);
      var g := bevs[b].member.value;
      if GroupAt(groups[g], w).suspended {
        ChangeBev(bevs, groups, b, SetGroup(bevs[b], w, true));
        bevs := bevs[b := SetGroup(bevs[b], w, true)];
        share := 0;
      } else {
        share := Share(groups[g], w);
      }
    }

    /** bufferevent_get_rlim_max_: the most that may be moved now. */
    method GetRlimMax(b: nat, w: bool, maxSingle: nat, tick: nat) returns (n: nat)
      requires Valid() && b < |bevs| && bevs[b].lock.Held? && tick < UINT32
      modifies this`bevs
      ensures Valid() && |bevs| == |old(bevs)|
      ensures forall i {:trigger bevs[i]} :: 0 <= i < |bevs| && i != b ==> bevs[i] == old(bevs)[i]
      ensures bevs[b].cfg == old(bevs)[b].cfg && bevs[b].member == old(bevs)[b].member
      ensures var v, u := old(bevs)[b], bevs[b];
              v.cfg.Some? ==>
                Grown(v.cfg.value.cfg, v.lastUpdated, v.read.limit, v.write.limit, tick, u.lastUpdated, u.read.limit, u.write.limit)
      ensures var own := if bevs[b].cfg.Some? then At(bevs[b], w).limit else maxSingle;
              && (bevs[b].member.None? ==> n == AtLeastZero(own))
              && (bevs[b].member.Some? ==>
                    var g := bevs[b].member.value;
                    && g < |groups| && |groups[g].members| > 0
                    && (GroupAt(groups[g], w).suspended ==> n == 0 && FlagsAt(bevs[b], w).suspended)
                    && (!GroupAt(groups[g], w).suspended ==> n == AtLeastZero(Min(own, Share(groups[g], w)))))
    {
      hide Updated, NewTick, Inv, Share, Grown;
      ghost var v := bevs[b];
      var most: int := maxSingle;
      if bevs[b].cfg.Some? {
        if tick != bevs[b].lastUpdated {
          UpdateBuckets(b, tick);
        } else {
          NoneGrown(v.cfg.value.cfg, tick, v.read.limit, v.write.limit);
        }
        most := At(bevs[b], w).limit;
      }
      if bevs[b].member.Some? {
        var share := GroupShare(b, w);
        if most > share {
          most := share;
        }
      }
      n := if most < 0 then 0 else most;
    }
  }

  // ---------------------------------------------------------------- what the invariant is for

  /** Direction w of bufferevent i is not stuck: suspended for its own limit, it has a refill timer that is
      pending or about to run; suspended for its group, the group is suspended or going to release it. */
  predicate Unstuck(bevs: seq<Bev>, groups: seq<Group>, i: nat, w: bool)
    requires i < |bevs|
  {
    && (At(bevs[i], w).bw ==> bevs[i].cfg.Some? && (bevs[i].timer.pending || bevs[i].timer.firing))
    && (FlagsAt(bevs[i], w).suspended ==>
          && bevs[i].member.Some? && bevs[i].member.value < |groups|
          && var s := GroupAt(groups[bevs[i].member.value], w); s.suspended || s.pending)
  }

  /** In every reachable state, whichever locks could not be had: no suspension for bandwidth is stuck. */
  lemma NothingStuck(bevs: seq<Bev>, groups: seq<Group>, i: nat, w: bool)
    requires Inv(bevs, groups) && i < |bevs|
    ensures Unstuck(bevs, groups, i, w)
  {
    BevFacts(bevs, groups, i);
  }

  /** One direction of a group after k refills, a tick apart, in which no lock of a member was taken. */
  function QuietTicks(s: GroupSide, k: nat, rate: nat, max: nat, minShare: nat): GroupSide
    decreases k
  {
    if k == 0 then s else QuietTicks(Released(s, Refill(s.limit, 1, rate, max), minShare, false), k - 1, rate, max, minShare)
  }

  lemma {:induction false} QuietStays(s: GroupSide, k: nat, rate: nat, max: nat, minShare: nat)
    requires !s.suspended && !s.pending
    ensures var e := QuietTicks(s, k, rate, max, minShare); !e.suspended && !e.pending
    decreases k
  {
    if k > 0 {
      QuietStays(Released(s, Refill(s.limit, 1, rate, max), minShare, false), k - 1, rate, max, minShare);
    }
  }

  /** Without further traffic a group is released after as many ticks as the rate needs to bring its
      limit to the minimum share: the minimum share is within the rate, and the rate within the maximum. */
  lemma {:induction false} GroupRecovers(s: GroupSide, k: nat, rate: nat, max: nat, minShare: nat)
    requires SSIZE_MIN <= s.limit <= max <= SSIZE_MAX && 0 < rate && minShare <= rate <= max
    requires k > 0 && minShare <= s.limit + k * rate
    ensures var e := QuietTicks(s, k, rate, max, minShare); !e.suspended && !e.pending
    decreases k
  {
    RefillMeaning(s.limit, 1, rate, max);
    var l := Refill(s.limit, 1, rate, max);
    var s' := Released(s, l, minShare, false);
    if s'.suspended {
      assert k * rate == (k - 1) * rate + rate;
      GroupRecovers(s', k - 1, rate, max, minShare);
    } else {
      QuietStays(s', k - 1, rate, max, minShare);
    }
  }

  /** Then none of its members is suspended for it any more. */
  lemma ReleasedMembers(bevs: seq<Bev>, groups: seq<Group>, g: nat, w: bool, i: nat)
    requires Inv(bevs, groups) && g < |groups| && i in groups[g].members
    requires !GroupAt(groups[g], w).suspended && !GroupAt(groups[g], w).pending
    ensures i < |bevs| && !FlagsAt(bevs[i], w).suspended && !FlagsAt(bevs[i], w).joining
  {
    assert Members(bevs, groups, g);
    BevFacts(bevs, groups, i);
  }
}
