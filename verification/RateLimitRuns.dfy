/** Runs of rate-limited bufferevents: any sequence of sections of code, of any threads. */
module RateLimitRuns {
  import opened Options
  import opened RateLimits
  import opened TokenBucket

  datatype Op =
    | AddBev
    | AddGroup(cfg: Cfg, tick: nat)
    | Lock(b: nat, t: nat)
    | Unlock(b: nat)
    | Expire(b: nat)
    | Charge(b: nat, w: bool, bytes: int, cancelled: bool)
    | Change(b: nat, w: bool, bytes: int, cancelled: bool)
    | RefillOwn(b: nat, tick: nat)
    | Configure(b: nat, ref: Option<CfgRef>, tick: nat, cancelled: bool)
    | AskMax(b: nat, w: bool, maxSingle: nat, tick: nat)
    | Enter(b: nat, g: nat, t: nat)
    | FinishJoin(b: nat)
    | Leave(b: nat, t: nat)
    | ChargeGroup(g: nat, w: bool, bytes: int, t: nat, which: nat)
    | ChangeGroup(g: nat, w: bool, bytes: int, t: nat, which: nat)
    | RefillGroup(g: nat, tick: nat, t: nat, which: nat, which': nat)
    | ConfigureGroup(g: nat, cfg: Cfg)
    | SetShare(g: nat, share: nat)

  /** What op does to bufferevent op.b, or nothing when it cannot be called now. */
  method PerformOwn(r: RateLimits, op: Op)
    requires r.Valid()
    modifies r
    ensures r.Valid()
  {
    hide Inv;
    match op {
      case Lock(b, t) =>
        if b < |r.bevs| && CanLock(r.bevs[b], t) {
          r.TakeLock(b, t);
        }
      case Unlock(b) =>
        if b < |r.bevs| && !r.bevs[b].readFlags.joining && !r.bevs[b].writeFlags.joining {
          r.Unlock(b);
        }
      case Expire(b) =>
        if b < |r.bevs| && r.bevs[b].timer.pending {
          r.FireRefill(b);
        }
      case Charge(b, w, bytes, cancelled) =>
        if b < |r.bevs| && r.bevs[b].lock.Held? {
          r.DecrementOwn(b, w, bytes, cancelled);
        }
      case Change(b, w, bytes, cancelled) =>
        if b < |r.bevs| && r.bevs[b].lock.Held? && r.bevs[b].cfg.Some? {
          r.DecrementLimit(b, w, bytes, cancelled);
        }
      case RefillOwn(b, tick) =>
        if b < |r.bevs| && r.bevs[b].lock.Held? && r.bevs[b].timer.firing && tick < UINT32 {
          r.RefillCallback(b, tick);
        }
      case Configure(b, ref, tick, cancelled) =>
        if b < |r.bevs| && r.bevs[b].lock.Held? && tick < UINT32 && (ref.Some? ==> ValidCfg(ref.value.cfg)) {
          r.SetRateLimit(b, ref, tick, cancelled);
        }
      case AskMax(b, w, maxSingle, tick) =>
        if b < |r.bevs| && r.bevs[b].lock.Held? && tick < UINT32 {
          var _ := r.GetRlimMax(b, w, maxSingle, tick);
        }
      case _ =>
    }
  }

  /** What op does to groups and memberships. */
  method PerformGroup(r: RateLimits, op: Op)
    requires r.Valid()
    modifies r
    ensures r.Valid()
  {
    hide Inv;
    match op {
      case AddBev =>
        var _ := r.NewBev();
      case AddGroup(cfg, tick) =>
        if ValidCfg(cfg) {
          var _ := r.NewGroup(cfg, tick);
        }
      case Enter(b, g, t) =>
        if b < |r.bevs| && g < |r.groups| && r.bevs[b].lock == Held(t) && NotJoining(r.bevs, t) {
          r.Enter(b, g, t);
        }
      case FinishJoin(b) =>
        if b < |r.bevs| && r.bevs[b].lock.Held? {
          r.FinishJoin(b);
        }
      case Leave(b, t) =>
        if b < |r.bevs| && r.bevs[b].lock == Held(t) && NotJoining(r.bevs, t) {
          r.Leave(b, t);
        }
      case ChargeGroup(g, w, bytes, t, which) =>
        if g < |r.groups| && NotJoining(r.bevs, t) && which <= |r.groups[g].members| {
          r.DecrementGroup(g, w, bytes, t, which);
        }
      case ChangeGroup(g, w, bytes, t, which) =>
        if g < |r.groups| && NotJoining(r.bevs, t) && which <= |r.groups[g].members| {
          r.DecrementGroupLimit(g, w, bytes, t, which);
        }
      case RefillGroup(g, tick, t, which, which') =>
        if g < |r.groups| && NotJoining(r.bevs, t) && which <= |r.groups[g].members| && which' <= |r.groups[g].members| {
          r.GroupRefillCallback(g, tick, t, which, which');
        }
      case ConfigureGroup(g, cfg) =>
        if g < |r.groups| && ValidCfg(cfg) {
          r.SetGroupCfg(g, cfg);
        }
      case SetShare(g, share) =>
        if g < |r.groups| {
          var _ := r.SetMinShare(g, share);
        }
      case _ =>
    }
  }

  /** Whatever threads do in whatever order, and whichever locks cannot be had: nothing is stuck. */
  method Run(r: RateLimits, ops: seq<Op>)
    requires r.Valid()
    modifies r
    ensures r.Valid()
    ensures forall i: nat, w: bool {:trigger Unstuck(r.bevs, r.groups, i, w)} :: i < |r.bevs| ==> Unstuck(r.bevs, r.groups, i, w)
  {
    hide Inv;
    for k := 0 to |ops|
      invariant r.Valid()
    {
      PerformOwn(r, ops[k]);
      PerformGroup(r, ops[k]);
    }
    forall i: nat, w: bool {:trigger Unstuck(r.bevs, r.groups, i, w)} | i < |r.bevs| ensures Unstuck(r.bevs, r.groups, i, w) {
      NothingStuck(r.bevs, r.groups, i, w);
    }
  }

  // ---------------------------------------------------------------- recovery

  /** One round: the timer of bufferevent b expires n ticks after the bucket was last updated, and its callback runs. */
  method RefillRound(r: RateLimits, b: nat, tick: nat, t: nat)
    requires r.Valid() && b < |r.bevs| && r.bevs[b].cfg.Some? && r.bevs[b].timer.pending && tick < UINT32
    requires r.bevs[b].lock.Free? && !r.bevs[b].readFlags.joining && !r.bevs[b].writeFlags.joining
    modifies r
    ensures r.Valid() && |r.bevs| == |old(r.bevs)| && SameBut(old(r.bevs)[b], r.bevs[b])
    ensures var c, v, u := r.bevs[b].cfg.value.cfg, old(r.bevs)[b], r.bevs[b];
            && Grown(c, v.lastUpdated, v.read.limit, v.write.limit, tick, u.lastUpdated, u.read.limit, u.write.limit)
            && (u.read.bw <==> v.read.bw && u.read.limit <= 0) && (u.write.bw <==> v.write.bw && u.write.limit <= 0)
            && (u.read.bw || u.write.bw ==> u.timer.pending)
  {
    hide r.Valid, Inv, Updated, NewTick, Grown;
    r.FireRefill(b);
    r.TakeLock(b, t);
    r.RefillCallback(b, tick);
    r.Unlock(b);
  }

  /** A side that is suspended for its own bandwidth is released by its timer after as many ticks as the rate needs to
      bring the limit above zero, and until then the limit grows by the rate. */
  method BevRecovers(r: RateLimits, b: nat, w: bool, t: nat, k: nat) returns (rounds: nat)
    requires r.Valid() && b < |r.bevs| && r.bevs[b].cfg.Some? && r.bevs[b].timer.pending && r.bevs[b].lastUpdated < UINT32
    requires r.bevs[b].lock.Free? && !r.bevs[b].readFlags.joining && !r.bevs[b].writeFlags.joining
    requires Below(At(r.bevs[b], w).limit, Max(r.bevs[b].cfg.value.cfg, w))
    requires k > 0 && At(r.bevs[b], w).limit + k * Rate(r.bevs[b].cfg.value.cfg, w) > 0
    modifies r
    ensures r.Valid() && |r.bevs| == |old(r.bevs)| && b < |r.bevs| && r.bevs[b].cfg == old(r.bevs)[b].cfg
    ensures !At(r.bevs[b], w).bw && rounds <= k
  {
    hide r.Valid, Inv, Grown;
    rounds := 0;
    ghost var v := r.bevs[b];
    ghost var c := v.cfg.value.cfg;
    while rounds < k && At(r.bevs[b], w).bw
      invariant rounds <= k && r.Valid() && |r.bevs| == |old(r.bevs)| && SameBut(v, r.bevs[b])
      invariant At(r.bevs[b], w).bw ==> r.bevs[b].timer.pending && At(r.bevs[b], w).limit == At(v, w).limit + rounds * Rate(c, w)
      invariant At(r.bevs[b], w).bw && rounds > 0 ==> At(r.bevs[b], w).limit <= 0
      invariant r.bevs[b].lastUpdated < UINT32 && Below(At(r.bevs[b], w).limit, Max(c, w))
    {
      var u := r.bevs[b];
      RefillRound(r, b, (u.lastUpdated + 1) % UINT32, t);
      BevCfg(r, b);
      OneTick(c, u, r.bevs[b], w);
      NextMultiple(rounds, Rate(c, w));
      rounds := rounds + 1;
    }
  }

  lemma BevCfg(r: RateLimits, b: nat)
    requires r.Valid() && b < |r.bevs| && r.bevs[b].cfg.Some?
    ensures ValidCfg(r.bevs[b].cfg.value.cfg)
  {
    BevFacts(r.bevs, r.groups, b);
  }

  lemma NextMultiple(n: nat, x: nat)
    ensures (n + 1) * x == n * x + x
  {
  }

  /** What a tick does to a bucket. */
  lemma OneTick(c: Cfg, v: Bev, u: Bev, w: bool)
    requires ValidCfg(c) && v.lastUpdated < UINT32 && Below(At(v, w).limit, Max(c, w))
    requires Grown(c, v.lastUpdated, v.read.limit, v.write.limit, (v.lastUpdated + 1) % UINT32, u.lastUpdated, u.read.limit,
                   u.write.limit)
    ensures u.lastUpdated < UINT32 && At(u, w).limit == Min(Max(c, w), At(v, w).limit + Rate(c, w))
  {
    assert Passed(v.lastUpdated, (v.lastUpdated + 1) % UINT32, 1);
  }

  /** Without traffic, and while no other thread has the lock of a member, a suspended group is released after as many
      ticks as the rate needs to bring its limit to the minimum share; then no member is suspended for it. */
  method GroupRecovery(r: RateLimits, g: nat, w: bool, t: nat, k: nat)
    requires r.Valid() && g < |r.groups| && NotJoining(r.bevs, t) && r.groups[g].lastUpdated < UINT32
    requires !Missed(r.bevs, r.groups[g].members, t)
    requires Below(GroupAt(r.groups[g], w).limit, Max(r.groups[g].cfg, w))
    requires k > 0 && GroupAt(r.groups[g], w).limit + k * Rate(r.groups[g].cfg, w) >= r.groups[g].minShare
    modifies r
    ensures r.Valid() && g < |r.groups|
    ensures !GroupAt(r.groups[g], w).suspended && !GroupAt(r.groups[g], w).pending
    ensures r.groups[g].members == old(r.groups)[g].members
    ensures forall i {:trigger i in r.groups[g].members} :: i in r.groups[g].members ==>
              i < |r.bevs| && !FlagsAt(r.bevs[i], w).suspended && !FlagsAt(r.bevs[i], w).joining
  {
    hide r.Valid, Inv, Grown, Missed, SameLocks, Released, SideAfter, NotJoining, Updated;
    ghost var v, bevs0 := r.groups[g], r.bevs;
    GroupFacts(r, g);
    var n := 0;
    while n < k
      invariant n <= k && r.Valid() && g < |r.groups| && NotJoining(r.bevs, t) && !Missed(r.bevs, v.members, t)
      invariant r.groups[g] == v.(read := r.groups[g].read, write := r.groups[g].write, lastUpdated := r.groups[g].lastUpdated)
      invariant r.groups[g].lastUpdated < UINT32 && Below(GroupAt(r.groups[g], w).limit, Max(v.cfg, w))
      invariant n > 0 ==> !GroupAt(r.groups[g], w).pending
      invariant GroupAt(r.groups[g], w).suspended || n == 0 ==>
                  GroupAt(r.groups[g], w).limit >= GroupAt(v, w).limit + n * Rate(v.cfg, w)
      invariant GroupAt(r.groups[g], w).suspended && n > 0 ==> GroupAt(r.groups[g], w).limit < v.minShare
    {
      var u, bevs1 := r.groups[g], r.bevs;
      GroupFacts(r, g);
      r.GroupRefillCallback(g, (u.lastUpdated + 1) % UINT32, t, 0, 0);
      SameMissed(bevs1, r.bevs, v.members, t);
      GroupTick(u, r.groups[g], w);
      NextMultiple(n, Rate(v.cfg, w));
      n := n + 1;
    }
    hide GroupAt, FlagsAt;
    forall i {:trigger i in r.groups[g].members} | i in r.groups[g].members
      ensures i < |r.bevs| && !FlagsAt(r.bevs[i], w).suspended && !FlagsAt(r.bevs[i], w).joining
    {
      Released1(r, g, w, i);
    }
  }

  /** What a tick does to a group when no member is missed. */
  lemma GroupTick(u: Group, v: Group, w: bool)
    requires GroupOk(u) && u.lastUpdated < UINT32 && Below(GroupAt(u, w).limit, Max(u.cfg, w))
    requires Grown(u.cfg, u.lastUpdated, u.read.limit, u.write.limit, (u.lastUpdated + 1) % UINT32, v.lastUpdated, v.read.limit,
                   v.write.limit)
    requires SideAfter(u.read, v.read, u.minShare, false) && SideAfter(u.write, v.write, u.minShare, false)
    ensures v.lastUpdated < UINT32 && Below(GroupAt(v, w).limit, Max(u.cfg, w)) && !GroupAt(v, w).pending
    ensures GroupAt(v, w).suspended ==> GroupAt(v, w).limit < u.minShare && GroupAt(u, w).suspended
    ensures GroupAt(v, w).limit == Min(Max(u.cfg, w), GroupAt(u, w).limit + Rate(u.cfg, w))
    ensures u.minShare <= Rate(u.cfg, w) <= Max(u.cfg, w)
  {
    assert Passed(u.lastUpdated, (u.lastUpdated + 1) % UINT32, 1);
  }

  lemma Released1(r: RateLimits, g: nat, w: bool, i: nat)
    requires r.Valid() && g < |r.groups| && i in r.groups[g].members
    requires !GroupAt(r.groups[g], w).suspended && !GroupAt(r.groups[g], w).pending
    ensures i < |r.bevs| && !FlagsAt(r.bevs[i], w).suspended && !FlagsAt(r.bevs[i], w).joining
  {
    ReleasedMembers(r.bevs, r.groups, g, w, i);
  }

  lemma GroupFacts(r: RateLimits, g: nat)
    requires r.Valid() && g < |r.groups|
    ensures GroupOk(r.groups[g])
  {
  }

  lemma SameMissed(bevs: seq<Bev>, c: seq<Bev>, ms: seq<nat>, t: nat)
    requires SameLocks(bevs, c)
    ensures Missed(c, ms, t) == Missed(bevs, ms, t)
  {
  }
}
