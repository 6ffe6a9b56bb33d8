/** Runs of a DNS client: any sequence of what users, timers and name servers may do. */
module DnsRuns {
  import opened DnsRequests
  import opened Options

  datatype Op =
    | Resolve
    | Probe(s: nat)
    | ProbeOver(s: nat)
    | Cancel(r: nat)
    | Timeout(r: nat)
    | Reply(r: nat, answer: Answer)
    | Up(s: nat)
    | Ready(s: nat)
    | Resume
    | SetMax(n: int)
    | AddServer(address: nat, failure: int)

  /** The request that op may end. */
  function Names(op: Op): set<nat> {
    if op.Cancel? || op.Timeout? || op.Reply? then {op.r} else {}
  }

  function AllNames(ops: seq<Op>): set<nat> {
    if |ops| == 0 then {} else AllNames(ops[..|ops| - 1]) + Names(ops[|ops| - 1])
  }

  /** The probes that servers remember. */
  function Probes(servers: seq<Server>): set<nat> {
    set s | 0 <= s < |servers| && servers[s].probe.Some? :: servers[s].probe.value
  }

  // ---------------------------------------------------------------- how often a request is sent

  /** How often a request is sent to one server at most. */
  function Most(maxRetransmits: nat): (n: nat)
    ensures n > 0 && maxRetransmits <= n
  {
    if maxRetransmits == 0 then 1 else maxRetransmits
  }

  /** Request q was not sent too often, and will not be when it is marked to be sent. */
  predicate Within(q: Req, most: nat, maxReissues: nat) {
    && q.txCount + (if q.transmitMe then 1 else 0) <= most && q.reissues <= maxReissues
    && q.sends <= q.reissues * most + q.txCount
    && (q.ns.None? ==> q == Req(None, q.transId, 0, 0, false, 0, false))
  }

  predicate AllWithin(reqs: map<nat, Req>, most: nat, maxReissues: nat) {
    forall r {:trigger r in reqs} :: r in reqs ==> Within(reqs[r], most, maxReissues)
  }

  /** However often it goes to another server, a request is sent (maxReissues + 1) times the retransmissions at most. */
  lemma SendsBound(q: Req, most: nat, maxReissues: nat)
    requires Within(q, most, maxReissues)
    ensures q.sends <= (maxReissues + 1) * most
  {
    assert q.reissues * most <= maxReissues * most;
    assert (maxReissues + 1) * most == maxReissues * most + most;
  }

  lemma AdvancedWithin(a: Req, b: Req, most: nat, maxReissues: nat)
    requires Within(a, most, maxReissues) && Advanced(a, b) && most > 0
    ensures Within(b, most, maxReissues)
  {
    if a.ns.None? {
      assert a.reissues * most == 0;
    }
  }

  lemma FreshWithin(q: Req, most: nat, maxReissues: nat)
    requires Fresh(q) && most > 0
    ensures Within(q, most, maxReissues)
  {
    assert q.reissues * most == 0;
  }

  lemma RetriedWithin(a: Req, b: Req, maxRetransmits: nat, maxReissues: nat)
    requires Within(a, Most(maxRetransmits), maxReissues) && a.txCount < maxRetransmits && a.ns.Some?
    requires Sent(a.(timer := false, transmitMe := true), b)
    ensures Within(b, Most(maxRetransmits), maxReissues)
  {
  }

  lemma ReissuedWithin(a: Req, b: Req, most: nat, maxReissues: nat)
    requires Within(a, most, maxReissues) && Reissued(a, b) && a.reissues < maxReissues && most > 0
    ensures Within(b, most, maxReissues)
  {
    assert (a.reissues + 1) * most == a.reissues * most + most;
  }

  lemma {:induction false} KeptWithin(reqs: map<nat, Req>, reqs': map<nat, Req>, gone: set<nat>, most: nat, maxReissues: nat)
    requires AllWithin(reqs, most, maxReissues) && Kept(reqs, reqs', gone) && most > 0
    requires forall r {:trigger r in reqs'} :: r in reqs' && (r !in reqs || r in gone) ==> Within(reqs'[r], most, maxReissues)
    ensures AllWithin(reqs', most, maxReissues)
  {
    hide Within, Advanced;
    forall r {:trigger r in reqs'} | r in reqs' ensures Within(reqs'[r], most, maxReissues) {
      if r in reqs && r !in gone {
        AdvancedWithin(reqs[r], reqs'[r], most, maxReissues);
      }
    }
  }

  // ---------------------------------------------------------------- runs

  /** Each request there was, or that has been made since, is there or has ended, and none is both. */
  ghost predicate Accounted(keys0: set<nat>, next0: nat, keys: set<nat>, next: nat, ended: set<nat>) {
    && next0 <= next && keys !! ended
    && forall r: nat {:trigger r in keys} {:trigger r in ended} {:trigger r in keys0} ::
      r in keys || r in ended <==> r in keys0 || next0 <= r < next
  }

  predicate AllBelow(keys: set<nat>, next: nat) {
    forall r {:trigger r in keys} :: r in keys ==> r < next
  }

  lemma Below(b: DnsBase)
    requires b.Valid()
    ensures AllBelow(b.reqs.Keys, b.nextReq)
  {
    hide BucketsOk, WaitingOk, IdsOk, ServersOk, RingOk;
  }

  /** What one step of a run keeps. */
  predicate Step(op: Op, reqs: map<nat, Req>, next: nat, servers: seq<Server>, reqs': map<nat, Req>, next': nat,
                 servers': seq<Server>, maxRetransmits: nat, maxReissues: nat) {
    && (AllWithin(reqs, Most(maxRetransmits), maxReissues) ==> AllWithin(reqs', Most(maxRetransmits), maxReissues))
    && (next' == next || next' == next + 1) && reqs'.Keys - reqs.Keys == (if next' > next then {next} else {})
    && reqs.Keys - reqs'.Keys <= Names(op) + Probes(servers)
    && Probes(servers') <= Probes(servers) + (if op.Probe? && next' > next then {next} else {})
    && Tended(reqs, servers, reqs', servers')
  }

  lemma StepIdle(op: Op, reqs: map<nat, Req>, next: nat, servers: seq<Server>, servers': seq<Server>,
                 maxRetransmits: nat, maxReissues: nat)
    requires NoneUp(servers, servers')
    ensures Step(op, reqs, next, servers, reqs, next, servers', maxRetransmits, maxReissues)
  {
    ProbesSame(servers, servers');
    StillChoked(servers, servers');
    TendedServers(reqs, servers, servers');
    hide AllWithin, Probes, Tended;
  }

  /** A server added. */
  lemma StepAdded(op: Op, reqs: map<nat, Req>, next: nat, servers: seq<Server>, v: Server, maxRetransmits: nat, maxReissues: nat)
    requires v.probe.None?
    ensures Step(op, reqs, next, servers, reqs, next, servers + [v], maxRetransmits, maxReissues)
  {
    assert Probes(servers + [v]) <= Probes(servers);
    if SomeChoked(servers) {
      var t :| 0 <= t < |servers| && servers[t].choked;
      assert (servers + [v])[t].choked;
    }
    hide AllWithin, Probes, SomeChoked, Tended;
    TendedServers(reqs, servers, servers + [v]);
  }

  lemma ProbesSame(servers: seq<Server>, servers': seq<Server>)
    requires NoneUp(servers, servers')
    ensures Probes(servers') <= Probes(servers)
  {
    forall r | r in Probes(servers') ensures r in Probes(servers) {
      var s :| 0 <= s < |servers'| && servers'[s].probe == Some(r);
      assert servers[s].probe == Some(r);
    }
  }

  /** One probe set, or dropped. */
  lemma ProbesUpdate(servers: seq<Server>, s: nat, v: Server)
    requires s < |servers|
    ensures v.probe == servers[s].probe || v.probe.None? ==> Probes(servers[s := v]) <= Probes(servers)
    ensures v.probe.Some? ==> Probes(servers[s := v]) <= Probes(servers) + {v.probe.value}
  {
    var servers' := servers[s := v];
    forall r | r in Probes(servers') ensures r in Probes(servers) || (v.probe.Some? && r == v.probe.value) {
      var t :| 0 <= t < |servers'| && servers'[t].probe == Some(r);
      if t != s {
        assert servers[t].probe == Some(r);
      }
    }
    if v.probe == servers[s].probe && v.probe.Some? {
      assert v.probe.value in Probes(servers);
    }
  }

  lemma DroppedProbes(servers: seq<Server>, s: nat)
    requires s < |servers|
    ensures Dropped(servers, s) <= Probes(servers) && Probes(Raised(servers, s)) <= Probes(servers)
  {
    ProbesUpdate(servers, s, Raised(servers, s)[s]);
    assert Raised(servers, s) == servers[s := Raised(servers, s)[s]];
  }

  lemma ProbedProbes(servers: seq<Server>, s: nat, r: nat)
    requires s < |servers|
    ensures Probes(Probed(servers, s, r)) <= Probes(servers)
  {
    ProbesUpdate(servers, s, Probed(servers, s, r)[s]);
    assert Probed(servers, s, r) == servers[s := Probed(servers, s, r)[s]];
  }

  /** A server that forgets its probe. */
  lemma StepForgotten(op: Op, reqs: map<nat, Req>, next: nat, servers: seq<Server>, s: nat, maxRetransmits: nat, maxReissues: nat)
    requires s < |servers|
    ensures Step(op, reqs, next, servers, reqs, next, servers[s := servers[s].(probe := None)], maxRetransmits, maxReissues)
  {
    var v := servers[s].(probe := None);
    ProbesUpdate(servers, s, v);
    ChokedUpdate(servers, s, v);
    hide AllWithin, Probes, SomeChoked, Tended;
    TendedServers(reqs, servers, servers[s := v]);
  }

  /** Every request kept, but for those gone. */
  lemma StepKept(op: Op, reqs: map<nat, Req>, next: nat, servers: seq<Server>, reqs': map<nat, Req>, servers': seq<Server>,
                 gone: set<nat>, maxRetransmits: nat, maxReissues: nat)
    requires Kept(reqs, reqs', gone) && reqs'.Keys == reqs.Keys - gone && gone <= Names(op) + Probes(servers)
    requires Probes(servers') <= Probes(servers) && Tended(reqs, servers, reqs', servers')
    ensures Step(op, reqs, next, servers, reqs', next, servers', maxRetransmits, maxReissues)
  {
    if AllWithin(reqs, Most(maxRetransmits), maxReissues) {
      KeptWithin(reqs, reqs', gone, Most(maxRetransmits), maxReissues);
    }
    hide AllWithin, Kept, Probes, Tended;
  }

  /** A new request. */
  lemma StepNew(op: Op, reqs: map<nat, Req>, next: nat, servers: seq<Server>, reqs': map<nat, Req>, servers': seq<Server>,
                maxRetransmits: nat, maxReissues: nat)
    requires Kept(reqs, reqs', {}) && next !in reqs && reqs'.Keys == reqs.Keys + {next} && next in reqs' && Fresh(reqs'[next])
    requires Probes(servers') <= Probes(servers) + (if op.Probe? then {next} else {}) && Tended(reqs, servers, reqs', servers')
    ensures Step(op, reqs, next, servers, reqs', next + 1, servers', maxRetransmits, maxReissues)
  {
    FreshWithin(reqs'[next], Most(maxRetransmits), maxReissues);
    if AllWithin(reqs, Most(maxRetransmits), maxReissues) {
      hide Within, Fresh, Advanced;
      KeptWithin(reqs, reqs', {}, Most(maxRetransmits), maxReissues);
    }
    hide AllWithin, Kept, Probes, Tended;
  }

  /** Request r, which goes on. */
  lemma StepOn(op: Op, reqs: map<nat, Req>, next: nat, servers: seq<Server>, reqs': map<nat, Req>, servers': seq<Server>, r: nat,
               maxRetransmits: nat, maxReissues: nat)
    requires Kept(reqs, reqs', {r}) && reqs'.Keys == reqs.Keys && r in reqs && r in reqs' && reqs[r].ns.Some? && NoneUp(servers, servers')
    requires Tended(reqs, servers, reqs', servers')
    requires (reqs[r].txCount < maxRetransmits && Sent(reqs[r].(timer := false, transmitMe := true), reqs'[r]))
             || (reqs[r].reissues < maxReissues && Reissued(reqs[r], reqs'[r]))
    ensures Step(op, reqs, next, servers, reqs', next, servers', maxRetransmits, maxReissues)
  {
    ProbesSame(servers, servers');
    if AllWithin(reqs, Most(maxRetransmits), maxReissues) {
      assert Within(reqs[r], Most(maxRetransmits), maxReissues);
      if reqs[r].txCount < maxRetransmits && Sent(reqs[r].(timer := false, transmitMe := true), reqs'[r]) {
        RetriedWithin(reqs[r], reqs'[r], maxRetransmits, maxReissues);
      } else {
        ReissuedWithin(reqs[r], reqs'[r], Most(maxRetransmits), maxReissues);
      }
      hide Within, Advanced;
      KeptWithin(reqs, reqs', {r}, Most(maxRetransmits), maxReissues);
    }
    hide AllWithin, Kept, Probes, Tended;
  }

  lemma AccountedStep(keys0: set<nat>, next0: nat, keys: set<nat>, next: nat, ended: set<nat>,
                      keys': set<nat>, next': nat, more: set<nat>)
    requires Accounted(keys0, next0, keys, next, ended) && AllBelow(keys0, next0) && AllBelow(keys, next)
    requires (next' == next || next' == next + 1) && keys' - keys == (if next' > next then {next} else {}) && more == keys - keys'
    ensures Accounted(keys0, next0, keys', next', ended + more)
  {
    forall r: nat {:trigger r in keys'} {:trigger r in ended + more} {:trigger r in keys0} | true
      ensures r in keys' || r in ended + more <==> r in keys0 || next0 <= r < next'
      ensures !(r in keys' && r in ended + more)
    {
      assert r in keys' - keys <==> r == next && next' > next;
      assert r in keys || r in ended <==> r in keys0 || next0 <= r < next;
    }
  }

  lemma StepTrans(ops: seq<Op>, i: nat, keys0: set<nat>, next0: nat, probes0: set<nat>, made: set<nat>,
                  reqs: map<nat, Req>, next: nat, servers: seq<Server>, ended: set<nat>,
                  reqs': map<nat, Req>, next': nat, servers': seq<Server>, more: set<nat>, maxRetransmits: nat, maxReissues: nat)
    requires i < |ops| && Step(ops[i], reqs, next, servers, reqs', next', servers', maxRetransmits, maxReissues)
    requires more == reqs.Keys - reqs'.Keys
    requires AllBelow(keys0, next0) && AllBelow(reqs.Keys, next)
    requires Accounted(keys0, next0, reqs.Keys, next, ended)
    requires ended <= AllNames(ops[..i]) + probes0 + made && Probes(servers) <= probes0 + made
    ensures var made' := made + (if ops[i].Probe? && next' > next then {next} else {});
            && Accounted(keys0, next0, reqs'.Keys, next', ended + more)
            && ended + more <= AllNames(ops[..i + 1]) + probes0 + made' && Probes(servers') <= probes0 + made'
  {
    assert ops[..i + 1][..i] == ops[..i];
    hide AllWithin, Probes, Accounted, AllBelow, Tended;
    AccountedStep(keys0, next0, reqs.Keys, next, ended, reqs'.Keys, next', more);
  }

  /** One operation; one that names a request or server that is not there does nothing. */
  method Perform(b: DnsBase, op: Op)
    requires b.Valid()
    modifies b
    ensures b.Valid()
    ensures Step(op, old(b.reqs), old(b.nextReq), old(b.servers), b.reqs, b.nextReq, b.servers, b.maxRetransmits, b.maxReissues)
  {
    hide Consistent, RingOk, Tended, Step, Kept, NoneUp, Fresh, Probes, Ups;
    ghost var reqs0, next0, servers0 := b.reqs, b.nextReq, b.servers;
    UpAlways(b.servers);
    StepIdle(op, b.reqs, b.nextReq, b.servers, b.servers, b.maxRetransmits, b.maxReissues);
    match op {
      case Resolve =>
        var r := b.Resolve();
        ProbesSame(servers0, b.servers);
        StepNew(op, reqs0, next0, servers0, b.reqs, b.servers, b.maxRetransmits, b.maxReissues);
      case Probe(s) => PerformProbe(b, op);
      case ProbeOver(s) =>
        if s < |b.servers| {
          b.SetProbe(s, None);
          StepForgotten(op, b.reqs, b.nextReq, servers0, s, b.maxRetransmits, b.maxReissues);
        }
      case Cancel(r) =>
        b.Cancel(r);
        ProbesSame(servers0, b.servers);
        StepKept(op, reqs0, next0, servers0, b.reqs, b.servers, {r}, b.maxRetransmits, b.maxReissues);
      case Timeout(r) => PerformTimeout(b, op);
      case Reply(r, a) => PerformReply(b, op);
      case Up(s) => PerformUp(b, op);
      case Ready(s) => PerformReady(b, op);
      case Resume =>
        b.Pump();
        ProbesSame(servers0, b.servers);
        StepKept(op, reqs0, next0, servers0, b.reqs, b.servers, {}, b.maxRetransmits, b.maxReissues);
      case SetMax(n) =>
        if n <= INFLIGHT_LIMIT {
          b.SetMaxInflight(n);
        }
      case AddServer(address, failure) =>
        var _ := b.AddServer(address, failure);
        StepAdded(op, b.reqs, b.nextReq, servers0, Server(address, true, 0, 0, 0, false, None), b.maxRetransmits, b.maxReissues);
    }
  }

  method PerformProbe(b: DnsBase, op: Op)
    requires b.Valid() && op.Probe?
    modifies b
    ensures b.Valid()
    ensures Step(op, old(b.reqs), old(b.nextReq), old(b.servers), b.reqs, b.nextReq, b.servers, b.maxRetransmits, b.maxReissues)
  {
    hide Consistent, RingOk, Tended, Step, Kept, NoneUp, Fresh, FirstSent, Probes, Ups;
    ghost var reqs0, next0, servers0 := b.reqs, b.nextReq, b.servers;
    UpAlways(b.servers);
    StepIdle(op, b.reqs, b.nextReq, b.servers, b.servers, b.maxRetransmits, b.maxReissues);
    if op.s < |b.servers| && b.inflightCount < NO_ID {
      Unused(b);
      var r := b.SendProbe(op.s);
      ghost var v := servers0[op.s].(probe := Some(r));
      ProbesUpdate(servers0, op.s, v);
      ProbesSame(servers0[op.s := v], b.servers);
      StepNew(op, reqs0, next0, servers0, b.reqs, b.servers, b.maxRetransmits, b.maxReissues);
    }
  }

  method PerformTimeout(b: DnsBase, op: Op)
    requires b.Valid() && op.Timeout?
    modifies b
    ensures b.Valid()
    ensures Step(op, old(b.reqs), old(b.nextReq), old(b.servers), b.reqs, b.nextReq, b.servers, b.maxRetransmits, b.maxReissues)
  {
    hide Consistent, RingOk, Tended, Step, Kept, NoneUp, Probes, Ups, Retried;
    ghost var reqs0, next0, servers0, attempts0 := b.reqs, b.nextReq, b.servers, b.attempts;
    UpAlways(b.servers);
    StepIdle(op, b.reqs, b.nextReq, b.servers, b.servers, b.maxRetransmits, b.maxReissues);
    var r := op.r;
    if r in b.reqs && b.reqs[r].ns.Some? && b.reqs[r].timer {
      InFlight(b.reqs, r);
      ghost var to, at := b.Timeout(r);
      if reqs0[r].txCount < b.maxRetransmits {
        RetriedSent(reqs0, servers0, b.reqs, b.servers, r, to, at, b.attempts - attempts0, b.send(attempts0), b.maxTimeouts);
        StepOn(op, reqs0, next0, servers0, b.reqs, b.servers, r, b.maxRetransmits, b.maxReissues);
      } else {
        ProbesSame(servers0, b.servers);
        StepKept(op, reqs0, next0, servers0, b.reqs, b.servers, {r}, b.maxRetransmits, b.maxReissues);
      }
    }
  }

  method PerformReply(b: DnsBase, op: Op)
    requires b.Valid() && op.Reply?
    modifies b
    ensures b.Valid()
    ensures Step(op, old(b.reqs), old(b.nextReq), old(b.servers), b.reqs, b.nextReq, b.servers, b.maxRetransmits, b.maxReissues)
  {
    hide Consistent, RingOk, Tended, Step, Kept, NoneUp, Probes, Ups, Raised, Dropped, Probed, Others, Reissued, Sent, Counted;
    ghost var reqs0, next0, servers0 := b.reqs, b.nextReq, b.servers;
    UpAlways(b.servers);
    StepIdle(op, b.reqs, b.nextReq, b.servers, b.servers, b.maxRetransmits, b.maxReissues);
    var r := op.r;
    if r in b.reqs && b.reqs[r].ns.Some? {
      InFlight(b.reqs, r);
      b.ReplyHandle(r, op.answer);
      ghost var s := reqs0[r].ns.value;
      if op.answer == Definite {
        ghost var servers1 := Probed(servers0, s, r);
        ProbedProbes(servers0, s, r);
        DroppedProbes(servers1, s);
        ProbesSame(Raised(servers1, s), b.servers);
        StepKept(op, reqs0, next0, servers0, b.reqs, b.servers, {r} + Dropped(servers1, s), b.maxRetransmits, b.maxReissues);
      } else if r in b.reqs {
        StepOn(op, reqs0, next0, servers0, b.reqs, b.servers, r, b.maxRetransmits, b.maxReissues);
      } else {
        ProbesSame(servers0, b.servers);
        StepKept(op, reqs0, next0, servers0, b.reqs, b.servers, {r}, b.maxRetransmits, b.maxReissues);
      }
    }
  }

  method PerformUp(b: DnsBase, op: Op)
    requires b.Valid() && op.Up?
    modifies b
    ensures b.Valid()
    ensures Step(op, old(b.reqs), old(b.nextReq), old(b.servers), b.reqs, b.nextReq, b.servers, b.maxRetransmits, b.maxReissues)
  {
    hide Consistent, RingOk, Tended, Step, Kept, NoneUp, Probes, Ups, Raised, Dropped;
    ghost var reqs0, next0, servers0 := b.reqs, b.nextReq, b.servers;
    UpAlways(b.servers);
    StepIdle(op, b.reqs, b.nextReq, b.servers, b.servers, b.maxRetransmits, b.maxReissues);
    var s := op.s;
    if s < |b.servers| {
      b.NameserverUp(s);
      DroppedProbes(servers0, s);
      ProbesSame(Raised(servers0, s), b.servers);
      StepKept(op, reqs0, next0, servers0, b.reqs, b.servers, Dropped(servers0, s), b.maxRetransmits, b.maxReissues);
    }
  }

  method PerformReady(b: DnsBase, op: Op)
    requires b.Valid() && op.Ready?
    modifies b
    ensures b.Valid()
    ensures Step(op, old(b.reqs), old(b.nextReq), old(b.servers), b.reqs, b.nextReq, b.servers, b.maxRetransmits, b.maxReissues)
  {
    hide Consistent, RingOk, Tended, Step, Kept, NoneUp, Probes, Ups, Blocked;
    ghost var reqs0, next0, servers0 := b.reqs, b.nextReq, b.servers;
    UpAlways(b.servers);
    StepIdle(op, b.reqs, b.nextReq, b.servers, b.servers, b.maxRetransmits, b.maxReissues);
    var s := op.s;
    if s < |b.servers| {
      b.Ready(s);
      ghost var v := servers0[s].(choked := false);
      ProbesUpdate(servers0, s, v);
      ProbesSame(servers0[s := v], b.servers);
      StepKept(op, reqs0, next0, servers0, b.reqs, b.servers, {}, b.maxRetransmits, b.maxReissues);
    }
  }

  lemma Unused(b: DnsBase)
    requires b.Valid()
    ensures b.nextReq !in b.reqs
  {
    hide BucketsOk, WaitingOk, IdsOk, ServersOk, RingOk;
  }

  /** Whatever users, timers and servers do in whatever order: every request made is there or has ended, and
      not both; it ends only through an operation that names it, unless it is the probe of a server; none is
      ever sent more than (maxReissues + 1) times what a request may be sent to one server; and none in flight
      is stuck: its timeout is running, or it is to be sent when some server can take more. The requests that
      end are in ended, and the probes sent in the run are in made. */
  method Run(b: DnsBase, ops: seq<Op>) returns (ended: set<nat>, made: set<nat>)
    requires b.Valid() && AllWithin(b.reqs, Most(b.maxRetransmits), b.maxReissues) && AllAttended(b.reqs, b.servers)
    modifies b
    ensures b.Valid() && AllWithin(b.reqs, Most(b.maxRetransmits), b.maxReissues) && AllAttended(b.reqs, b.servers)
    ensures forall r {:trigger r in b.reqs} :: r in b.reqs ==>
              b.reqs[r].sends <= (b.maxReissues + 1) * (if b.maxRetransmits == 0 then 1 else b.maxRetransmits)
    ensures Accounted(old(b.reqs).Keys, old(b.nextReq), b.reqs.Keys, b.nextReq, ended)
    ensures ended <= AllNames(ops) + Probes(old(b.servers)) + made
  {
    hide Consistent, RingOk, Step, AllWithin, AllAttended, Probes, AllNames, Ups;
    ended, made := {}, {};
    ghost var reqs0, next0, servers0 := b.reqs, b.nextReq, b.servers;
    var i := 0;
    Below(b);
    while i < |ops|
      invariant i <= |ops| && b.Valid() && AllWithin(b.reqs, Most(b.maxRetransmits), b.maxReissues) && AllAttended(b.reqs, b.servers)
      invariant Accounted(reqs0.Keys, next0, b.reqs.Keys, b.nextReq, ended)
      invariant ended <= AllNames(ops[..i]) + Probes(servers0) + made && Probes(b.servers) <= Probes(servers0) + made
    {
      Below(b);
      ghost var reqs1, servers1, ended1, made1 := b.reqs, b.servers, ended, made;
      var keys, next1 := b.reqs.Keys, b.nextReq;
      Perform(b, ops[i]);
      ended := ended + (keys - b.reqs.Keys);
      if ops[i].Probe? && b.nextReq > next1 {
        made := made + {next1};
      }
      StepTrans(ops, i, reqs0.Keys, next0, Probes(servers0), made1, reqs1, next1, servers1, ended1, b.reqs, b.nextReq, b.servers,
                keys - b.reqs.Keys, b.maxRetransmits, b.maxReissues);
      StepWithin(ops[i], reqs1, next1, servers1, b.reqs, b.nextReq, b.servers, b.maxRetransmits, b.maxReissues);
      i := i + 1;
    }
    assert ops[..|ops|] == ops;
    AllBounded(b.reqs, Most(b.maxRetransmits), b.maxReissues);
  }

  lemma StepWithin(op: Op, reqs: map<nat, Req>, next: nat, servers: seq<Server>, reqs': map<nat, Req>, next': nat,
                   servers': seq<Server>, maxRetransmits: nat, maxReissues: nat)
    requires Step(op, reqs, next, servers, reqs', next', servers', maxRetransmits, maxReissues)
    requires AllWithin(reqs, Most(maxRetransmits), maxReissues) && AllAttended(reqs, servers)
    ensures AllWithin(reqs', Most(maxRetransmits), maxReissues) && AllAttended(reqs', servers')
  {
    hide AllWithin, AllAttended, Probes;
  }

  lemma AllBounded(reqs: map<nat, Req>, most: nat, maxReissues: nat)
    requires AllWithin(reqs, most, maxReissues)
    ensures forall r {:trigger r in reqs} :: r in reqs ==> reqs[r].sends <= (maxReissues + 1) * most
  {
    forall r {:trigger r in reqs} | r in reqs ensures reqs[r].sends <= (maxReissues + 1) * most {
      SendsBound(reqs[r], most, maxReissues);
    }
  }
}
