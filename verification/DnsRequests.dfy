/** The requests of a DNS client: those in flight, those waiting, and the name servers they go to. */
module DnsRequests {
  import opened Lists
  import opened Options

  const NO_ID: nat := 0xffff
  /** The most that the max-inflight option can be set to. */
  const INFLIGHT_LIMIT: nat := 65000

  /** A request; one that waits has no server yet. The model counts in sends how often it was sent in all;
      txCount, as in the source, starts again when it goes to another server. timer is set while its timeout
      is running. */
  datatype Req = Req(ns: Option<nat>, transId: nat, txCount: nat, reissues: nat, transmitMe: bool, sends: nat, timer: bool)

  /** A server; address stands for its address and port. */
  datatype Server = Server(address: nat, up: bool, inflight: int, failedTimes: nat, timedout: nat, choked: bool, probe: Option<nat>)

  // ---------------------------------------------------------------- invariants

  function Inflight(reqs: map<nat, Req>): set<nat> {
    set r | r in reqs && reqs[r].ns.Some?
  }

  function Assigned(reqs: map<nat, Req>, s: nat): set<nat> {
    set r | r in reqs && reqs[r].ns == Some(s)
  }

  function Ups(servers: seq<Server>): set<nat> {
    set s | 0 <= s < |servers| && servers[s].up
  }

  /** REQ_HEAD: the list of a request with this id among n lists. */
  function Slot(id: nat, n: nat): (k: nat)
    requires n > 0
    ensures k < n
  {
    id % n
  }

  /** evdns_request_insert: r at the end of the list for this id. */
  function InsertInto(heads: seq<seq<nat>>, id: nat, r: nat): seq<seq<nat>>
    requires |heads| > 0
  {
    heads[Slot(id, |heads|) := heads[Slot(id, |heads|)] + [r]]
  }

  /** evdns_request_remove: r taken out of the list for this id. */
  function RemoveFrom(heads: seq<seq<nat>>, id: nat, r: nat): seq<seq<nat>>
    requires |heads| > 0
  {
    heads[Slot(id, |heads|) := Drop(heads[Slot(id, |heads|)], r)]
  }

  /** The count of server s changed by d. */
  function Recount(servers: seq<Server>, s: nat, d: int): seq<Server>
    requires s < |servers|
  {
    servers[s := servers[s].(inflight := servers[s].inflight + d)]
  }

  /** One request less for server s and one more for server t. */
  function Recounted(servers: seq<Server>, s: nat, t: nat): seq<Server>
    requires s < |servers| && t < |servers|
  {
    servers[s := servers[s].(inflight := servers[s].inflight - 1)][t := servers[t].(inflight := servers[t].inflight + 1)]
  }

  /** Bucket k of n holds exactly the requests in flight whose id falls into it. */
  predicate BucketOk(reqs: map<nat, Req>, q: seq<nat>, k: nat, n: nat)
    requires n > 0
  {
    && NoDuplicates(q)
    && (forall r {:trigger r in q} :: r in q ==> r in reqs && reqs[r].ns.Some? && Slot(reqs[r].transId, n) == k)
    && (forall r {:trigger r in reqs} :: r in reqs && reqs[r].ns.Some? && Slot(reqs[r].transId, n) == k ==> r in q)
  }

  predicate BucketsOk(reqs: map<nat, Req>, heads: seq<seq<nat>>) {
    |heads| > 0 && forall k {:trigger heads[k]} :: 0 <= k < |heads| ==> BucketOk(reqs, heads[k], k, |heads|)
  }

  /** Every request in flight is in the list that its id names. */
  lemma InItsBucket(reqs: map<nat, Req>, heads: seq<seq<nat>>)
    requires BucketsOk(reqs, heads)
    ensures |heads| > 0
    ensures forall r {:trigger r in reqs} :: r in reqs && reqs[r].ns.Some? ==> r in heads[reqs[r].transId % |heads|]
  {
    forall r {:trigger r in reqs} | r in reqs && reqs[r].ns.Some? ensures r in heads[reqs[r].transId % |heads|] {
      var k := reqs[r].transId % |heads|;
      assert BucketOk(reqs, heads[k], k, |heads|);
    }
  }

  predicate WaitingOk(reqs: map<nat, Req>, waiting: seq<nat>) {
    && NoDuplicates(waiting)
    && (forall r {:trigger r in waiting} :: r in waiting ==> r in reqs && reqs[r].ns.None?)
    && (forall r {:trigger r in reqs} :: r in reqs && reqs[r].ns.None? ==> r in waiting)
  }

  /** Requests in flight have ids, all different. */
  predicate IdsOk(reqs: map<nat, Req>) {
    && (forall r {:trigger r in reqs} :: r in reqs && reqs[r].ns.Some? ==> reqs[r].transId < NO_ID)
    && (forall r, t {:trigger r in reqs, t in reqs} ::
          r in reqs && t in reqs && r != t && reqs[r].ns.Some? && reqs[t].ns.Some? ==> reqs[r].transId != reqs[t].transId)
  }

  /** Each server counts the requests assigned to it. */
  predicate ServersOk(reqs: map<nat, Req>, servers: seq<Server>) {
    && (forall s {:trigger servers[s]} :: 0 <= s < |servers| ==> servers[s].inflight == |Assigned(reqs, s)|)
    && (forall r {:trigger r in reqs} :: r in reqs && reqs[r].ns.Some? ==> reqs[r].ns.value < |servers|)
  }

  /** The lists hold what they should, and every count is exact. */
  ghost predicate Consistent(reqs: map<nat, Req>, heads: seq<seq<nat>>, waiting: seq<nat>, servers: seq<Server>,
                             inflightCount: int, waitingCount: int, nextReq: nat) {
    && BucketsOk(reqs, heads) && WaitingOk(reqs, waiting) && IdsOk(reqs) && ServersOk(reqs, servers)
    && inflightCount == |Inflight(reqs)| == Lengths(heads) && waitingCount == |waiting|
    && forall r {:trigger r in reqs} :: r in reqs ==> r < nextReq
  }

  /** The servers form a ring. */
  predicate RingOk(servers: seq<Server>, ring: seq<nat>, head: nat) {
    && (forall s: nat {:trigger s in ring} :: s < |servers| ==> s in ring)
    && (forall k {:trigger ring[k]} :: 0 <= k < |ring| ==> ring[k] < |servers|)
    && (|ring| == 0 ==> |servers| == 0) && (|ring| > 0 ==> head < |ring|)
  }

  // ---------------------------------------------------------------- changes

  /** Request r in flight to server s under a new id. */
  lemma {:induction false} Launch(reqs: map<nat, Req>, heads: seq<seq<nat>>, waiting: seq<nat>, servers: seq<Server>, r: nat, q: Req)
    requires BucketsOk(reqs, heads) && WaitingOk(reqs, waiting) && IdsOk(reqs) && ServersOk(reqs, servers)
    requires q.ns.Some? && q.ns.value < |servers| && q.transId < NO_ID && (r in reqs ==> reqs[r].ns.None?)
    requires forall t {:trigger t in reqs} :: t in reqs && reqs[t].ns.Some? ==> reqs[t].transId != q.transId
    ensures var k, s := Slot(q.transId, |heads|), q.ns.value;
            && BucketsOk(reqs[r := q], heads[k := heads[k] + [r]]) && WaitingOk(reqs[r := q], Drop(waiting, r)) && IdsOk(reqs[r := q])
            && ServersOk(reqs[r := q], servers[s := servers[s].(inflight := servers[s].inflight + 1)])
            && |Inflight(reqs[r := q])| == |Inflight(reqs)| + 1
            && Lengths(heads[k := heads[k] + [r]]) == Lengths(heads) + 1
  {
    var k, s := Slot(q.transId, |heads|), q.ns.value;
    var reqs' := reqs[r := q];
    LaunchBuckets(reqs, heads, r, q);
    LaunchServers(reqs, servers, r, q);
    LaunchIds(reqs, r, q);
    LaunchWaiting(reqs, waiting, r, q);
    LengthsUpdate(heads, k, heads[k] + [r]);
    hide BucketsOk, IdsOk, ServersOk, WaitingOk, Drop, Lengths, NoDuplicates, Inflight;
  }

  lemma LaunchWaiting(reqs: map<nat, Req>, waiting: seq<nat>, r: nat, q: Req)
    requires WaitingOk(reqs, waiting) && q.ns.Some? && (r in reqs ==> reqs[r].ns.None?)
    ensures WaitingOk(reqs[r := q], Drop(waiting, r)) && |Inflight(reqs[r := q])| == |Inflight(reqs)| + 1
  {
    DropFacts(waiting, r);
    hide Drop, NoDuplicates;
    assert Inflight(reqs[r := q]) == Inflight(reqs) + {r};
  }

  lemma {:induction false} LaunchIds(reqs: map<nat, Req>, r: nat, q: Req)
    requires IdsOk(reqs) && q.transId < NO_ID && (r in reqs ==> reqs[r].ns.None?)
    requires forall t {:trigger t in reqs} :: t in reqs && reqs[t].ns.Some? ==> reqs[t].transId != q.transId
    ensures IdsOk(reqs[r := q])
  {
  }

  lemma LaunchServers(reqs: map<nat, Req>, servers: seq<Server>, r: nat, q: Req)
    requires ServersOk(reqs, servers) && q.ns.Some? && q.ns.value < |servers| && (r in reqs ==> reqs[r].ns.None?)
    ensures var s := q.ns.value; ServersOk(reqs[r := q], servers[s := servers[s].(inflight := servers[s].inflight + 1)])
  {
    var s := q.ns.value;
    var reqs' := reqs[r := q];
    var servers' := servers[s := servers[s].(inflight := servers[s].inflight + 1)];
    forall t {:trigger servers'[t]} | 0 <= t < |servers'| ensures servers'[t].inflight == |Assigned(reqs', t)| {
      assert servers[t].inflight == |Assigned(reqs, t)|;
      AssignedLaunch(reqs, r, q, t);
    }
    hide Assigned;
    assert ServersOk(reqs', servers');
  }

  lemma AssignedLaunch(reqs: map<nat, Req>, r: nat, q: Req, t: nat)
    requires r in reqs ==> reqs[r].ns.None?
    ensures |Assigned(reqs[r := q], t)| == |Assigned(reqs, t)| + if q.ns == Some(t) then 1 else 0
  {
    if q.ns == Some(t) {
      assert Assigned(reqs[r := q], t) == Assigned(reqs, t) + {r};
    } else {
      assert Assigned(reqs[r := q], t) == Assigned(reqs, t);
    }
  }

  lemma LaunchBuckets(reqs: map<nat, Req>, heads: seq<seq<nat>>, r: nat, q: Req)
    requires BucketsOk(reqs, heads) && q.ns.Some? && (r in reqs ==> reqs[r].ns.None?)
    ensures var k := Slot(q.transId, |heads|); BucketsOk(reqs[r := q], heads[k := heads[k] + [r]])
  {
    var k := Slot(q.transId, |heads|);
    var h := heads[k := heads[k] + [r]];
    forall j {:trigger h[j]} | 0 <= j < |h| ensures BucketOk(reqs[r := q], h[j], j, |h|) {
      assert BucketOk(reqs, heads[j], j, |heads|);
      if j == k {
        AppendOne(heads[j], r);
      }
    }
  }

  /** Request r, in flight, is gone. */
  lemma Land(reqs: map<nat, Req>, heads: seq<seq<nat>>, waiting: seq<nat>, servers: seq<Server>, r: nat)
    requires BucketsOk(reqs, heads) && WaitingOk(reqs, waiting) && IdsOk(reqs) && ServersOk(reqs, servers)
    requires r in reqs && reqs[r].ns.Some?
    ensures var k, s := Slot(reqs[r].transId, |heads|), reqs[r].ns.value;
            && s < |servers| && servers[s].inflight > 0
            && BucketsOk(reqs - {r}, heads[k := Drop(heads[k], r)]) && WaitingOk(reqs - {r}, waiting) && IdsOk(reqs - {r})
            && ServersOk(reqs - {r}, servers[s := servers[s].(inflight := servers[s].inflight - 1)])
            && |Inflight(reqs - {r})| == |Inflight(reqs)| - 1
            && Lengths(heads[k := Drop(heads[k], r)]) == Lengths(heads) - 1
  {
    var k := Slot(reqs[r].transId, |heads|);
    LandBuckets(reqs, heads, r);
    LengthsUpdate(heads, k, Drop(heads[k], r));
    LandServers(reqs, servers, r);
    LandOthers(reqs, waiting, r);
    hide BucketsOk, IdsOk, ServersOk, WaitingOk, Drop, Lengths, Inflight;
  }

  lemma LandOthers(reqs: map<nat, Req>, waiting: seq<nat>, r: nat)
    requires WaitingOk(reqs, waiting) && IdsOk(reqs) && r in reqs && reqs[r].ns.Some?
    ensures WaitingOk(reqs - {r}, waiting) && IdsOk(reqs - {r}) && |Inflight(reqs - {r})| == |Inflight(reqs)| - 1
  {
    hide NoDuplicates;
    assert Inflight(reqs - {r}) == Inflight(reqs) - {r};
  }

  lemma LandServers(reqs: map<nat, Req>, servers: seq<Server>, r: nat)
    requires ServersOk(reqs, servers) && r in reqs && reqs[r].ns.Some?
    ensures var s := reqs[r].ns.value;
            && s < |servers| && servers[s].inflight > 0
            && ServersOk(reqs - {r}, servers[s := servers[s].(inflight := servers[s].inflight - 1)])
  {
    var s, reqs' := reqs[r].ns.value, reqs - {r};
    assert r in Assigned(reqs, s);
    var servers' := servers[s := servers[s].(inflight := servers[s].inflight - 1)];
    forall t {:trigger servers'[t]} | 0 <= t < |servers'| ensures servers'[t].inflight == |Assigned(reqs', t)| {
      assert servers[t].inflight == |Assigned(reqs, t)|;
      if t == s {
        assert Assigned(reqs', t) == Assigned(reqs, t) - {r};
      } else {
        assert Assigned(reqs', t) == Assigned(reqs, t);
      }
    }
  }

  lemma LandBuckets(reqs: map<nat, Req>, heads: seq<seq<nat>>, r: nat)
    requires BucketsOk(reqs, heads) && r in reqs && reqs[r].ns.Some?
    ensures var k := Slot(reqs[r].transId, |heads|);
            BucketsOk(reqs - {r}, heads[k := Drop(heads[k], r)]) && |Drop(heads[k], r)| == |heads[k]| - 1
  {
    var k := Slot(reqs[r].transId, |heads|);
    var h := heads[k := Drop(heads[k], r)];
    assert BucketOk(reqs, heads[k], k, |heads|);
    DropFacts(heads[k], r);
    forall j {:trigger h[j]} | 0 <= j < |h| ensures BucketOk(reqs - {r}, h[j], j, |h|) {
      assert BucketOk(reqs, heads[j], j, |heads|);
    }
  }

  /** Request r goes to another server. */
  lemma Swap(reqs: map<nat, Req>, heads: seq<seq<nat>>, waiting: seq<nat>, servers: seq<Server>, r: nat, t: nat)
    requires BucketsOk(reqs, heads) && WaitingOk(reqs, waiting) && IdsOk(reqs) && ServersOk(reqs, servers)
    requires r in reqs && reqs[r].ns.Some? && t < |servers| && reqs[r].ns != Some(t)
    ensures var reqs' := reqs[r := reqs[r].(ns := Some(t))];
            var s := reqs[r].ns.value;
            && s < |servers| && servers[s].inflight > 0
            && BucketsOk(reqs', heads) && WaitingOk(reqs', waiting) && IdsOk(reqs') && Inflight(reqs') == Inflight(reqs)
            && ServersOk(reqs', servers[s := servers[s].(inflight := servers[s].inflight - 1)]
                                       [t := servers[t].(inflight := servers[t].inflight + 1)])
  {
    var reqs' := reqs[r := reqs[r].(ns := Some(t))];
    var s := reqs[r].ns.value;
    SameBuckets(reqs, heads, r, reqs'[r]);
    SwapServers(reqs, servers, r, t);
    hide BucketsOk, ServersOk, NoDuplicates;
  }

  lemma SwapServers(reqs: map<nat, Req>, servers: seq<Server>, r: nat, t: nat)
    requires ServersOk(reqs, servers) && r in reqs && reqs[r].ns.Some? && t < |servers| && reqs[r].ns != Some(t)
    ensures var s := reqs[r].ns.value;
            && s < |servers| && servers[s].inflight > 0
            && ServersOk(reqs[r := reqs[r].(ns := Some(t))], servers[s := servers[s].(inflight := servers[s].inflight - 1)]
                                                             [t := servers[t].(inflight := servers[t].inflight + 1)])
  {
    var s := reqs[r].ns.value;
    var reqs' := reqs[r := reqs[r].(ns := Some(t))];
    assert r in Assigned(reqs, s);
    var servers' := servers[s := servers[s].(inflight := servers[s].inflight - 1)][t := servers[t].(inflight := servers[t].inflight + 1)];
    forall u {:trigger servers'[u]} | 0 <= u < |servers'| ensures servers'[u].inflight == |Assigned(reqs', u)| {
      assert servers[u].inflight == |Assigned(reqs, u)|;
      if u == s {
        assert Assigned(reqs', u) == Assigned(reqs, u) - {r};
      } else if u == t {
        assert Assigned(reqs', u) == Assigned(reqs, u) + {r};
      } else {
        assert Assigned(reqs', u) == Assigned(reqs, u);
      }
    }
  }

  lemma SameBuckets(reqs: map<nat, Req>, heads: seq<seq<nat>>, r: nat, q: Req)
    requires BucketsOk(reqs, heads) && r in reqs && q.transId == reqs[r].transId && q.ns.Some? == reqs[r].ns.Some?
    ensures BucketsOk(reqs[r := q], heads)
  {
    forall j {:trigger heads[j]} | 0 <= j < |heads| ensures BucketOk(reqs[r := q], heads[j], j, |heads|) {
      assert BucketOk(reqs, heads[j], j, |heads|);
    }
  }

  /** A change of r that leaves where it is. */
  lemma Mark(reqs: map<nat, Req>, heads: seq<seq<nat>>, waiting: seq<nat>, servers: seq<Server>, r: nat, q: Req)
    requires BucketsOk(reqs, heads) && WaitingOk(reqs, waiting) && IdsOk(reqs) && ServersOk(reqs, servers)
    requires r in reqs && q.ns == reqs[r].ns && q.transId == reqs[r].transId
    ensures BucketsOk(reqs[r := q], heads) && WaitingOk(reqs[r := q], waiting) && IdsOk(reqs[r := q])
    ensures ServersOk(reqs[r := q], servers) && Inflight(reqs[r := q]) == Inflight(reqs)
  {
    SameBuckets(reqs, heads, r, q);
    forall u {:trigger servers[u]} | 0 <= u < |servers| ensures servers[u].inflight == |Assigned(reqs[r := q], u)| {
      assert Assigned(reqs[r := q], u) == Assigned(reqs, u);
    }
  }

  /** A new request at the end of the waiting queue. */
  lemma Queue(reqs: map<nat, Req>, heads: seq<seq<nat>>, waiting: seq<nat>, servers: seq<Server>, r: nat, q: Req)
    requires BucketsOk(reqs, heads) && WaitingOk(reqs, waiting) && IdsOk(reqs) && ServersOk(reqs, servers)
    requires r !in reqs && q.ns.None?
    ensures BucketsOk(reqs[r := q], heads) && WaitingOk(reqs[r := q], waiting + [r]) && IdsOk(reqs[r := q])
    ensures ServersOk(reqs[r := q], servers) && Inflight(reqs[r := q]) == Inflight(reqs)
  {
    forall j {:trigger heads[j]} | 0 <= j < |heads| ensures BucketOk(reqs[r := q], heads[j], j, |heads|) {
      assert BucketOk(reqs, heads[j], j, |heads|);
    }
    AppendOne(waiting, r);
    forall u {:trigger servers[u]} | 0 <= u < |servers| ensures servers[u].inflight == |Assigned(reqs[r := q], u)| {
      assert Assigned(reqs[r := q], u) == Assigned(reqs, u);
    }
  }

  /** A waiting request is gone. */
  lemma Unqueue(reqs: map<nat, Req>, heads: seq<seq<nat>>, waiting: seq<nat>, servers: seq<Server>, r: nat)
    requires BucketsOk(reqs, heads) && WaitingOk(reqs, waiting) && IdsOk(reqs) && ServersOk(reqs, servers)
    requires r in reqs && reqs[r].ns.None?
    ensures BucketsOk(reqs - {r}, heads) && WaitingOk(reqs - {r}, Drop(waiting, r)) && IdsOk(reqs - {r})
    ensures ServersOk(reqs - {r}, servers) && Inflight(reqs - {r}) == Inflight(reqs) && |Drop(waiting, r)| == |waiting| - 1
  {
    forall j {:trigger heads[j]} | 0 <= j < |heads| ensures BucketOk(reqs - {r}, heads[j], j, |heads|) {
      assert BucketOk(reqs, heads[j], j, |heads|);
    }
    DropFacts(waiting, r);
    forall u {:trigger servers[u]} | 0 <= u < |servers| ensures servers[u].inflight == |Assigned(reqs - {r}, u)| {
      assert Assigned(reqs - {r}, u) == Assigned(reqs, u);
    }
  }

  /** Servers that differ in other ways than their counts. */
  lemma Restate(reqs: map<nat, Req>, servers: seq<Server>, s: nat, v: Server)
    requires ServersOk(reqs, servers) && s < |servers| && v.inflight == servers[s].inflight
    ensures ServersOk(reqs, servers[s := v])
  {
  }

  lemma UpsUpdate(servers: seq<Server>, s: nat, v: Server)
    requires s < |servers|
    ensures |Ups(servers[s := v])| == |Ups(servers)| - (if servers[s].up then 1 else 0) + (if v.up then 1 else 0)
  {
    var t := servers[s := v];
    if servers[s].up == v.up {
      assert Ups(t) == Ups(servers);
    } else if v.up {
      assert Ups(t) == Ups(servers) + {s};
    } else {
      assert Ups(t) == Ups(servers) - {s};
    }
  }

  // ---------------------------------------------------------------- the state of a client

  class DnsBase {
    var reqs: map<nat, Req>
    /** A request not made yet. */
    var nextReq: nat
    /** Lists of requests in flight, by id modulo their number, and the list of those waiting. */
    var heads: seq<seq<nat>>
    var waiting: seq<nat>
    var inflightCount: int
    var waitingCount: int
    var maxInflight: nat
    var servers: seq<Server>
    /** The ring of servers, and the place in it where the next pick starts. */
    var ring: seq<nat>
    var head: nat
    /** global_good_nameservers */
    var good: int
    const maxRetransmits: nat
    const maxReissues: nat
    const maxTimeouts: nat
    /** What each attempt to send comes to: 0 sent, 1 try later, 2 failed. */
    const send: nat -> nat
    /** The number of attempts so far. */
    var attempts: nat

    /** The lists and the counts of requests. */
    ghost predicate RequestsOk()
      reads this
    {
      Consistent(reqs, heads, waiting, servers, inflightCount, waitingCount, nextReq)
    }

    ghost predicate Valid()
      reads this
    {
      RequestsOk() && RingOk(servers, ring, head) && good == |Ups(servers)| && maxInflight <= INFLIGHT_LIMIT
    }

    constructor (maxRetransmits: nat, maxReissues: nat, maxTimeouts: nat, send: nat -> nat)
      ensures Valid() && reqs == map[] && servers == [] && heads == [[]] && waiting == []
    {
      this.maxRetransmits, this.maxReissues, this.maxTimeouts, this.send := maxRetransmits, maxReissues, maxTimeouts, send;
      reqs, nextReq, heads, waiting, inflightCount, waitingCount := map[], 0, [[]], [], 0, 0;
      maxInflight, servers, ring, head, good, attempts := 1, [], [], 0, 0, 0;
      new;
      assert Inflight(map[]) == {} && Ups([]) == {};
      NoLengths(heads);
    }

    /** request_find_from_trans_id: looking through one bucket finds what looking at every request in
        flight would. */
    method Find(id: nat) returns (r: Option<nat>)
      requires RequestsOk()
      ensures r.Some? ==> r.value in Inflight(reqs) && reqs[r.value].transId == id
      ensures r.None? ==> forall t :: t in Inflight(reqs) ==> reqs[t].transId != id
    {
      var q := heads[Slot(id, |heads|)];
      assert BucketOk(reqs, q, Slot(id, |heads|), |heads|);
      var k := 0;
      while k < |q|
        invariant k <= |q| && forall j {:trigger q[j]} :: 0 <= j < k ==> q[j] in q && reqs[q[j]].transId != id
      {
        assert q[k] in q;
        if reqs[q[k]].transId == id {
          return Some(q[k]);
        }
        k := k + 1;
      }
      r := None;
    }

    /** Server s, whose state or failures change, but not its requests. */
    method SetServer(s: nat, v: Server)
      requires RequestsOk() && RingOk(servers, ring, head) && s < |servers| && v.inflight == servers[s].inflight
      modifies this`servers
      ensures RequestsOk() && RingOk(servers, ring, head) && servers == old(servers)[s := v]
    {
      Restate(reqs, servers, s, v);
      RingSame(servers, ring, head, s, v);
      hide BucketsOk, WaitingOk, IdsOk, ServersOk, RingOk;
      servers := servers[s := v];
    }

    /** Request r, which changes otherwise than in its server or id. */
    method SetRequest(r: nat, q: Req)
      requires RequestsOk() && r in reqs && q.ns == reqs[r].ns && q.transId == reqs[r].transId
      modifies this`reqs
      ensures RequestsOk() && reqs == old(reqs)[r := q]
    {
      Mark(reqs, heads, waiting, servers, r, q);
      hide BucketsOk, WaitingOk, IdsOk, ServersOk;
      reqs := reqs[r := q];
    }

    /** nameserver_pick: a server that is up, if there is one, the next one in turn. A full round without
        finding one does not happen: the count of servers that are up is exact. */
    method NameserverPick() returns (s: Option<nat>)
      requires RingOk(servers, ring, head) && good == |Ups(servers)|
      modifies this`head
      ensures RingOk(servers, ring, head)
      ensures s.None? <==> servers == []
      ensures s.Some? ==> s.value < |servers| && (good > 0 ==> servers[s.value].up)
      ensures s.Some? && good > 0 ==> exists k :: Picked(servers, ring, old(head), k, s.value, head)
      ensures s.Some? && good == 0 ==> s.value == InTurn(ring, old(head), 1) && head == (old(head) + 1) % |ring|
    {
      if |ring| == 0 {
        return None;
      }
      hide Around, Next, InTurn, Picked, Ups, DownBefore;
      DownNone(servers, ring, head);
      var started := head;
      FirstTurns(ring, started);
      if good == 0 {
        head := Next(head, |ring|);
        return Some(ring[head]);
      }
      var k := 0;
      while true
        invariant started < |ring| && head < |ring| && k < |ring| && head == Around(started, k, |ring|)
        invariant DownBefore(servers, ring, started, k)
        decreases |ring| - k
      {
        var picked := ring[head];
        NextTurn(ring, started, k);
        if servers[picked].up {
          PickedNow(servers, ring, started, k);
          head := Next(head, |ring|);
          return Some(picked);
        }
        DownMore(servers, ring, started, k);
        head := Next(head, |ring|);
        k := k + 1;
        if head == started {
          AllDown(servers, ring, started, k);
          assert false;
        }
      }
    }

    /** request_swap_ns */
    method SwapNs(r: nat, s: Option<nat>)
      requires Valid() && r in Inflight(reqs) && (s.Some? ==> s.value < |servers|)
      modifies this`reqs, this`servers
      ensures Valid() && SameRequests(old(reqs), reqs) && SameStates(old(servers), servers)
      ensures r in reqs && reqs == old(reqs)[r := old(reqs)[r].(ns := if s.Some? then s else old(reqs)[r].ns)]
    {
      hide Consistent, RingOk, Ups, SameStates, SameRequests, Inflight, Recounted;
      Known(reqs, heads, waiting, servers, inflightCount, waitingCount, nextReq, r);
      if s.Some? && reqs[r].ns != s {
        var t := s.value;
        HeadsExist(reqs, heads, waiting, servers, inflightCount, waitingCount, nextReq, r);
        var from := reqs[r].ns.value;
        assert servers[from].inflight > 0;
        var newReqs := reqs[r := reqs[r].(ns := s)];
        var newServers := Recounted(servers, from, t);
        Swapped(reqs, heads, waiting, servers, r, t, inflightCount, waitingCount, nextReq, ring, head, newReqs, newServers);
        reqs, servers := newReqs, newServers;
      } else {
        SameAlways(reqs);
        StatesAlways(servers);
        assert reqs == reqs[r := reqs[r].(ns := if s.Some? then s else reqs[r].ns)];
      }
    }

    /** nameserver_failed: requests not sent yet move from the failed server to others that are up. */
    method NameserverFailed(s: nat)
      requires Valid() && s < |servers|
      modifies this`reqs, this`servers, this`head, this`good
      ensures Valid() && Reassigned(old(reqs), reqs, s) && Failed(old(servers), servers, s) && !servers[s].up
      ensures forall t {:trigger servers[t]} :: 0 <= t < |servers| && t != s ==> servers[t].up == old(servers)[t].up
      ensures !old(servers)[s].up ==> reqs == old(reqs) && servers == old(servers)
      ensures old(servers)[s].up && good > 0 ==>
                forall r {:trigger r in reqs} :: r in reqs && reqs[r].ns == Some(s) ==> reqs[r].txCount > 0
    {
      hide BucketsOk, WaitingOk, IdsOk, ServersOk, RingOk;
      ReassignedAlways(reqs, s);
      if !servers[s].up {
        return;
      }
      var v := servers[s].(up := false, failedTimes := 1);
      UpsUpdate(servers, s, v);
      SetServer(s, v);
      good := good - 1;
      assert good >= 0;
      if good == 0 {
        return;
      }
      ghost var reqs0, servers0 := reqs, servers;
      StatesAlways(servers);
      var i := 0;
      while i < |heads|
        invariant |servers| == |servers0|
        invariant i <= |heads| && Valid() && Reassigned(reqs0, reqs, s) && SameStates(servers0, servers)
        invariant Moved(reqs, heads, s, i) && good > 0 && !servers[s].up
      {
        MoveBucket(s, i, reqs0, servers0);
        i := i + 1;
      }
      AllMoved(reqs, heads, s);
    }

    /** Request r moves if it waits to be sent to server s, which is down. */
    method MoveOne(s: nat, r: nat)
      requires Valid() && s < |servers| && !servers[s].up && good > 0 && r in Inflight(reqs)
      modifies this`reqs, this`servers, this`head
      ensures Valid() && Reassigned(old(reqs), reqs, s) && SameStates(old(servers), servers)
      ensures r in reqs && reqs == old(reqs)[r := reqs[r]] && !Unsent(reqs[r], s)
    {
      hide BucketsOk, WaitingOk, IdsOk, ServersOk, RingOk;
      ReassignedAlways(reqs, s);
      StatesAlways(servers);
      if reqs[r].txCount == 0 && reqs[r].ns == Some(s) {
        var t := NameserverPick();
        ReassignedOne(reqs, r, t, s);
        SwapNs(r, t);
      } else {
        assert reqs == reqs[r := reqs[r]];
      }
    }

    /** The loop of nameserver_failed over the requests of one list. */
    method MoveBucket(s: nat, i: nat, ghost reqs0: map<nat, Req>, ghost servers0: seq<Server>)
      requires Valid() && s < |servers| && !servers[s].up && good > 0 && i < |heads|
      requires Reassigned(reqs0, reqs, s) && SameStates(servers0, servers) && Moved(reqs, heads, s, i)
      modifies this`reqs, this`servers, this`head
      ensures Valid() && Reassigned(reqs0, reqs, s) && SameStates(servers0, servers) && !servers[s].up
      ensures Moved(reqs, heads, s, i + 1)
    {
      var q := heads[i];
      BucketInflight(reqs, heads, i);
      hide BucketsOk, WaitingOk, IdsOk, ServersOk, RingOk, Reassigned, SameStates, Moved, Unsent, Inflight;
      ghost var reqs1 := reqs;
      var j := 0;
      BucketStart(reqs, q, s);
      while j < |q|
        invariant j <= |q| && Valid() && Reassigned(reqs0, reqs, s) && SameStates(servers0, servers)
        invariant s < |servers| && !servers[s].up && InBucket(reqs, q)
        invariant Moved(reqs, heads, s, i) && MovedIn(reqs, q, s, j)
      {
        ghost var reqs2, servers2 := reqs, servers;
        BucketElement(reqs, q, j);
        MoveOne(s, q[j]);
        BucketNext(reqs0, reqs2, reqs, heads, s, i, j);
        StatesTrans(servers0, servers2, servers, s);
        j := j + 1;
      }
      MovedNext(reqs, heads, s, i);
    }

    /** Counts request r as sent, or marks it to be sent. */
    method MarkSent(r: nat, sent: bool)
      requires Valid() && r in Inflight(reqs)
      modifies this`reqs
      ensures Valid() && r in Inflight(reqs) && r in old(reqs) && reqs == old(reqs)[r := Counted(old(reqs)[r], sent)]
    {
      InReqs(reqs, r);
      var q := Counted(reqs[r], sent);
      MarkSame(reqs, r, q);
      hide Consistent, RingOk, Inflight, Counted;
      SetRequest(r, q);
    }

    /** evdns_request_transmit_to: what the attempt came to. */
    method TransmitTo(r: nat, s: nat) returns (res: nat)
      requires Valid() && r in Inflight(reqs) && s < |servers|
      modifies this`reqs, this`servers, this`head, this`good, this`attempts
      ensures Valid() && res == send(old(attempts)) && attempts == old(attempts) + 1 && |servers| == |old(servers)|
      ensures Reassigned(old(reqs), reqs, s) && AfterSending(old(servers), servers)
      ensures res != 2 || !old(servers)[s].up ==> reqs == old(reqs) && servers == old(servers)
      ensures res == 2 ==> !servers[s].up
    {
      ReassignedAlways(reqs, s);
      SendingAlways(servers);
      hide BucketsOk, WaitingOk, IdsOk, ServersOk, RingOk, Reassigned, AfterSending;
      res := send(attempts);
      attempts := attempts + 1;
      if res == 2 {
        ghost var servers0 := servers;
        NameserverFailed(s);
        FailedSending(servers0, servers, s);
      }
    }

    /** evdns_request_transmit: 0 if the request went out. It is attempted unless its server is choked, and
        counts as sent unless it is to be tried later. */
    method Transmit(r: nat) returns (res: nat)
      requires Valid() && r in Inflight(reqs)
      modifies this`reqs, this`servers, this`head, this`good, this`attempts
      ensures Valid() && r in Inflight(reqs) && Transmitted(old(reqs), old(servers), reqs, servers, r)
      ensures Attempted(old(reqs), old(servers), reqs, servers, r, attempts - old(attempts), send(old(attempts)), res)
    {
      hide Consistent, RingOk, Inflight, AfterSending, Reassigned, Marked, SameRequests, Transmitted, Moves, Attempted, Counted;
      Known(reqs, heads, waiting, servers, inflightCount, waitingCount, nextReq, r);
      SendingAlways(servers);
      ghost var reqs0, servers0 := reqs, servers;
      assert reqs[r].transId != NO_ID;
      var s := reqs[r].ns.value;
      MarkSent(r, false);
      ghost var reqs1 := reqs;
      if servers[s].choked {
        NotSent(reqs0, servers0, reqs, servers, r, 0, send(attempts));
        return 1;
      }
      res := TransmitTo(r, s);
      ghost var reqs2 := reqs;
      if res == 1 {
        ChokeUp(servers0, s);
        Choke(s);
        NotSent(reqs0, servers0, reqs, servers, r, 1, 1);
        return;
      }
      StillThere(reqs1, reqs2, s, r);
      MarkSent(r, true);
      SentNow(reqs0, servers0, reqs1, reqs2, reqs, servers, r, res);
      res := if res == 2 then 1 else 0;
    }

    /** Server s cannot take more for now. */
    method Choke(s: nat)
      requires Valid() && s < |servers|
      modifies this`servers
      ensures Valid() && servers == old(servers)[s := old(servers)[s].(choked := true)]
    {
      var v := servers[s].(choked := true);
      UpsUpdate(servers, s, v);
      hide Consistent, RingOk;
      SetServer(s, v);
    }

    /** evdns_transmit: every request marked for it is sent, unless its server cannot take more. */
    method TransmitAll()
      requires Valid()
      modifies this`reqs, this`servers, this`head, this`good, this`attempts
      ensures Valid() && SameRequests(old(reqs), reqs) && NoneUp(old(servers), servers)
      ensures forall r {:trigger r in reqs} :: r in reqs && reqs[r].ns.Some? && reqs[r].transmitMe ==> Blocked(servers, reqs[r])
    {
      SameAlways(reqs);
      UpAlways(servers);
      hide Consistent, RingOk, SameRequests, NoneUp, Tried;
      ghost var reqs0, servers0 := reqs, servers;
      NothingTried(reqs, servers, heads);
      var i := 0;
      while i < |heads|
        invariant i <= |heads| && Valid() && SameRequests(reqs0, reqs) && NoneUp(servers0, servers)
        invariant Tried(reqs, servers, heads, i)
      {
        TransmitBucket(i, reqs0, servers0);
        i := i + 1;
      }
      AllTried(reqs, heads, waiting, servers, inflightCount, waitingCount, nextReq);
    }

    /** The loop of evdns_transmit over one list. */
    method TransmitBucket(i: nat, ghost reqs0: map<nat, Req>, ghost servers0: seq<Server>)
      requires Valid() && i < |heads| && SameRequests(reqs0, reqs) && NoneUp(servers0, servers)
      requires Tried(reqs, servers, heads, i)
      modifies this`reqs, this`servers, this`head, this`good, this`attempts
      ensures Valid() && SameRequests(reqs0, reqs) && NoneUp(servers0, servers)
      ensures Tried(reqs, servers, heads, i + 1)
    {
      var q := heads[i];
      BucketInflight(reqs, heads, i);
      hide Consistent, RingOk, SameRequests, NoneUp, Inflight, Tried, TriedIn, Transmitted, Attempted, InBucket;
      NothingTriedIn(reqs, servers, q);
      var j := 0;
      while j < |q|
        invariant j <= |q| && Valid() && SameRequests(reqs0, reqs) && NoneUp(servers0, servers) && InBucket(reqs, q)
        invariant Tried(reqs, servers, heads, i) && TriedIn(reqs, servers, q, j)
      {
        ghost var reqs2, servers2 := reqs, servers;
        BucketElement(reqs, q, j);
        InReqs(reqs, q[j]);
        if reqs[q[j]].transmitMe {
          var _ := Transmit(q[j]);
          AfterTransmitting(reqs2, servers2, reqs, servers, q[j]);
          MarkedAlready(reqs2, q[j]);
          BucketSame(reqs0, reqs2, reqs, q);
          UpTrans(servers0, servers2, servers);
          TriedMore(reqs2, servers2, reqs, servers, heads, i, q[j]);
          TriedInMore(reqs2, servers2, reqs, servers, q, j);
        } else {
          TriedInNext(reqs, servers, q, j);
        }
        j := j + 1;
      }
      TriedNext(reqs, servers, heads, i);
    }

    /** transaction_id_pick: any id that no request in flight has; there is one, for ids are more than
        requests in flight. */
    method TransactionIdPick() returns (id: nat)
      requires Valid() && inflightCount < NO_ID
      ensures id < NO_ID && forall t {:trigger t in reqs} :: t in reqs && reqs[t].ns.Some? ==> reqs[t].transId != id
    {
      FreeId(reqs);
      id :| 0 <= id < NO_ID && id !in Ids(reqs);
    }

    /** Request r goes into flight to server s; it may have waited before. */
    method PutInflight(r: nat, q: Req)
      requires Valid() && q.ns.Some? && q.ns.value < |servers| && q.transId < NO_ID && (r in reqs ==> reqs[r].ns.None?) && r < nextReq
      requires forall t {:trigger t in reqs} :: t in reqs && reqs[t].ns.Some? ==> reqs[t].transId != q.transId
      modifies this`reqs, this`heads, this`waiting, this`servers, this`inflightCount, this`waitingCount
      ensures Valid() && reqs == old(reqs)[r := q] && waiting == Drop(old(waiting), r) && SameStates(old(servers), servers)
      ensures inflightCount == old(inflightCount) + 1 && |heads| > 0 && r in heads[q.transId % |heads|]
    {
      hide Consistent, RingOk, Drop, Ups, SameStates, InsertInto, RemoveFrom, Recount, BucketsOk;
      HeadsExist(reqs, heads, waiting, servers, inflightCount, waitingCount, nextReq, r);
      var newHeads, newServers := InsertInto(heads, q.transId, r), Recount(servers, q.ns.value, 1);
      var newReqs, newWaiting := reqs[r := q], Drop(waiting, r);
      Launched(reqs, heads, waiting, servers, r, q, inflightCount, waitingCount, nextReq, ring, head,
               newReqs, newHeads, newWaiting, newServers);
      reqs, heads, waiting, servers := newReqs, newHeads, newWaiting, newServers;
      inflightCount := inflightCount + 1;
      waitingCount := |waiting|;
      assert r in reqs && reqs[r] == q;
      Buckets(reqs, heads, waiting, servers, inflightCount, waitingCount, nextReq);
      InItsBucket(reqs, heads);
    }

    /** evdns_requests_pump_waiting_queue: the first waiting requests go into flight. Afterwards none waits
        while there is room in flight and a server to go to. */
    method Pump()
      requires Valid()
      modifies this
      ensures Valid() && Kept(old(reqs), reqs, {}) && reqs.Keys == old(reqs).Keys && NoneUp(old(servers), servers)
      ensures inflightCount >= maxInflight || waitingCount == 0 || servers == []
      ensures maxInflight == old(maxInflight) && nextReq == old(nextReq)
      ensures Tended(old(reqs), old(servers), reqs, servers)
    {
      hide BucketsOk, WaitingOk, IdsOk, ServersOk, RingOk, Kept, NoneUp, Drop, Tended;
      TendedAlways(reqs, servers);
      KeptAlways(reqs);
      UpAlways(servers);
      ghost var reqs0, servers0 := reqs, servers;
      while inflightCount < maxInflight && waitingCount > 0
        invariant Valid() && Kept(reqs0, reqs, {}) && reqs.Keys == reqs0.Keys && NoneUp(servers0, servers)
        invariant Tended(reqs0, servers0, reqs, servers)
        invariant maxInflight == old(maxInflight) && nextReq == old(nextReq)
        decreases |waiting|
      {
        ghost var reqs1, servers1 := reqs, servers;
        var ok := PumpOne(reqs0, servers0);
        TendedTrans(reqs0, servers0, reqs1, servers1, reqs, servers);
        if !ok {
          return;
        }
      }
    }

    /** One round of the pump; not ok when there is no server. */
    method PumpOne(ghost reqs0: map<nat, Req>, ghost servers0: seq<Server>) returns (ok: bool)
      requires Valid() && inflightCount < maxInflight && waitingCount > 0
      requires Kept(reqs0, reqs, {}) && reqs.Keys == reqs0.Keys && NoneUp(servers0, servers)
      modifies this
      ensures Valid() && Kept(reqs0, reqs, {}) && reqs.Keys == reqs0.Keys && NoneUp(servers0, servers)
      ensures maxInflight == old(maxInflight) && nextReq == old(nextReq)
      ensures !ok ==> servers == []
      ensures ok ==> waiting == old(waiting)[1..]
      ensures Tended(old(reqs), old(servers), reqs, servers)
    {
      hide Consistent, RingOk, Kept, NoneUp, SameStates, SameRequests, Marked, Ups, Drop, Tended, MarkedBlocked;
      TendedAlways(reqs, servers);
      KeptAlways(reqs);
      FirstWaits(reqs, heads, waiting, servers, inflightCount, waitingCount, nextReq);
      var r := waiting[0];
      var s := NameserverPick();
      if s.None? {
        return false;
      }
      var id := TransactionIdPick();
      ghost var reqs1, servers1 := reqs, servers;
      PutInflight(r, reqs[r].(ns := s, transId := id));
      InFlight(reqs, r);
      ghost var reqs2, servers2 := reqs, servers;
      SendNew(r);
      KeptPump(reqs0, reqs1, r, reqs2, reqs);
      KeptPump(reqs1, reqs1, r, reqs2, reqs);
      TendedKept(reqs1, servers1, reqs, servers);
      UpPump(servers0, servers1, servers2, servers, servers);
      ok := true;
    }

    /** A request that has just gone into flight is sent, and with it what else is to be sent. */
    method SendNew(r: nat)
      requires Valid() && r in Inflight(reqs)
      modifies this`reqs, this`servers, this`head, this`good, this`attempts
      ensures Valid() && SameRequests(Marked(old(reqs), r), reqs) && NoneUp(old(servers), servers)
      ensures MarkedBlocked(reqs, servers)
    {
      hide Consistent, RingOk, SameRequests, NoneUp, Inflight, Transmitted, Attempted, Marked, Blocked, MarkedBlocked;
      ghost var reqs0, servers0 := reqs, servers;
      var _ := Transmit(r);
      ghost var reqs1, servers1 := reqs, servers;
      AfterTransmitting(reqs0, servers0, reqs, servers, r);
      TransmitAll();
      AllBlocked(reqs, servers);
      SameTrans(Marked(reqs0, r), reqs1, reqs, r);
      UpTrans(servers0, servers1, servers);
    }

    /** Takes request r, in flight or waiting, out of its list and the counts. */
    method TakeOut(r: nat)
      requires Valid() && r in reqs
      modifies this`reqs, this`heads, this`waiting, this`servers, this`inflightCount, this`waitingCount
      ensures Valid() && reqs == old(reqs) - {r} && SameStates(old(servers), servers)
    {
      StatesAlways(servers);
      hide BucketsOk, WaitingOk, IdsOk, ServersOk, RingOk, Inflight, Lengths, Ups, SameStates;
      if reqs[r].ns.Some? {
        TakeInflight(r);
      } else {
        TakeWaiting(r);
      }
    }

    method TakeInflight(r: nat)
      requires Valid() && r in reqs && reqs[r].ns.Some?
      modifies this`reqs, this`heads, this`servers, this`inflightCount
      ensures Valid() && reqs == old(reqs) - {r} && SameStates(old(servers), servers)
    {
      hide Consistent, RingOk, Drop, Ups, SameStates, InsertInto, RemoveFrom, Recount;
      HeadsExist(reqs, heads, waiting, servers, inflightCount, waitingCount, nextReq, r);
      var s := reqs[r].ns.value;
      assert servers[s].inflight > 0;
      var newReqs, newHeads, newServers := reqs - {r}, RemoveFrom(heads, reqs[r].transId, r), Recount(servers, s, -1);
      Landed(reqs, heads, waiting, servers, r, inflightCount, waitingCount, nextReq, ring, head, newReqs, newHeads, newServers);
      reqs, heads, servers := newReqs, newHeads, newServers;
      inflightCount := inflightCount - 1;
    }

    method TakeWaiting(r: nat)
      requires Valid() && r in reqs && reqs[r].ns.None?
      modifies this`reqs, this`waiting, this`waitingCount
      ensures Valid() && reqs == old(reqs) - {r}
    {
      Unqueue(reqs, heads, waiting, servers, r);
      hide BucketsOk, WaitingOk, IdsOk, ServersOk, RingOk, Drop, Inflight, Lengths, Ups;
      reqs, waiting := reqs - {r}, Drop(waiting, r);
      waitingCount := waitingCount - 1;
    }

    /** request_finished: request r is gone, and others may go into flight. */
    method Finish(r: nat)
      requires Valid() && r in reqs
      modifies this
      ensures Valid() && Kept(old(reqs), reqs, {r}) && reqs.Keys == old(reqs).Keys - {r} && NoneUp(old(servers), servers)
      ensures inflightCount >= maxInflight || waitingCount == 0 || servers == []
      ensures nextReq == old(nextReq)
      ensures Tended(old(reqs), old(servers), reqs, servers)
    {
      hide BucketsOk, WaitingOk, IdsOk, ServersOk, RingOk, SameStates, Kept, NoneUp, Tended;
      ghost var reqs0, servers0 := reqs, servers;
      UpAlways(servers);
      TakeOut(r);
      ghost var reqs1, servers1 := reqs, servers;
      TendedWithout(reqs0, servers0, r, servers1);
      Pump();
      TendedTrans(reqs0, servers0, reqs1, servers1, reqs, servers);
      KeptFinish(reqs0, r, reqs);
      UpPump(servers0, servers0, servers1, servers, servers);
    }

    /** The name of a request not made yet. */
    method NewRequest() returns (r: nat)
      requires Valid()
      modifies this`nextReq
      ensures Valid() && r == old(nextReq) && nextReq == r + 1 && r !in reqs
    {
      hide BucketsOk, WaitingOk, IdsOk, ServersOk, RingOk, Inflight, Ups;
      r := nextReq;
      nextReq := nextReq + 1;
    }

    /** request_submit, for a request that has a server. */
    method Submit(r: nat, q: Req)
      requires Valid() && r !in reqs && r < nextReq && q.ns.Some? && q == Req(q.ns, q.transId, 0, 0, false, 0, false)
      requires q.ns.value < |servers| && q.transId < NO_ID
      requires forall t {:trigger t in reqs} :: t in reqs && reqs[t].ns.Some? ==> reqs[t].transId != q.transId
      modifies this`reqs, this`heads, this`waiting, this`servers, this`inflightCount, this`waitingCount
      modifies this`head, this`good, this`attempts
      ensures Valid() && nextReq == old(nextReq) && Kept(old(reqs), reqs, {}) && reqs.Keys == old(reqs).Keys + {r}
      ensures r in reqs && reqs[r].ns.Some? && Fresh(reqs[r]) && NoneUp(old(servers), servers)
      ensures FirstSent(q.ns.value, old(servers), reqs[r], servers, attempts - old(attempts), send(old(attempts)))
      ensures Tended(old(reqs), old(servers), reqs, servers)
    {
      hide Consistent, RingOk, SameStates, Kept, NoneUp, Inflight, Transmitted, Attempted, Fresh, Ups, FirstSent, Drop, Tended;
      ghost var reqs0, servers0 := reqs, servers;
      PutInflight(r, q);
      ghost var reqs1, servers1 := reqs, servers;
      InFlight(reqs, r);
      var res := Transmit(r);
      TendedFirst(reqs0, servers0, r, q, reqs1, servers1, reqs, servers);
      KeptNew(reqs0, servers0, r, q, reqs1, servers1, reqs, servers);
      FirstAttempted(servers0, q.ns.value, reqs1, servers1, reqs, servers, r, attempts - old(attempts), send(old(attempts)), res);
    }

    /** A new request of a user, request_new and request_submit: straight into flight when there is room
        and a server, or waiting. */
    method Resolve() returns (r: nat)
      requires Valid()
      modifies this
      ensures Valid() && r == old(nextReq) && r !in old(reqs) && r in reqs && reqs.Keys == old(reqs).Keys + {r}
      ensures Kept(old(reqs), reqs, {}) && NoneUp(old(servers), servers) && nextReq == r + 1 && Fresh(reqs[r])
      ensures reqs[r].ns.Some? <==> old(inflightCount) < maxInflight && servers != []
      ensures reqs[r].ns.None? ==> waiting == old(waiting) + [r]
      ensures Tended(old(reqs), old(servers), reqs, servers)
    {
      hide Consistent, RingOk, Kept, NoneUp, Inflight, Fresh, Ups, FirstSent, Tended;
      ghost var reqs0, servers0 := reqs, servers;
      UpAlways(servers);
      r := NewRequest();
      var s: Option<nat> := None;
      var id := NO_ID;
      if inflightCount < maxInflight {
        id := TransactionIdPick();
        s := NameserverPick();
      }
      if s.Some? {
        Submit(r, Req(s, id, 0, 0, false, 0, false));
        Length(servers0, servers);
      } else {
        Enqueue(r, id);
        KeptQueued(reqs0, r, reqs[r]);
        TendedQueued(reqs0, servers0, r, reqs[r]);
      }
    }

    /** A new request at the end of the waiting queue. */
    method Enqueue(r: nat, id: nat)
      requires Valid() && r !in reqs && r < nextReq
      modifies this`reqs, this`waiting, this`waitingCount
      ensures Valid() && reqs == old(reqs)[r := Req(None, id, 0, 0, false, 0, false)] && waiting == old(waiting) + [r]
    {
      var q := Req(None, id, 0, 0, false, 0, false);
      Queue(reqs, heads, waiting, servers, r, q);
      hide BucketsOk, WaitingOk, IdsOk, ServersOk, RingOk;
      reqs, waiting, waitingCount := reqs[r := q], waiting + [r], waitingCount + 1;
    }

    /** nameserver_send_probe: a request to server s goes into flight no matter what, and the server remembers
        it. A server that is down keeps it. */
    method SendProbe(s: nat) returns (r: nat)
      requires Valid() && s < |servers| && inflightCount < NO_ID
      modifies this
      ensures Valid() && r == old(nextReq) && nextReq == r + 1 && r in reqs && reqs.Keys == old(reqs).Keys + {r} && reqs[r].ns.Some?
      ensures Kept(old(reqs), reqs, {}) && Fresh(reqs[r])
      ensures var asked := old(servers)[s := old(servers)[s].(probe := Some(r))];
              NoneUp(asked, servers) && FirstSent(s, asked, reqs[r], servers, attempts - old(attempts), send(old(attempts)))
      ensures Tended(old(reqs), old(servers), reqs, servers)
    {
      hide Consistent, RingOk, Kept, NoneUp, Inflight, Fresh, Ups, FirstSent, Tended, SomeChoked;
      ChokedUpdate(servers, s, servers[s].(probe := Some(nextReq)));
      ghost var reqs0, servers0 := reqs, servers;
      r := NewRequest();
      if inflightCount < maxInflight {
        var _ := NameserverPick();
      }
      var id := TransactionIdPick();
      SetProbe(s, Some(r));
      ghost var servers1 := servers;
      TendedServers(reqs0, servers0, servers1);
      Submit(r, Req(Some(s), id, 0, 0, false, 0, false));
      TendedTrans(reqs0, servers0, reqs0, servers1, reqs, servers);
    }

    /** What server s remembers as its probe; nameserver_probe_callback drops one that has failed. */
    method SetProbe(s: nat, probe: Option<nat>)
      requires Valid() && s < |servers|
      modifies this`servers
      ensures Valid() && servers == old(servers)[s := old(servers)[s].(probe := probe)]
    {
      var v := servers[s].(probe := probe);
      UpsUpdate(servers, s, v);
      hide Consistent, RingOk;
      SetServer(s, v);
    }

    /** nameserver_ready_callback, when server s can take more: what is to be sent is sent. */
    method Ready(s: nat)
      requires Valid() && s < |servers|
      modifies this`reqs, this`servers, this`head, this`good, this`attempts
      ensures Valid() && Kept(old(reqs), reqs, {}) && reqs.Keys == old(reqs).Keys
      ensures NoneUp(old(servers)[s := old(servers)[s].(choked := false)], servers)
      ensures forall r {:trigger r in reqs} :: r in reqs && reqs[r].ns.Some? && reqs[r].transmitMe ==> Blocked(servers, reqs[r])
      ensures Tended(old(reqs), old(servers), reqs, servers)
    {
      hide Consistent, RingOk, SameRequests, NoneUp, Kept, Blocked, Tended, MarkedBlocked;
      ghost var reqs0, servers0 := reqs, servers;
      var v := servers[s].(choked := false);
      UpsUpdate(servers, s, v);
      SetServer(s, v);
      TransmitAll();
      KeptRequests(reqs0, reqs, {});
      AllBlocked(reqs, servers);
      TendedKept(reqs0, servers0, reqs, servers);
    }

    /** evdns_cancel_request; a request that is gone already is left alone. */
    method Cancel(r: nat)
      requires Valid()
      modifies this
      ensures Valid() && Kept(old(reqs), reqs, {r}) && reqs.Keys == old(reqs).Keys - {r} && NoneUp(old(servers), servers)
      ensures nextReq == old(nextReq)
      ensures Tended(old(reqs), old(servers), reqs, servers)
    {
      KeptAlways(reqs);
      UpAlways(servers);
      TendedAlways(reqs, servers);
      if r in reqs {
        Finish(r);
      }
    }

    /** nameserver_up: a server that comes up again drops its probe, and no other comes up. */
    method NameserverUp(s: nat)
      requires Valid() && s < |servers|
      modifies this
      ensures Valid() && NoneUp(Raised(old(servers), s), servers) && s < |servers| && servers[s].up && nextReq == old(nextReq)
      ensures Kept(old(reqs), reqs, Dropped(old(servers), s)) && reqs.Keys == old(reqs).Keys - Dropped(old(servers), s)
      ensures forall r {:trigger r in reqs} :: r in old(reqs) ==>
                (r !in reqs <==> !old(servers)[s].up && old(servers)[s].probe == Some(r))
      ensures Tended(old(reqs), old(servers), reqs, servers)
    {
      hide BucketsOk, WaitingOk, IdsOk, ServersOk, RingOk, SameStates, Kept, NoneUp, Tended, SomeChoked;
      TendedAlways(reqs, servers);
      ghost var servers0 := servers;
      KeptAlways(reqs);
      UpAlways(servers);
      if servers[s].up {
        AlreadyUp(servers, s);
        return;
      }
      if servers[s].probe.Some? {
        Cancel(servers[s].probe.value);
      }
      StillDown(servers0, servers, s);
      var v := servers[s].(probe := None, up := true, failedTimes := 0, timedout := 0);
      UpsUpdate(servers, s, v);
      ChokedUpdate(servers, s, v);
      ghost var reqs1, servers1 := reqs, servers;
      SetServer(s, v);
      TendedServers(reqs1, servers1, servers);
      TendedTrans(old(reqs), old(servers), reqs1, servers1, reqs, servers);
      good := good + 1;
    }

    /** request_reissue: 0 if the request now goes to another server, 1 if it does not. When its server
        has been marked as failed and another one is up, it does. */
    method Reissue(r: nat) returns (res: nat)
      requires Valid() && r in Inflight(reqs)
      modifies this`reqs, this`servers, this`head
      ensures Valid() && SameStates(old(servers), servers)
      ensures r in old(reqs) && r in reqs && r in Inflight(reqs) && (res == 0 || res == 1)
      ensures res == 1 ==> reqs == old(reqs)
      ensures res == 0 ==> reqs == old(reqs)[r := reqs[r]] && Reissued(old(reqs)[r], reqs[r]) && reqs[r].ns != old(reqs)[r].ns
      ensures res == 0 ==> reqs[r].txCount == 0 && reqs[r].transmitMe && reqs[r].reissues == old(reqs)[r].reissues + 1
      ensures var last := old(reqs)[r].ns;
              good > 0 && last.Some? && last.value < |servers| && !servers[last.value].up ==> res == 0
    {
      hide Consistent, RingOk;
      var lastNs := reqs[r].ns;
      var s := NameserverPick();
      SwapNs(r, s);
      if reqs[r].ns == lastNs {
        assert reqs == old(reqs);
        return 1;
      }
      var q := reqs[r].(reissues := reqs[r].reissues + 1, txCount := 0, transmitMe := true);
      MarkSame(reqs, r, q);
      SetRequest(r, q);
      res := 0;
    }

    /** One more timeout of the server of request r; too many, and the server has failed. */
    method CountTimeout(r: nat) returns (ghost at: nat)
      requires Valid() && r in Inflight(reqs)
      modifies this`reqs, this`servers, this`head, this`good
      ensures Valid() && Reassigned(old(reqs), reqs, at) && r in old(reqs) && old(reqs)[r].ns == Some(at)
      ensures TimeoutCounted(old(servers), servers, at, maxTimeouts)
    {
      hide Consistent, RingOk, Reassigned, Inflight, TimeoutCounted, Failed;
      Known(reqs, heads, waiting, servers, inflightCount, waitingCount, nextReq, r);
      var s := reqs[r].ns.value;
      ReassignedAlways(reqs, s);
      at := s;
      ghost var servers0 := servers;
      var many := servers[s].timedout + 1 > maxTimeouts;
      var v := servers[s].(timedout := if many then 0 else servers[s].timedout + 1);
      UpsUpdate(servers, s, v);
      SetServer(s, v);
      if many {
        NameserverFailed(s);
        ManyTimeouts(servers0, v, servers, s, maxTimeouts);
      } else {
        FewTimeouts(servers0, v, s, maxTimeouts);
      }
    }

    /** evdns_request_timeout_callback: gives a request up after too many sends, or sends it once more, to
        server to; server at, that server unless it failed just now, has one more timeout. */
    method Timeout(r: nat) returns (ghost to: nat, ghost at: nat)
      requires Valid() && r in Inflight(reqs)
      modifies this
      ensures Valid() && Kept(old(reqs), reqs, {r}) && NoneUp(old(servers), servers) && nextReq == old(nextReq)
      ensures r in old(reqs) && old(reqs)[r].ns.Some? && old(reqs)[r].ns.value < |servers|
      ensures old(reqs)[r].txCount < maxRetransmits ==>
                && reqs.Keys == old(reqs).Keys && r in Inflight(reqs) && to < |servers| && (old(good) > 0 ==> old(servers)[to].up)
                && Retried(old(reqs), old(servers), reqs, servers, r, to, at, attempts - old(attempts), send(old(attempts)), maxTimeouts)
      ensures old(reqs)[r].txCount >= maxRetransmits ==>
                reqs.Keys == old(reqs).Keys - {r} && !servers[old(reqs)[r].ns.value].up
      ensures Tended(old(reqs), old(servers), reqs, servers)
    {
      hide Consistent, RingOk, Kept, NoneUp, SameStates, SameRequests, Inflight, Retried, Tended;
      Known(reqs, heads, waiting, servers, inflightCount, waitingCount, nextReq, r);
      to, at := 0, 0;
      if reqs[r].txCount >= maxRetransmits {
        GiveUp(r);
      } else {
        to, at := Retransmit(r);
      }
      ghost var servers' := servers;
      Length(old(servers), servers');
    }

    /** A request that was sent too often is gone, and its server has failed. */
    method GiveUp(r: nat)
      requires Valid() && r in Inflight(reqs)
      modifies this
      ensures Valid() && Kept(old(reqs), reqs, {r}) && NoneUp(old(servers), servers) && reqs.Keys == old(reqs).Keys - {r}
      ensures r in old(reqs) && old(reqs)[r].ns.Some? && old(reqs)[r].ns.value < |servers| && !servers[old(reqs)[r].ns.value].up
      ensures nextReq == old(nextReq)
      ensures Tended(old(reqs), old(servers), reqs, servers)
    {
      hide Consistent, RingOk, Kept, SameRequests, Inflight, NoneUp, Failed, Reassigned, Tended;
      Known(reqs, heads, waiting, servers, inflightCount, waitingCount, nextReq, r);
      ghost var reqs0, servers0 := reqs, servers;
      var s := reqs[r].ns.value;
      Finish(r);
      ghost var reqs1, servers1 := reqs, servers;
      Length(servers0, servers1);
      NameserverFailed(s);
      FailedSending(servers1, servers, s);
      StillChoked(servers1, servers);
      TendedReassigned(reqs1, servers1, reqs, servers, s);
      TendedTrans(reqs0, servers0, reqs1, servers1, reqs, servers);
      ReassignedSame(reqs1, reqs, s);
      KeptSame(reqs0, reqs1, reqs, {r});
      UpTrans(servers0, servers1, servers);
      Length(servers0, servers);
    }

    /** The timeout of request r is over, and it goes to the server picked now. */
    method Elsewhere(r: nat) returns (to: nat)
      requires Valid() && r in Inflight(reqs)
      modifies this`reqs, this`servers, this`head
      ensures Valid() && SameStates(old(servers), servers) && r in Inflight(reqs) && r in old(reqs)
      ensures reqs == old(reqs)[r := old(reqs)[r].(ns := Some(to), timer := false)]
      ensures to < |servers| && to < |old(servers)| && (old(good) > 0 ==> old(servers)[to].up)
    {
      hide Consistent, RingOk, SameRequests, Inflight, Ups;
      Known(reqs, heads, waiting, servers, inflightCount, waitingCount, nextReq, r);
      StopSame(reqs, r);
      SetRequest(r, reqs[r].(timer := false));
      ghost var reqs0, servers0 := reqs, servers;
      var s := NameserverPick();
      to := s.value;
      SwapNs(r, s);
      SameTrans0(reqs0, reqs, r);
      StatesLength(servers0, servers);
    }

    method Retransmit(r: nat) returns (ghost to: nat, ghost at: nat)
      requires Valid() && r in Inflight(reqs)
      modifies this
      ensures Valid() && Kept(old(reqs), reqs, {r}) && NoneUp(old(servers), servers) && r in Inflight(reqs) && reqs.Keys == old(reqs).Keys
      ensures to < |old(servers)| && (old(good) > 0 ==> old(servers)[to].up) && nextReq == old(nextReq)
      ensures Retried(old(reqs), old(servers), reqs, servers, r, to, at, attempts - old(attempts), send(old(attempts)), maxTimeouts)
      ensures Tended(old(reqs), old(servers), reqs, servers)
    {
      hide Consistent, RingOk, Kept, NoneUp, SameStates, SameRequests, Inflight, Retried, Transmitted, Attempted, Reassigned,
        TimeoutCounted, Marked, Ups, Moves, Counted, AfterSending, Tended;
      ghost var reqs0, servers0 := reqs, servers;
      to := Elsewhere(r);
      ghost var reqs1, servers1 := reqs, servers;
      var res := Transmit(r);
      ghost var reqs2, servers2 := reqs, servers;
      at := CountTimeout(r);
      RetriedNow(reqs0, servers0, reqs1, servers1, reqs2, servers2, reqs, servers, r, to, at, attempts - old(attempts),
                 send(old(attempts)), res, maxTimeouts);
    }

    /** What a reply says: the answer or a definite refusal, a refusal that marks the server as bad, or a
        failure of the server that counts as a timeout. No other request is lost but the probe of a server that
        has come up, and a request goes on with another server at most as often as allowed. */
    method ReplyHandle(r: nat, a: Answer)
      requires Valid() && r in Inflight(reqs)
      modifies this
      ensures Valid() && nextReq == old(nextReq)
      ensures r in old(reqs) && old(reqs)[r].ns.Some? && old(reqs)[r].ns.value < |old(servers)| && |servers| == |old(servers)|
      ensures var q := old(reqs)[r]; var s := q.ns.value;
              && (a == Definite ==>
                    && var gone := {r} + Dropped(Probed(old(servers), s, r), s);
                    && Kept(old(reqs), reqs, gone) && reqs.Keys == old(reqs).Keys - gone
                    && NoneUp(Raised(Probed(old(servers), s, r), s), servers) && r !in reqs)
              && (a != Definite ==> Kept(old(reqs), reqs, {r}) && NoneUp(old(servers), servers))
              && (a == BadServer && q.reissues >= maxReissues ==> reqs.Keys == old(reqs).Keys - {r})
              && (a == BadServer && q.reissues < maxReissues ==> !servers[s].up)
              && (a == BadServer && r in reqs ==> r in Inflight(reqs) && Reissued(q, reqs[r]) && (q.txCount > 0 ==> reqs[r].ns != q.ns))
              && (a == BadServer && q.reissues < maxReissues && q.txCount > 0 && Others(old(servers), s) ==> r in reqs)
              && (a == ServerFailed && q.txCount < maxRetransmits ==>
                    r in Inflight(reqs) && r in reqs && Sent(q.(timer := false, transmitMe := true), reqs[r]))
              && (a == ServerFailed && q.txCount >= maxRetransmits ==> reqs.Keys == old(reqs).Keys - {r} && !servers[s].up)
              && (a != Definite ==> reqs.Keys == old(reqs).Keys || reqs.Keys == old(reqs).Keys - {r})
      ensures Tended(old(reqs), old(servers), reqs, servers)
    {
      hide Consistent, RingOk, Inflight, NoneUp, Kept, Retried, Reissued, Raised, Dropped, Probed, Others, Tended;
      Known(reqs, heads, waiting, servers, inflightCount, waitingCount, nextReq, r);
      ghost var reqs0, servers0 := reqs, servers;
      match a {
        case Definite =>
          Answered(r);
        case BadServer =>
          Refused(r);
          Length(servers0, servers);
        case ServerFailed =>
          ghost var to, at := Timeout(r);
          Length(servers0, servers);
          if reqs0[r].txCount < maxRetransmits {
            RetriedSent(reqs0, servers0, reqs, servers, r, to, at, attempts - old(attempts), send(old(attempts)), maxTimeouts);
          }
      }
    }

    /** The server of request r is up, and the request is done. */
    method Answered(r: nat)
      requires Valid() && r in Inflight(reqs)
      modifies this
      ensures Valid() && nextReq == old(nextReq) && |servers| == |old(servers)|
      ensures r in old(reqs) && old(reqs)[r].ns.Some? && old(reqs)[r].ns.value < |old(servers)|
      ensures var s := old(reqs)[r].ns.value; var gone := {r} + Dropped(Probed(old(servers), s, r), s);
              && Kept(old(reqs), reqs, gone) && reqs.Keys == old(reqs).Keys - gone
              && NoneUp(Raised(Probed(old(servers), s, r), s), servers)
      ensures Tended(old(reqs), old(servers), reqs, servers)
    {
      hide Consistent, RingOk, Inflight, NoneUp, Kept, Raised, Dropped, Tended, SomeChoked;
      Known(reqs, heads, waiting, servers, inflightCount, waitingCount, nextReq, r);
      ghost var reqs0 := reqs;
      var s := reqs[r].ns.value;
      ghost var servers0 := servers;
      ChokedUpdate(servers, s, servers[s].(probe := None));
      TendedAlways(reqs, servers);
      if servers[s].probe == Some(r) {
        SetProbe(s, None);
      }
      ghost var servers1 := servers;
      TendedServers(reqs0, servers0, servers1);
      NotDropped(servers1, s, r);
      NameserverUp(s);
      ghost var reqs2, servers2 := reqs, servers;
      TendedTrans(reqs0, servers0, reqs0, servers1, reqs2, servers2);
      Finish(r);
      TendedTrans(reqs0, servers0, reqs2, servers2, reqs, servers);
      KeptTrans(reqs0, reqs2, reqs, Dropped(servers1, s), {r});
      UpTrans(Raised(servers1, s), servers2, servers);
      Length(Raised(servers1, s), servers);
    }

    /** The server of request r is bad: the request goes to another one, if it may and there is one. */
    method Refused(r: nat)
      requires Valid() && r in Inflight(reqs)
      modifies this
      ensures Valid() && nextReq == old(nextReq) && Kept(old(reqs), reqs, {r}) && NoneUp(old(servers), servers)
      ensures r in old(reqs) && old(reqs)[r].ns.Some? && old(reqs)[r].ns.value < |old(servers)| && |servers| == |old(servers)|
      ensures reqs.Keys == if r in reqs then old(reqs).Keys else old(reqs).Keys - {r}
      ensures var q := old(reqs)[r];
              && (q.reissues >= maxReissues ==> r !in reqs)
              && (q.reissues < maxReissues ==> !servers[q.ns.value].up)
              && (r in reqs ==> r in Inflight(reqs) && Reissued(q, reqs[r]) && (q.txCount > 0 ==> reqs[r].ns != q.ns))
              && (q.reissues < maxReissues && q.txCount > 0 && Others(old(servers), q.ns.value) ==> r in reqs)
      ensures Tended(old(reqs), old(servers), reqs, servers)
    {
      hide Consistent, RingOk, Inflight, NoneUp, Kept, Reissued, Others, Tended;
      TendedAlways(reqs, servers);
      Known(reqs, heads, waiting, servers, inflightCount, waitingCount, nextReq, r);
      ghost var reqs0, servers0 := reqs, servers;
      var s := reqs[r].ns.value;
      KeptAlways(reqs);
      UpAlways(servers);
      if reqs[r].reissues < maxReissues {
        var res := FailAndReissue(r, s);
        if res == 0 {
          return;
        }
      }
      InReqs(reqs, r);
      ghost var reqs2, servers2 := reqs, servers;
      Finish(r);
      TendedTrans(reqs0, servers0, reqs2, servers2, reqs, servers);
      KeptTrans(reqs0, reqs2, reqs, {}, {r});
      assert {} + {r} == {r};
      UpTrans(servers0, servers2, servers);
      Length(servers0, servers);
      DownStill(servers2, servers, s);
    }

    /** Server s of request r has failed; 0 if the request now goes to another one. */
    method FailAndReissue(r: nat, s: nat) returns (res: nat)
      requires Valid() && r in Inflight(reqs) && s < |servers| && reqs[r].ns == Some(s)
      modifies this`reqs, this`servers, this`head, this`good
      ensures Valid() && NoneUp(old(servers), servers) && |servers| == |old(servers)| && !servers[s].up
      ensures r in old(reqs) && r in reqs && r in Inflight(reqs) && Kept(old(reqs), reqs, {r}) && reqs.Keys == old(reqs).Keys
      ensures res == 0 ==> Reissued(old(reqs)[r], reqs[r]) && (old(reqs)[r].txCount > 0 ==> reqs[r].ns != Some(s))
      ensures res != 0 ==> Kept(old(reqs), reqs, {})
      ensures old(reqs)[r].txCount > 0 && Others(old(servers), s) ==> res == 0
      ensures Tended(old(reqs), old(servers), reqs, servers)
    {
      hide Consistent, RingOk, Inflight, SameRequests, SameStates, NoneUp, Kept, Failed, Reassigned, Reissued;
      hide Unsent, Others, Tended, SomeChoked;
      ghost var reqs0, servers0 := reqs, servers;
      InReqs(reqs, r);
      NameserverFailed(s);
      ghost var reqs1, servers1 := reqs, servers;
      FailedOthers(servers0, servers1, s, good);
      FailedRequest(reqs0, reqs1, servers0, servers1, s, r);
      Length(servers0, servers1);
      StillChoked(servers0, servers1);
      TendedReassigned(reqs0, servers0, reqs1, servers1, s);
      hide Ups;
      res := Reissue(r);
      TendedReissued(reqs1, servers1, reqs, servers, r, res);
      TendedTrans(reqs0, servers0, reqs1, servers1, reqs, servers);
      ReissuedNow(reqs0, reqs1, reqs, servers0, servers1, servers, s, r, res);
    }

    /** evdns_base_set_max_requests_inflight: every request in flight moves to the list its id has among
        the new ones. */
    method SetMaxInflight(maxInflight0: int)
      requires Valid() && maxInflight0 <= INFLIGHT_LIMIT
      modifies this`heads, this`maxInflight
      ensures Valid() && maxInflight == (if maxInflight0 < 1 then 1 else maxInflight0)
      ensures |heads| == (maxInflight + 4) / 5 && |heads| > 0
      ensures forall r {:trigger r in reqs} :: r in reqs && reqs[r].ns.Some? ==> r in heads[reqs[r].transId % |heads|]
    {
      hide Consistent, RingOk, Rehashed, Below, Ups, BucketsOk;
      var m := if maxInflight0 < 1 then 1 else maxInflight0;
      var n := (m + 4) / 5;
      var lists: seq<seq<nat>> := seq(n, _ => []);
      HeadsExist(reqs, heads, waiting, servers, inflightCount, waitingCount, nextReq, 0);
      RehashStart(reqs, lists, |heads|);
      var i := 0;
      while i < |heads|
        invariant i <= |heads| && |lists| == n && Rehashed(reqs, lists, Below(reqs, |heads|, i)) && Valid()
        modifies {}
      {
        lists := MoveList(lists, i);
        i := i + 1;
      }
      RehashEnd(reqs, heads, lists, waiting, servers, inflightCount, waitingCount, nextReq);
      heads, maxInflight := lists, m;
      Buckets(reqs, heads, waiting, servers, inflightCount, waitingCount, nextReq);
      InItsBucket(reqs, heads);
    }

    /** The loop over the requests of one old list. */
    method MoveList(lists: seq<seq<nat>>, i: nat) returns (out: seq<seq<nat>>)
      requires Valid() && i < |heads| && |lists| > 0 && Rehashed(reqs, lists, Below(reqs, |heads|, i))
      ensures |out| == |lists| && Rehashed(reqs, out, Below(reqs, |heads|, i + 1))
    {
      hide Consistent, RingOk, Rehashed, Below, Elements, InsertInto, BucketsOk;
      Buckets(reqs, heads, waiting, servers, inflightCount, waitingCount, nextReq);
      var q, n := heads[i], |heads|;
      OldList(reqs, heads, i);
      out := lists;
      ghost var done := Below(reqs, n, i);
      var j := 0;
      while j < |q|
        invariant j <= |q| && |out| == |lists| && Rehashed(reqs, out, done)
        invariant done == Below(reqs, n, i) + Elements(q, j)
      {
        ListElement(reqs, heads, i, j);
        RehashStep(reqs, out, done, q[j]);
        InsertedCount(out, reqs[q[j]].transId, q[j]);
        out := InsertInto(out, reqs[q[j]].transId, q[j]);
        done := done + {q[j]};
        j := j + 1;
      }
      ListDone(reqs, heads, i, done);
    }

    /** Whether a server has this address: a walk around the ring. */
    method HasServer(address: nat) returns (known: bool)
      requires RingOk(servers, ring, head)
      ensures known <==> exists s {:trigger servers[s]} :: 0 <= s < |servers| && servers[s].address == address
    {
      if |ring| == 0 {
        return false;
      }
      var at, k := head, 0;
      while true
        invariant at < |ring| && k < |ring| && at == Around(head, k, |ring|)
        invariant forall j {:trigger Around(head, j, |ring|)} ::
            0 <= j < k ==> servers[ring[Around(head, j, |ring|)]].address != address
        decreases |ring| - k
      {
        if servers[ring[at]].address == address {
          return true;
        }
        at := Next(at, |ring|);
        k := k + 1;
        if at == head {
          AllOthers(servers, ring, head, k, address);
          return false;
        }
      }
    }

    /** evdns_nameserver_add_impl_: a new server, which is up, goes behind the one picked next. One whose
        address is known is refused, and so is one whose socket cannot be set up, which is failure. */
    method AddServer(address: nat, failure: int) returns (err: int)
      requires Valid()
      modifies this`servers, this`ring, this`head, this`good
      ensures Valid()
      ensures var known := exists s {:trigger old(servers)[s]} :: 0 <= s < |old(servers)| && old(servers)[s].address == address;
              && err == (if known then 3 else failure)
              && servers == if known || failure != 0 then old(servers) else old(servers) + [Server(address, true, 0, 0, 0, false, None)]
    {
      hide Consistent, Ups;
      var known := HasServer(address);
      if known {
        return 3;
      }
      if failure != 0 {
        return failure;
      }
      var v, s := Server(address, true, 0, 0, 0, false, None), |servers|;
      ServerAdded(reqs, heads, waiting, servers, inflightCount, waitingCount, nextReq, v);
      if |ring| == 0 {
        RingAdded(servers, ring, 0, v, [s]);
        ring, head := [s], 0;
      } else {
        RingAdded(servers, ring, head, v, ring[..head + 1] + [s] + ring[head + 1..]);
        ring := ring[..head + 1] + [s] + ring[head + 1..];
      }
      hide RingOk;
      servers := servers + [v];
      good := good + 1;
      err := 0;
    }
  }

  /** What sending at most once makes of request a: if it was marked to be sent it may have been, and then
      that is counted and it is not marked any more. */
  predicate Sent(a: Req, b: Req) {
    && b.transId == a.transId && b.ns.Some? == a.ns.Some? && b.reissues == a.reissues && (a.ns.None? ==> b == a)
    && ((b.txCount == a.txCount && b.transmitMe == a.transmitMe && b.sends == a.sends && b.timer == a.timer)
        || (a.transmitMe && !b.transmitMe && b.txCount == a.txCount + 1 && b.sends == a.sends + 1 && b.timer))
  }

  /** The same requests, in the same lists under the same ids, each sent at most once more. */
  predicate SameRequests(reqs: map<nat, Req>, reqs': map<nat, Req>) {
    && reqs'.Keys == reqs.Keys
    && forall r {:trigger r in reqs'} :: r in reqs' ==> Sent(reqs[r], reqs'[r])
  }

  /** The same requests, but those that waited to be sent to server s may go to others. */
  predicate Reassigned(reqs: map<nat, Req>, reqs': map<nat, Req>, s: nat) {
    && reqs'.Keys == reqs.Keys
    && forall r {:trigger r in reqs'} :: r in reqs' ==>
      && reqs'[r] == reqs[r].(ns := reqs'[r].ns) && reqs'[r].ns.Some? == reqs[r].ns.Some?
      && (reqs'[r].ns != reqs[r].ns ==> Unsent(reqs[r], s))
  }

  lemma ReassignedAlways(reqs: map<nat, Req>, s: nat)
    ensures Reassigned(reqs, reqs, s)
  {
  }

  lemma ReassignedSame(reqs: map<nat, Req>, reqs': map<nat, Req>, s: nat)
    requires Reassigned(reqs, reqs', s)
    ensures SameRequests(reqs, reqs')
  {
  }

  lemma ReassignedOne(reqs: map<nat, Req>, r: nat, ns: Option<nat>, s: nat)
    requires r in reqs && ns.Some? && Unsent(reqs[r], s)
    ensures Reassigned(reqs, reqs[r := reqs[r].(ns := ns)], s)
  {
  }

  lemma SameAlways(reqs: map<nat, Req>)
    ensures SameRequests(reqs, reqs)
  {
  }

  predicate SameStates(servers: seq<Server>, servers': seq<Server>) {
    |servers'| == |servers| && forall s {:trigger servers'[s]} :: 0 <= s < |servers'| ==>
      && servers'[s].up == servers[s].up && servers'[s].choked == servers[s].choked && servers'[s].probe == servers[s].probe
      && servers'[s].timedout == servers[s].timedout
  }

  lemma StatesAlways(servers: seq<Server>)
    ensures SameStates(servers, servers)
  {
  }

  lemma SwapRing(servers: seq<Server>, ring: seq<nat>, head: nat, s: nat, t: nat)
    requires RingOk(servers, ring, head) && s < |servers| && t < |servers|
    ensures var servers' :=
              servers[s := servers[s].(inflight := servers[s].inflight - 1)][t := servers[t].(inflight := servers[t].inflight + 1)];
            RingOk(servers', ring, head) && Ups(servers') == Ups(servers) && SameStates(servers, servers')
  {
  }

  /** Request q waits to be sent to server s. */
  predicate Unsent(q: Req, s: nat) {
    q.txCount == 0 && q.ns == Some(s)
  }

  /** No request of the first i lists waits to be sent to server s. */
  predicate Moved(reqs: map<nat, Req>, heads: seq<seq<nat>>, s: nat, i: nat) {
    forall k, j {:trigger heads[k][j]} :: 0 <= k < i && k < |heads| && 0 <= j < |heads[k]| && heads[k][j] in reqs ==>
      !Unsent(reqs[heads[k][j]], s)
  }

  lemma BucketInflight(reqs: map<nat, Req>, heads: seq<seq<nat>>, i: nat)
    requires BucketsOk(reqs, heads) && i < |heads|
    ensures InBucket(reqs, heads[i])
  {
    var q := heads[i];
    assert BucketOk(reqs, q, i, |heads|);
    forall k {:trigger q[k]} | 0 <= k < |q| ensures q[k] in Inflight(reqs) {
      assert q[k] in q;
    }
  }

  predicate InBucket(reqs: map<nat, Req>, q: seq<nat>) {
    forall k {:trigger q[k]} :: 0 <= k < |q| ==> q[k] in Inflight(reqs)
  }

  predicate MovedIn(reqs: map<nat, Req>, q: seq<nat>, s: nat, j: nat) {
    forall k {:trigger q[k]} :: 0 <= k < j && k < |q| && q[k] in reqs ==> !Unsent(reqs[q[k]], s)
  }

  lemma BucketStart(reqs: map<nat, Req>, q: seq<nat>, s: nat)
    ensures MovedIn(reqs, q, s, 0)
  {
  }

  lemma BucketElement(reqs: map<nat, Req>, q: seq<nat>, j: nat)
    requires InBucket(reqs, q) && j < |q|
    ensures q[j] in Inflight(reqs)
  {
  }

  lemma BucketNext(reqs0: map<nat, Req>, reqs: map<nat, Req>, reqs': map<nat, Req>, heads: seq<seq<nat>>, s: nat, i: nat, j: nat)
    requires i < |heads| && j < |heads[i]| && InBucket(reqs, heads[i]) && Moved(reqs, heads, s, i) && MovedIn(reqs, heads[i], s, j)
    requires var r := heads[i][j]; r in reqs' && reqs' == reqs[r := reqs'[r]] && !Unsent(reqs'[r], s)
    requires Reassigned(reqs0, reqs, s) && Reassigned(reqs, reqs', s)
    ensures InBucket(reqs', heads[i]) && Moved(reqs', heads, s, i) && MovedIn(reqs', heads[i], s, j + 1)
    ensures Reassigned(reqs0, reqs', s)
  {
    ReassignedTrans(reqs0, reqs, reqs', s);
    hide Unsent;
    var q := heads[i];
    forall k {:trigger q[k]} | 0 <= k < |q| ensures q[k] in Inflight(reqs') {
      assert q[k] in Inflight(reqs);
    }
  }

  lemma ReassignedTrans(a: map<nat, Req>, b: map<nat, Req>, c: map<nat, Req>, s: nat)
    requires Reassigned(a, b, s) && Reassigned(b, c, s)
    ensures Reassigned(a, c, s)
  {
    forall r {:trigger r in c} | r in c
      ensures c[r] == a[r].(ns := c[r].ns) && c[r].ns.Some? == a[r].ns.Some?
      ensures c[r].ns != a[r].ns ==> Unsent(a[r], s)
    {
      assert r in b;
    }
  }

  lemma MovedNext(reqs: map<nat, Req>, heads: seq<seq<nat>>, s: nat, i: nat)
    requires i < |heads| && Moved(reqs, heads, s, i) && MovedIn(reqs, heads[i], s, |heads[i]|)
    ensures Moved(reqs, heads, s, i + 1)
  {
    hide Unsent;
    forall k, j {:trigger heads[k][j]} | 0 <= k < i + 1 && k < |heads| && 0 <= j < |heads[k]| && heads[k][j] in reqs
      ensures !Unsent(reqs[heads[k][j]], s)
    {
      if k == i {
        var q := heads[i];
        assert q[j] in reqs;
      }
    }
  }

  lemma StatesTrans(a: seq<Server>, b: seq<Server>, c: seq<Server>, s: nat)
    requires SameStates(a, b) && SameStates(b, c)
    ensures SameStates(a, c) && |c| == |b| && (s < |b| ==> c[s].up == b[s].up)
  {
    forall u {:trigger c[u]} | 0 <= u < |c|
      ensures c[u].up == a[u].up && c[u].choked == a[u].choked && c[u].probe == a[u].probe && c[u].timedout == a[u].timedout
    {
      assert b[u].up == a[u].up;
    }
  }

  lemma AllMoved(reqs: map<nat, Req>, heads: seq<seq<nat>>, s: nat)
    requires BucketsOk(reqs, heads) && Moved(reqs, heads, s, |heads|)
    ensures forall r {:trigger r in reqs} :: r in reqs && reqs[r].ns == Some(s) ==> reqs[r].txCount > 0
  {
    forall r {:trigger r in reqs} | r in reqs && reqs[r].ns == Some(s) ensures reqs[r].txCount > 0 {
      var k := Slot(reqs[r].transId, |heads|);
      assert BucketOk(reqs, heads[k], k, |heads|);
      var j :| 0 <= j < |heads[k]| && heads[k][j] == r;
      assert !Unsent(reqs[heads[k][j]], s);
    }
  }

  lemma StopSame(reqs: map<nat, Req>, r: nat)
    requires r in Inflight(reqs)
    ensures r in Inflight(reqs[r := reqs[r].(timer := false)])
  {
  }

  lemma MarkSame(reqs: map<nat, Req>, r: nat, q: Req)
    requires r in Inflight(reqs) && q.transId == reqs[r].transId && q.ns.Some?
    ensures r in Inflight(reqs[r := q])
  {
  }

  // ---------------------------------------------------------------- sending

  /** The requests with r marked to be sent. */
  function Marked(reqs: map<nat, Req>, r: nat): map<nat, Req> {
    if r in reqs then reqs[r := reqs[r].(transmitMe := true)] else reqs
  }

  /** Request q is not sent because a server cannot take more: its own, or one that has failed since. */
  predicate Blocked(servers: seq<Server>, q: Req) {
    exists s :: 0 <= s < |servers| && servers[s].choked && (q.ns == Some(s) || !servers[s].up)
  }

  /** Some server cannot take more: when it can again, what is marked is sent. */
  predicate SomeChoked(servers: seq<Server>) {
    exists s :: 0 <= s < |servers| && servers[s].choked
  }

  /** Nothing is marked to be sent unless a server cannot take more. */
  predicate MarkedBlocked(reqs: map<nat, Req>, servers: seq<Server>) {
    forall r {:trigger r in reqs} :: r in reqs && reqs[r].ns.Some? && reqs[r].transmitMe ==> SomeChoked(servers)
  }

  /** A request in flight whose timeout is running, or that is to be sent when some server can take more. */
  predicate Attended(q: Req, servers: seq<Server>) {
    q.timer || (q.transmitMe && SomeChoked(servers))
  }

  lemma ChokedUpdate(servers: seq<Server>, s: nat, v: Server)
    requires s < |servers| && v.choked == servers[s].choked
    ensures SomeChoked(servers) ==> SomeChoked(servers[s := v])
  {
    if SomeChoked(servers) {
      var t :| 0 <= t < |servers| && servers[t].choked;
      assert servers[s := v][t].choked;
    }
  }

  /** No request in flight is stuck. */
  predicate AllAttended(reqs: map<nat, Req>, servers: seq<Server>) {
    forall r {:trigger r in reqs} :: r in reqs && reqs[r].ns.Some? ==> Attended(reqs[r], servers)
  }

  /** No request gets stuck. */
  predicate Tended(reqs: map<nat, Req>, servers: seq<Server>, reqs': map<nat, Req>, servers': seq<Server>) {
    AllAttended(reqs, servers) ==> AllAttended(reqs', servers')
  }

  lemma TendedTrans(a: map<nat, Req>, v: seq<Server>, b: map<nat, Req>, w: seq<Server>, c: map<nat, Req>, x: seq<Server>)
    requires Tended(a, v, b, w) && Tended(b, w, c, x)
    ensures Tended(a, v, c, x)
  {
  }

  lemma TendedAlways(reqs: map<nat, Req>, servers: seq<Server>)
    ensures Tended(reqs, servers, reqs, servers)
  {
  }

  /** While nothing but servers change and none can take more again, no request gets stuck. */
  lemma TendedServers(reqs: map<nat, Req>, servers: seq<Server>, servers': seq<Server>)
    requires SomeChoked(servers) ==> SomeChoked(servers')
    ensures Tended(reqs, servers, reqs, servers')
  {
  }

  lemma TendedWithout(reqs: map<nat, Req>, servers: seq<Server>, r: nat, servers': seq<Server>)
    requires SameStates(servers, servers')
    ensures Tended(reqs, servers, reqs - {r}, servers')
  {
    SameChoked(servers, servers');
    hide SomeChoked;
  }

  lemma SameChoked(servers: seq<Server>, servers': seq<Server>)
    requires SameStates(servers, servers')
    ensures SomeChoked(servers) ==> SomeChoked(servers')
  {
    if SomeChoked(servers) {
      var s :| 0 <= s < |servers| && servers[s].choked;
      assert servers'[s].choked;
    }
  }

  /** Requests kept, with those marked waiting for a server that cannot take more. */
  lemma TendedKept(reqs: map<nat, Req>, servers: seq<Server>, reqs': map<nat, Req>, servers': seq<Server>)
    requires Kept(reqs, reqs', {}) && reqs'.Keys == reqs.Keys && MarkedBlocked(reqs', servers')
    ensures Tended(reqs, servers, reqs', servers')
  {
    hide SomeChoked;
    if AllAttended(reqs, servers) {
      forall t {:trigger t in reqs'} | t in reqs' && reqs'[t].ns.Some? ensures Attended(reqs'[t], servers') {
        assert t in reqs;
      }
    }
  }

  lemma TendedReassigned(reqs: map<nat, Req>, servers: seq<Server>, reqs': map<nat, Req>, servers': seq<Server>, s: nat)
    requires Reassigned(reqs, reqs', s) && (SomeChoked(servers) ==> SomeChoked(servers'))
    ensures Tended(reqs, servers, reqs', servers')
  {
    hide SomeChoked;
    if AllAttended(reqs, servers) {
      forall t {:trigger t in reqs'} | t in reqs' && reqs'[t].ns.Some? ensures Attended(reqs'[t], servers') {
        assert t in reqs;
      }
    }
  }

  lemma TendedReissued(reqs: map<nat, Req>, servers: seq<Server>, reqs': map<nat, Req>, servers': seq<Server>, r: nat, res: nat)
    requires SameStates(servers, servers') && r in Inflight(reqs) && r in reqs && r in reqs'
    requires res == 0 ==> reqs' == reqs[r := reqs'[r]] && Reissued(reqs[r], reqs'[r])
    requires res != 0 ==> reqs' == reqs
    ensures Tended(reqs, servers, reqs', servers')
  {
    SameChoked(servers, servers');
    hide SomeChoked;
  }

  /** A new request, attempted. */
  lemma TendedNew(reqs: map<nat, Req>, servers: seq<Server>, reqs': map<nat, Req>, servers': seq<Server>, r: nat)
    requires Kept(reqs, reqs', {}) && reqs'.Keys == reqs.Keys + {r} && r !in reqs && NoneUp(servers, servers')
    requires forall t {:trigger t in reqs} :: t in reqs && reqs[t].ns.None? ==> reqs'[t] == reqs[t]
    requires reqs'[r].ns.Some? ==> Attended(reqs'[r], servers')
    ensures Tended(reqs, servers, reqs', servers')
  {
    StillChoked(servers, servers');
    hide SomeChoked, NoneUp;
    if AllAttended(reqs, servers) {
      forall t {:trigger t in reqs'} | t in reqs' && reqs'[t].ns.Some? ensures Attended(reqs'[t], servers') {
        assert t == r || t in reqs;
      }
    }
  }

  /** Requests other than r sent at most once more. */
  lemma TendedSame(reqs: map<nat, Req>, servers: seq<Server>, r: nat, q: Req, reqs': map<nat, Req>, servers': seq<Server>)
    requires r in reqs && SameRequests(reqs[r := q], reqs') && NoneUp(servers, servers')
    requires r in reqs' && Attended(reqs'[r], servers')
    ensures Tended(reqs, servers, reqs', servers')
  {
    StillChoked(servers, servers');
    hide SomeChoked, NoneUp;
    if AllAttended(reqs, servers) {
      forall t {:trigger t in reqs'} | t in reqs' && reqs'[t].ns.Some? ensures Attended(reqs'[t], servers') {
        assert t in reqs[r := q];
      }
    }
  }

  lemma AllBlocked(reqs: map<nat, Req>, servers: seq<Server>)
    requires forall r {:trigger r in reqs} :: r in reqs && reqs[r].ns.Some? && reqs[r].transmitMe ==> Blocked(servers, reqs[r])
    ensures MarkedBlocked(reqs, servers)
  {
  }

  lemma StillChoked(servers: seq<Server>, servers': seq<Server>)
    requires NoneUp(servers, servers')
    ensures SomeChoked(servers) ==> SomeChoked(servers')
  {
    if SomeChoked(servers) {
      var s :| 0 <= s < |servers| && servers[s].choked;
      assert servers'[s].choked;
    }
  }

  /** Requests have moved only from servers that went down. */
  predicate Moves(reqs: map<nat, Req>, servers: seq<Server>, reqs': map<nat, Req>, servers': seq<Server>) {
    forall r {:trigger r in reqs'} :: r in reqs' && r in reqs && reqs'[r].ns != reqs[r].ns ==>
      && reqs[r].ns.Some? && reqs[r].ns.value < |servers| && reqs[r].ns.value < |servers'|
      && servers[reqs[r].ns.value].up && !servers'[reqs[r].ns.value].up
  }

  /** What an attempt to send r may change. */
  predicate Transmitted(reqs: map<nat, Req>, servers: seq<Server>, reqs': map<nat, Req>, servers': seq<Server>, r: nat) {
    && SameRequests(Marked(reqs, r), reqs') && AfterSending(servers, servers') && Moves(reqs, servers, reqs', servers')
    && (r in reqs' && reqs'[r].transmitMe ==> Blocked(servers', reqs'[r]))
  }

  /** Request q counted as sent once more, with its timeout running, or marked to be sent. */
  function Counted(q: Req, sent: bool): Req {
    if sent then q.(txCount := q.txCount + 1, transmitMe := false, sends := q.sends + 1, timer := true)
    else q.(transmitMe := true)
  }

  /** Request b is a, sent once more, and its timeout is running. */
  predicate OnceMore(a: Req, b: Req) {
    b.txCount == a.txCount + 1 && b.sends == a.sends + 1 && b.reissues == a.reissues && !b.transmitMe && b.timer
  }

  /** How request r was attempted: not at all when its server is choked; if the server is to be tried later it
      is choked now, if the attempt failed the server is down, and only then do other requests change. */
  predicate Attempted(reqs: map<nat, Req>, servers: seq<Server>, reqs': map<nat, Req>, servers': seq<Server>, r: nat,
                      attempts: int, came: nat, res: nat) {
    && r in reqs && r in reqs' && reqs[r].ns.Some? && reqs[r].ns.value < |servers|
    && var s := reqs[r].ns.value;
    && (attempts == if servers[s].choked then 0 else 1)
    && (res == 0 <==> attempts == 1 && came != 1 && came != 2)
    && reqs'[r] == Counted(reqs[r], attempts == 1 && came != 1).(ns := reqs'[r].ns)
    && (if attempts == 1 && came != 1 then OnceMore(reqs[r], reqs'[r]) else reqs'[r].transmitMe && reqs'[r].txCount == reqs[r].txCount)
    && (attempts == 0 || came != 2 || !servers[s].up ==> reqs' == reqs[r := reqs'[r]] && reqs'[r].ns == Some(s))
    && (attempts == 1 && came == 1 ==> servers' == servers[s := servers[s].(choked := true)])
    && (attempts == 1 && came == 2 ==> |servers'| == |servers| && !servers'[s].up)
    && (attempts == 0 || (came != 1 && came != 2) ==> servers' == servers)
  }

  lemma NotSent(reqs: map<nat, Req>, servers: seq<Server>, reqs': map<nat, Req>, servers': seq<Server>, r: nat, n: nat, came: nat)
    requires r in Inflight(reqs) && reqs' == reqs[r := Counted(reqs[r], false)] && AfterSending(servers, servers')
    requires reqs[r].ns.value < |servers'| && servers'[reqs[r].ns.value].choked
    requires n == if servers[reqs[r].ns.value].choked then 0 else 1
    requires n == 0 ==> servers' == servers
    requires n == 1 ==> came == 1 && servers' == servers[reqs[r].ns.value := servers[reqs[r].ns.value].(choked := true)]
    ensures Transmitted(reqs, servers, reqs', servers', r) && Attempted(reqs, servers, reqs', servers', r, n, came, 1)
    ensures r in Inflight(reqs')
  {
    assert Blocked(servers', reqs'[r]);
    assert reqs'[r] == reqs'[r].(ns := reqs'[r].ns);
  }

  lemma ChokeUp(servers: seq<Server>, s: nat)
    requires s < |servers|
    ensures AfterSending(servers, servers[s := servers[s].(choked := true)])
  {
  }

  lemma StillThere(reqs: map<nat, Req>, reqs': map<nat, Req>, s: nat, r: nat)
    requires Reassigned(reqs, reqs', s) && r in Inflight(reqs)
    ensures r in Inflight(reqs') && r in reqs' && reqs'[r] == reqs[r].(ns := reqs'[r].ns)
    ensures reqs'.Keys == reqs.Keys
  {
  }

  lemma SentNow(reqs: map<nat, Req>, servers: seq<Server>, reqs1: map<nat, Req>, reqs2: map<nat, Req>, reqs': map<nat, Req>,
                servers': seq<Server>, r: nat, came: nat)
    requires r in Inflight(reqs) && reqs[r].ns.value < |servers| && !servers[reqs[r].ns.value].choked && came != 1
    requires reqs1 == reqs[r := Counted(reqs[r], false)] && Reassigned(reqs1, reqs2, reqs[r].ns.value)
    requires r in reqs2 && reqs' == reqs2[r := Counted(reqs2[r], true)] && AfterSending(servers, servers')
    requires came != 2 || !servers[reqs[r].ns.value].up ==> reqs2 == reqs1 && servers' == servers
    requires came == 2 ==> reqs[r].ns.value < |servers'| && !servers'[reqs[r].ns.value].up
    ensures Transmitted(reqs, servers, reqs', servers', r)
    ensures Attempted(reqs, servers, reqs', servers', r, 1, came, if came == 2 then 1 else 0)
    ensures r in Inflight(reqs')
  {
    var s := reqs[r].ns.value;
    forall t {:trigger t in reqs'} | t in reqs'
      ensures Sent(Marked(reqs, r)[t], reqs'[t])
      ensures reqs'[t].ns != reqs[t].ns ==> reqs[t].ns == Some(s) && servers[s].up && !servers'[s].up
    {
      assert t in reqs2 && t in reqs1;
    }
  }

  lemma AfterTransmitting(reqs: map<nat, Req>, servers: seq<Server>, reqs': map<nat, Req>, servers': seq<Server>, r: nat)
    requires Transmitted(reqs, servers, reqs', servers', r)
    ensures SameRequests(Marked(reqs, r), reqs') && NoneUp(servers, servers')
  {
    SendingUp(servers, servers');
  }

  lemma MarkedAlready(reqs: map<nat, Req>, r: nat)
    requires r in reqs && reqs[r].transmitMe
    ensures Marked(reqs, r) == reqs
  {
    assert reqs[r].(transmitMe := true) == reqs[r];
  }

  /** The requests of the first i lists that are still marked are blocked. */
  predicate Tried(reqs: map<nat, Req>, servers: seq<Server>, heads: seq<seq<nat>>, i: nat) {
    forall k, j {:trigger heads[k][j]} :: 0 <= k < i && k < |heads| && 0 <= j < |heads[k]| && heads[k][j] in reqs ==>
      reqs[heads[k][j]].transmitMe ==> Blocked(servers, reqs[heads[k][j]])
  }

  predicate TriedIn(reqs: map<nat, Req>, servers: seq<Server>, q: seq<nat>, j: nat) {
    forall k {:trigger q[k]} :: 0 <= k < j && k < |q| && q[k] in reqs ==> reqs[q[k]].transmitMe ==> Blocked(servers, reqs[q[k]])
  }

  lemma NothingTried(reqs: map<nat, Req>, servers: seq<Server>, heads: seq<seq<nat>>)
    ensures Tried(reqs, servers, heads, 0)
  {
  }

  lemma NothingTriedIn(reqs: map<nat, Req>, servers: seq<Server>, q: seq<nat>)
    ensures TriedIn(reqs, servers, q, 0)
  {
  }

  lemma TriedInNext(reqs: map<nat, Req>, servers: seq<Server>, q: seq<nat>, j: nat)
    requires TriedIn(reqs, servers, q, j) && j < |q| && q[j] in reqs && !reqs[q[j]].transmitMe
    ensures TriedIn(reqs, servers, q, j + 1)
  {
    hide Blocked;
  }

  lemma TriedNext(reqs: map<nat, Req>, servers: seq<Server>, heads: seq<seq<nat>>, i: nat)
    requires i < |heads| && Tried(reqs, servers, heads, i) && TriedIn(reqs, servers, heads[i], |heads[i]|)
    ensures Tried(reqs, servers, heads, i + 1)
  {
    hide Blocked;
    forall k, j {:trigger heads[k][j]} | 0 <= k < i + 1 && k < |heads| && 0 <= j < |heads[k]| && heads[k][j] in reqs
      ensures reqs[heads[k][j]].transmitMe ==> Blocked(servers, reqs[heads[k][j]])
    {
      if k == i {
        var q := heads[i];
        assert q[j] in reqs;
      }
    }
  }

  /** A blocked request stays blocked while others are sent. */
  lemma StillBlocked(servers: seq<Server>, a: Req, servers': seq<Server>, b: Req)
    requires Blocked(servers, a) && NoneUp(servers, servers')
    requires b.ns != a.ns ==> a.ns.Some? && a.ns.value < |servers'| && !servers'[a.ns.value].up
    ensures Blocked(servers', b)
  {
    var s :| 0 <= s < |servers| && servers[s].choked && (a.ns == Some(s) || !servers[s].up);
    assert servers'[s].choked && (servers'[s].up ==> servers[s].up);
  }

  lemma AfterTransmit(reqs: map<nat, Req>, servers: seq<Server>, reqs': map<nat, Req>, servers': seq<Server>, r: nat, t: nat)
    requires Transmitted(reqs, servers, reqs', servers', r) && r in reqs && reqs[r].transmitMe && t in reqs'
    requires t != r ==> t in reqs && (reqs[t].transmitMe ==> Blocked(servers, reqs[t]))
    ensures reqs'[t].transmitMe ==> Blocked(servers', reqs'[t])
  {
    hide Blocked;
    MarkedAlready(reqs, r);
    if t != r && reqs'[t].transmitMe {
      assert Sent(reqs[t], reqs'[t]);
      StillBlocked(servers, reqs[t], servers', reqs'[t]);
    }
  }

  lemma TriedMore(reqs: map<nat, Req>, servers: seq<Server>, reqs': map<nat, Req>, servers': seq<Server>,
                  heads: seq<seq<nat>>, i: nat, r: nat)
    requires Transmitted(reqs, servers, reqs', servers', r) && r in reqs && reqs[r].transmitMe && Tried(reqs, servers, heads, i)
    ensures Tried(reqs', servers', heads, i)
  {
    hide Blocked, Moves, NoneUp;
    MarkedAlready(reqs, r);
    forall k, j {:trigger heads[k][j]} | 0 <= k < i && k < |heads| && 0 <= j < |heads[k]| && heads[k][j] in reqs'
      ensures reqs'[heads[k][j]].transmitMe ==> Blocked(servers', reqs'[heads[k][j]])
    {
      AfterTransmit(reqs, servers, reqs', servers', r, heads[k][j]);
    }
  }

  lemma TriedInMore(reqs: map<nat, Req>, servers: seq<Server>, reqs': map<nat, Req>, servers': seq<Server>, q: seq<nat>, j: nat)
    requires j < |q| && Transmitted(reqs, servers, reqs', servers', q[j]) && q[j] in reqs && reqs[q[j]].transmitMe
    requires TriedIn(reqs, servers, q, j)
    ensures TriedIn(reqs', servers', q, j + 1)
  {
    hide Blocked, Moves, NoneUp;
    MarkedAlready(reqs, q[j]);
    forall k {:trigger q[k]} | 0 <= k < j + 1 && k < |q| && q[k] in reqs'
      ensures reqs'[q[k]].transmitMe ==> Blocked(servers', reqs'[q[k]])
    {
      AfterTransmit(reqs, servers, reqs', servers', q[j], q[k]);
    }
  }

  lemma AllTried(reqs: map<nat, Req>, heads: seq<seq<nat>>, waiting: seq<nat>, servers: seq<Server>,
                 inflightCount: int, waitingCount: int, nextReq: nat)
    requires Consistent(reqs, heads, waiting, servers, inflightCount, waitingCount, nextReq)
    requires Tried(reqs, servers, heads, |heads|)
    ensures forall r {:trigger r in reqs} :: r in reqs && reqs[r].ns.Some? && reqs[r].transmitMe ==> Blocked(servers, reqs[r])
  {
    hide Blocked;
    forall r {:trigger r in reqs} | r in reqs && reqs[r].ns.Some? && reqs[r].transmitMe ensures Blocked(servers, reqs[r]) {
      var k := Slot(reqs[r].transId, |heads|);
      assert BucketOk(reqs, heads[k], k, |heads|);
      var j :| 0 <= j < |heads[k]| && heads[k][j] == r;
      assert heads[k][j] in reqs;
    }
  }

  lemma SameTrans(a: map<nat, Req>, b: map<nat, Req>, c: map<nat, Req>, r: nat)
    requires SameRequests(a, b) && SameRequests(b, c)
    ensures SameRequests(a, c) && (r in Inflight(a) ==> r in Inflight(c) && r in c)
  {
    forall t {:trigger t in c} | t in c ensures Sent(a[t], c[t]) {
      assert t in b;
    }
  }

  lemma Length(a: seq<Server>, b: seq<Server>)
    requires NoneUp(a, b)
    ensures |b| == |a|
  {
  }

  /** What sending does to servers: some are down, some cannot take more. */
  predicate AfterSending(servers: seq<Server>, servers': seq<Server>) {
    |servers'| == |servers| && forall s {:trigger servers'[s]} :: 0 <= s < |servers'| ==>
      && (servers'[s].up ==> servers[s].up) && (servers[s].choked ==> servers'[s].choked)
      && servers'[s].probe == servers[s].probe && servers'[s].timedout == servers[s].timedout
  }

  /** Server s has failed, and no other. */
  predicate Failed(servers: seq<Server>, servers': seq<Server>, s: nat) {
    |servers'| == |servers| && forall t {:trigger servers'[t]} :: 0 <= t < |servers'| ==>
      && servers'[t].up == (servers[t].up && t != s) && servers'[t].choked == servers[t].choked
      && servers'[t].probe == servers[t].probe && servers'[t].timedout == servers[t].timedout
  }

  lemma SendingAlways(servers: seq<Server>)
    ensures AfterSending(servers, servers)
  {
  }

  lemma FailedSending(servers: seq<Server>, servers': seq<Server>, s: nat)
    requires Failed(servers, servers', s)
    ensures AfterSending(servers, servers') && NoneUp(servers, servers') && |servers'| == |servers|
    ensures s < |servers'| ==> !servers'[s].up
  {
  }

  lemma SendingUp(servers: seq<Server>, servers': seq<Server>)
    requires AfterSending(servers, servers')
    ensures NoneUp(servers, servers')
  {
  }

  /** No server has come up or can take more again, and the probes are the same. */
  predicate NoneUp(servers: seq<Server>, servers': seq<Server>) {
    |servers'| == |servers| && forall s {:trigger servers'[s]} :: 0 <= s < |servers'| ==>
      && (servers'[s].up ==> servers[s].up) && (servers[s].choked ==> servers'[s].choked)
      && servers'[s].probe == servers[s].probe
  }

  lemma UpAlways(servers: seq<Server>)
    ensures NoneUp(servers, servers)
  {
  }

  lemma UpTrans(a: seq<Server>, b: seq<Server>, c: seq<Server>)
    requires NoneUp(a, b) && NoneUp(b, c)
    ensures NoneUp(a, c)
  {
    forall u {:trigger c[u]} | 0 <= u < |c|
      ensures (c[u].up ==> a[u].up) && (a[u].choked ==> c[u].choked) && c[u].probe == a[u].probe
    {
      assert b[u].up ==> a[u].up;
    }
  }

  lemma UpPump(a: seq<Server>, b: seq<Server>, c: seq<Server>, d: seq<Server>, e: seq<Server>)
    requires NoneUp(a, b) && SameStates(b, c) && NoneUp(c, d) && e == d
    ensures NoneUp(a, e)
  {
    assert NoneUp(b, c);
    UpTrans(a, b, c);
    UpTrans(a, c, d);
  }

  lemma Known(reqs: map<nat, Req>, heads: seq<seq<nat>>, waiting: seq<nat>, servers: seq<Server>,
              inflightCount: int, waitingCount: int, nextReq: nat, r: nat)
    requires Consistent(reqs, heads, waiting, servers, inflightCount, waitingCount, nextReq) && r in Inflight(reqs)
    ensures r in reqs && reqs[r].ns.Some? && reqs[r].ns.value < |servers| && reqs[r].transId < NO_ID
  {
  }

  lemma InReqs(reqs: map<nat, Req>, r: nat)
    requires r in Inflight(reqs)
    ensures r in reqs && reqs[r].ns.Some?
  {
  }

  lemma BucketSame(reqs0: map<nat, Req>, reqs: map<nat, Req>, reqs': map<nat, Req>, q: seq<nat>)
    requires SameRequests(reqs0, reqs) && SameRequests(reqs, reqs') && InBucket(reqs, q)
    ensures SameRequests(reqs0, reqs') && InBucket(reqs', q)
  {
    SameTrans(reqs0, reqs, reqs', 0);
    forall k {:trigger q[k]} | 0 <= k < |q| ensures q[k] in Inflight(reqs') {
      assert q[k] in Inflight(reqs);
      assert q[k] in reqs';
    }
  }

  /** The ids in use. */
  function Ids(reqs: map<nat, Req>): set<nat> {
    set r | r in Inflight(reqs) :: reqs[r].transId
  }

  lemma FreeId(reqs: map<nat, Req>)
    requires |Inflight(reqs)| < NO_ID
    ensures exists id :: 0 <= id < NO_ID && id !in Ids(reqs)
    ensures forall t {:trigger t in reqs} :: t in reqs && reqs[t].ns.Some? ==> reqs[t].transId in Ids(reqs)
  {
    IdCount(reqs, Inflight(reqs));
    if forall id :: 0 <= id < NO_ID ==> id in Ids(reqs) {
      SubsetSize(UpTo(NO_ID), Ids(reqs));
      assert false;
    }
    forall t {:trigger t in reqs} | t in reqs && reqs[t].ns.Some? ensures reqs[t].transId in Ids(reqs) {
      assert t in Inflight(reqs);
    }
  }

  lemma {:induction false} IdCount(reqs: map<nat, Req>, rs: set<nat>)
    requires forall r :: r in rs ==> r in reqs
    ensures |set r | r in rs :: reqs[r].transId| <= |rs|
    decreases |rs|
  {
    var ids := set r | r in rs :: reqs[r].transId;
    if rs == {} {
      assert ids == {};
    } else {
      var r :| r in rs;
      var rest := rs - {r};
      IdCount(reqs, rest);
      var ids' := set t | t in rest :: reqs[t].transId;
      assert ids == ids' + {reqs[r].transId};
    }
  }

  /** The numbers below n. */
  function UpTo(n: nat): (all: set<nat>)
    ensures |all| == n && forall k: nat :: k in all <==> k < n
  {
    if n == 0 then {} else UpTo(n - 1) + {n - 1}
  }

  lemma {:induction false} SubsetSize(a: set<nat>, b: set<nat>)
    requires a <= b
    ensures |a| <= |b|
    decreases |a|
  {
    if a != {} {
      var x :| x in a;
      SubsetSize(a - {x}, b - {x});
    }
  }

  lemma {:induction false} Launched(reqs: map<nat, Req>, heads: seq<seq<nat>>, waiting: seq<nat>, servers: seq<Server>, r: nat, q: Req,
                 inflightCount: int, waitingCount: int, nextReq: nat, ring: seq<nat>, head: nat,
                 reqs': map<nat, Req>, heads': seq<seq<nat>>, waiting': seq<nat>, servers': seq<Server>)
    requires Consistent(reqs, heads, waiting, servers, inflightCount, waitingCount, nextReq) && r < nextReq
    requires q.ns.Some? && q.ns.value < |servers| && q.transId < NO_ID && (r in reqs ==> reqs[r].ns.None?)
    requires forall t {:trigger t in reqs} :: t in reqs && reqs[t].ns.Some? ==> reqs[t].transId != q.transId
    requires reqs' == reqs[r := q] && |heads| > 0 && heads' == InsertInto(heads, q.transId, r)
    requires waiting' == Drop(waiting, r) && RingOk(servers, ring, head)
    requires servers' == Recount(servers, q.ns.value, 1)
    ensures Consistent(reqs', heads', waiting', servers', inflightCount + 1, |waiting'|, nextReq)
    ensures RingOk(servers', ring, head) && Ups(servers') == Ups(servers) && SameStates(servers, servers')
  {
    Launch(reqs, heads, waiting, servers, r, q);
    LaunchRing(servers, ring, head, q.ns.value);
    hide BucketsOk, WaitingOk, IdsOk, ServersOk, RingOk, Drop, Inflight, Lengths, Ups, SameStates, Slot;
  }

  lemma Landed(reqs: map<nat, Req>, heads: seq<seq<nat>>, waiting: seq<nat>, servers: seq<Server>, r: nat,
               inflightCount: int, waitingCount: int, nextReq: nat, ring: seq<nat>, head: nat,
               reqs': map<nat, Req>, heads': seq<seq<nat>>, servers': seq<Server>)
    requires Consistent(reqs, heads, waiting, servers, inflightCount, waitingCount, nextReq) && RingOk(servers, ring, head)
    requires r in reqs && reqs[r].ns.Some? && reqs[r].ns.value < |servers|
    requires reqs' == reqs - {r} && |heads| > 0 && heads' == RemoveFrom(heads, reqs[r].transId, r)
    requires servers' == Recount(servers, reqs[r].ns.value, -1)
    ensures Consistent(reqs', heads', waiting, servers', inflightCount - 1, waitingCount, nextReq)
    ensures RingOk(servers', ring, head) && Ups(servers') == Ups(servers) && SameStates(servers, servers')
  {
    Land(reqs, heads, waiting, servers, r);
    LandRing(servers, ring, head, reqs[r].ns.value);
    hide BucketsOk, WaitingOk, IdsOk, ServersOk, RingOk, Drop, Inflight, Lengths, Ups, SameStates, Slot;
  }

  lemma Swapped(reqs: map<nat, Req>, heads: seq<seq<nat>>, waiting: seq<nat>, servers: seq<Server>, r: nat, t: nat,
                inflightCount: int, waitingCount: int, nextReq: nat, ring: seq<nat>, head: nat,
                reqs': map<nat, Req>, servers': seq<Server>)
    requires Consistent(reqs, heads, waiting, servers, inflightCount, waitingCount, nextReq) && RingOk(servers, ring, head)
    requires r in reqs && reqs[r].ns.Some? && reqs[r].ns.value < |servers| && t < |servers| && reqs[r].ns != Some(t)
    requires reqs' == reqs[r := reqs[r].(ns := Some(t))]
    requires servers' == Recounted(servers, reqs[r].ns.value, t)
    ensures Consistent(reqs', heads, waiting, servers', inflightCount, waitingCount, nextReq)
    ensures RingOk(servers', ring, head) && Ups(servers') == Ups(servers) && SameStates(servers, servers') && SameRequests(reqs, reqs')
  {
    Swap(reqs, heads, waiting, servers, r, t);
    SwapRing(servers, ring, head, reqs[r].ns.value, t);
    hide BucketsOk, WaitingOk, IdsOk, ServersOk, RingOk, Drop, Inflight, Lengths, Ups, SameStates, Slot;
  }

  lemma FirstWaits(reqs: map<nat, Req>, heads: seq<seq<nat>>, waiting: seq<nat>, servers: seq<Server>,
                   inflightCount: int, waitingCount: int, nextReq: nat)
    requires Consistent(reqs, heads, waiting, servers, inflightCount, waitingCount, nextReq) && waitingCount > 0
    ensures |waiting| > 0 && waiting[0] in reqs && reqs[waiting[0]].ns.None? && Drop(waiting, waiting[0]) == waiting[1..]
    ensures waiting[0] < nextReq
  {
    hide BucketsOk, IdsOk, ServersOk;
    assert waiting[0] in waiting;
  }

  lemma HeadsExist(reqs: map<nat, Req>, heads: seq<seq<nat>>, waiting: seq<nat>, servers: seq<Server>,
                   inflightCount: int, waitingCount: int, nextReq: nat, r: nat)
    requires Consistent(reqs, heads, waiting, servers, inflightCount, waitingCount, nextReq)
    ensures |heads| > 0
    ensures r in reqs && reqs[r].ns.Some? ==> reqs[r].ns.value < |servers| && servers[reqs[r].ns.value].inflight > 0
  {
    if r in reqs {
      ServerOf(reqs, servers, heads, r);
    }
  }

  lemma Buckets(reqs: map<nat, Req>, heads: seq<seq<nat>>, waiting: seq<nat>, servers: seq<Server>,
                inflightCount: int, waitingCount: int, nextReq: nat)
    requires Consistent(reqs, heads, waiting, servers, inflightCount, waitingCount, nextReq)
    ensures BucketsOk(reqs, heads)
  {
  }

  lemma InsertedCount(lists: seq<seq<nat>>, id: nat, r: nat)
    requires |lists| > 0
    ensures |InsertInto(lists, id, r)| == |lists|
  {
  }

  /** All of an old list moved: the requests of the old lists up to and with it. */
  lemma ListDone(reqs: map<nat, Req>, heads: seq<seq<nat>>, i: nat, done: set<nat>)
    requires BucketsOk(reqs, heads) && i < |heads|
    requires done == Below(reqs, |heads|, i) + Elements(heads[i], |heads[i]|)
    ensures done == Below(reqs, |heads|, i + 1)
  {
    OldList(reqs, heads, i);
    hide BucketsOk, Below;
    var q := heads[i];
    forall r ensures r in Elements(q, |q|) <==> r in q {
      if r in q {
        var k :| 0 <= k < |q| && q[k] == r;
      }
    }
  }

  lemma ServerOf(reqs: map<nat, Req>, servers: seq<Server>, heads: seq<seq<nat>>, r: nat)
    requires ServersOk(reqs, servers) && BucketsOk(reqs, heads) && r in reqs
    ensures |heads| > 0
    ensures reqs[r].ns.Some? ==>
              reqs[r].ns.value < |servers| && servers[reqs[r].ns.value].inflight > 0
  {
    if reqs[r].ns.Some? {
      assert r in Assigned(reqs, reqs[r].ns.value);
    }
  }

  lemma LaunchRing(servers: seq<Server>, ring: seq<nat>, head: nat, s: nat)
    requires RingOk(servers, ring, head) && s < |servers|
    ensures var servers' := servers[s := servers[s].(inflight := servers[s].inflight + 1)];
            RingOk(servers', ring, head) && Ups(servers') == Ups(servers) && SameStates(servers, servers')
  {
  }

  /** What may have become of request a while others are dealt with: in flight, it was sent at most once
      more; waiting, it still waits, or it went into flight and was sent at most once. */
  predicate Advanced(a: Req, b: Req) {
    && (a.ns.Some? ==> Sent(a, b))
    && (a.ns.None? ==> b == a || (b.ns.Some? && Sent(a.(ns := b.ns, transId := b.transId, transmitMe := true), b)))
  }

  /** No request but those in gone is lost, and what is in flight stays in flight under its id. */
  predicate Kept(reqs: map<nat, Req>, reqs': map<nat, Req>, gone: set<nat>) {
    forall r {:trigger r in reqs} :: r in reqs && r !in gone ==> r in reqs' && Advanced(reqs[r], reqs'[r])
  }

  lemma KeptAlways(reqs: map<nat, Req>)
    ensures Kept(reqs, reqs, {})
  {
  }

  lemma AdvancedSent(a: Req, b: Req, c: Req)
    requires Advanced(a, b) && Sent(b, c)
    ensures Advanced(a, c)
  {
  }

  lemma KeptPump(a: map<nat, Req>, b: map<nat, Req>, r: nat, c: map<nat, Req>, d: map<nat, Req>)
    requires Kept(a, b, {}) && b.Keys == a.Keys && r in b && b[r].ns.None? && r in c && c == b[r := c[r]]
    requires c[r].ns.Some? && c[r] == b[r].(ns := c[r].ns, transId := c[r].transId)
    requires SameRequests(Marked(c, r), d)
    ensures Kept(a, d, {}) && d.Keys == a.Keys
  {
    assert c.Keys == b.Keys;
    hide Sent;
    forall t {:trigger t in a} | t in a ensures t in d && Advanced(a[t], d[t]) {
      assert t in b && t in c && t in d;
      if t == r {
        LaunchedSent(a[r], b[r], c[r], d[r]);
      } else {
        AdvancedSent(a[t], b[t], d[t]);
      }
    }
  }

  lemma LaunchedSent(a: Req, b: Req, c: Req, d: Req)
    requires Advanced(a, b) && b.ns.None? && c.ns.Some? && c == b.(ns := c.ns, transId := c.transId)
    requires Sent(c.(transmitMe := true), d)
    ensures Advanced(a, d)
  {
  }

  lemma LandRing(servers: seq<Server>, ring: seq<nat>, head: nat, s: nat)
    requires RingOk(servers, ring, head) && s < |servers|
    ensures var servers' := servers[s := servers[s].(inflight := servers[s].inflight - 1)];
            RingOk(servers', ring, head) && Ups(servers') == Ups(servers) && SameStates(servers, servers')
  {
  }

  /** A request made just now: it waits, or was in flight and sent at most once. */
  predicate Fresh(q: Req) {
    if q.ns.None? then q == Req(None, q.transId, 0, 0, false, 0, false) else Sent(Req(q.ns, q.transId, 0, 0, true, 0, false), q)
  }

  /** Request a goes to another server, to be sent there from the start. */
  predicate Reissued(a: Req, b: Req) {
    b.ns.Some? && b == a.(ns := b.ns, txCount := 0, reissues := a.reissues + 1, transmitMe := true)
  }

  /** The servers with server s up, its probe dropped if it was down. */
  function Raised(servers: seq<Server>, s: nat): (t: seq<Server>)
    requires s < |servers|
    ensures |t| == |servers|
  {
    servers[s := servers[s].(up := true, probe := if servers[s].up then servers[s].probe else None)]
  }

  /** The probe that is cancelled when server s comes up. */
  function Dropped(servers: seq<Server>, s: nat): set<nat>
    requires s < |servers|
  {
    if !servers[s].up && servers[s].probe.Some? then {servers[s].probe.value} else {}
  }

  /** The servers when server s has forgotten r if that was its probe. */
  function Probed(servers: seq<Server>, s: nat, r: nat): (t: seq<Server>)
    requires s < |servers|
    ensures |t| == |servers|
  {
    if servers[s].probe == Some(r) then servers[s := servers[s].(probe := None)] else servers
  }

  /** Another server than s is up. */
  predicate Others(servers: seq<Server>, s: nat) {
    exists t :: 0 <= t < |servers| && t != s && servers[t].up
  }

  lemma AlreadyUp(servers: seq<Server>, s: nat)
    requires s < |servers| && servers[s].up
    ensures Raised(servers, s) == servers && Dropped(servers, s) == {} && NoneUp(servers, servers)
  {
  }

  lemma StillDown(servers: seq<Server>, servers': seq<Server>, s: nat)
    requires NoneUp(servers, servers') && s < |servers| && !servers[s].up
    ensures s < |servers'| && !servers'[s].up
    ensures var v := servers'[s].(probe := None, up := true, failedTimes := 0, timedout := 0);
            NoneUp(Raised(servers, s), servers'[s := v])
  {
  }

  lemma DownStill(servers: seq<Server>, servers': seq<Server>, s: nat)
    requires NoneUp(servers, servers') && s < |servers|
    ensures s < |servers'| && (!servers[s].up ==> !servers'[s].up)
  {
  }

  lemma NotDropped(servers: seq<Server>, s: nat, r: nat)
    requires s < |servers| && servers[s].probe != Some(r)
    ensures r !in Dropped(servers, s)
  {
  }

  /** Request q, new, was attempted with server s, and moved on only if that failed just now. */
  predicate FirstSent(s: nat, servers: seq<Server>, q: Req, servers': seq<Server>, attempts: int, came: nat) {
    && s < |servers| && s < |servers'| && servers'[s].probe == servers[s].probe
    && (attempts == if servers[s].choked then 0 else 1)
    && (q.ns != Some(s) ==> servers[s].up && !servers'[s].up)
    && (q.transmitMe <==> attempts == 0 || came == 1)
  }

  lemma FirstAttempted(servers1: seq<Server>, s: nat, reqs1: map<nat, Req>, servers2: seq<Server>, reqs: map<nat, Req>,
                       servers: seq<Server>, r: nat, n: int, came: nat, res: nat)
    requires SameStates(servers1, servers2) && s < |servers1| && Transmitted(reqs1, servers2, reqs, servers, r)
    requires r in reqs1 && reqs1[r].ns == Some(s) && !reqs1[r].transmitMe && Attempted(reqs1, servers2, reqs, servers, r, n, came, res)
    ensures r in reqs && FirstSent(s, servers1, reqs[r], servers, n, came)
  {
  }

  lemma KeptTrans(a: map<nat, Req>, b: map<nat, Req>, c: map<nat, Req>, gone: set<nat>, more: set<nat>)
    requires Kept(a, b, gone) && b.Keys == a.Keys - gone && Kept(b, c, more) && c.Keys == b.Keys - more
    ensures Kept(a, c, gone + more) && c.Keys == a.Keys - (gone + more)
    ensures Kept(a, c, more + gone) && c.Keys == a.Keys - (more + gone)
  {
    hide Advanced;
    assert more + gone == gone + more;
    forall t {:trigger t in a} | t in a && t !in gone + more ensures t in c && Advanced(a[t], c[t]) {
      assert t in b;
      assert t in c;
      AdvancedTrans(a[t], b[t], c[t]);
    }
  }

  lemma AdvancedTrans(a: Req, b: Req, c: Req)
    requires Advanced(a, b) && Advanced(b, c)
    ensures Advanced(a, c)
  {
  }

  // ---------------------------------------------------------------- timeouts and bad replies

  /** Server s has one timeout more, or has failed for it was too many. */
  predicate TimeoutCounted(servers: seq<Server>, servers': seq<Server>, s: nat, maxTimeouts: nat) {
    && |servers'| == |servers| && s < |servers|
    && forall t {:trigger servers'[t]} :: 0 <= t < |servers'| ==>
      && servers'[t].choked == servers[t].choked && servers'[t].probe == servers[t].probe
      && servers'[t].up == (servers[t].up && !(t == s && servers[s].timedout >= maxTimeouts))
      && servers'[t].timedout
         == (if t != s then servers[t].timedout else if servers[t].timedout >= maxTimeouts then 0 else servers[t].timedout + 1)
  }

  lemma ManyTimeouts(servers: seq<Server>, v: Server, servers': seq<Server>, s: nat, maxTimeouts: nat)
    requires s < |servers| && v == servers[s].(timedout := 0) && servers[s].timedout >= maxTimeouts
    requires Failed(servers[s := v], servers', s)
    ensures TimeoutCounted(servers, servers', s, maxTimeouts)
  {
  }

  lemma FewTimeouts(servers: seq<Server>, v: Server, s: nat, maxTimeouts: nat)
    requires s < |servers| && v == servers[s].(timedout := servers[s].timedout + 1) && servers[s].timedout < maxTimeouts
    ensures TimeoutCounted(servers, servers[s := v], s, maxTimeouts)
  {
  }

  /** The requests with the timeout of r over. */
  function Stopped(reqs: map<nat, Req>, r: nat): map<nat, Req> {
    if r in reqs then reqs[r := reqs[r].(timer := false)] else reqs
  }

  /** Request r was sent once more, to server to, unless that is choked; server at is the one whose timeout counts. */
  predicate Retried(reqs: map<nat, Req>, servers: seq<Server>, reqs': map<nat, Req>, servers': seq<Server>, r: nat,
                    to: nat, at: nat, attempts: int, came: nat, maxTimeouts: nat) {
    && SameRequests(Marked(Stopped(reqs, r), r), reqs') && r in reqs && r in reqs'
    && (reqs'[r].transmitMe ==> SomeChoked(servers'))
    && to < |servers| && at < |servers| && |servers'| == |servers| && (attempts == 0 || came != 2 ==> at == to)
    && (attempts == if servers[to].choked then 0 else 1)
    && reqs'[r] == Counted(reqs[r].(timer := false), attempts == 1 && came != 1).(ns := reqs'[r].ns)
    && (if attempts == 1 && came != 1 then OnceMore(reqs[r], reqs'[r]) else reqs'[r].transmitMe && reqs'[r].txCount == reqs[r].txCount)
    && (servers[at].timedout >= maxTimeouts ==> !servers'[at].up)
    && (forall t {:trigger servers'[t]} :: 0 <= t < |servers| ==>
          servers'[t].timedout
          == (if t != at then servers[t].timedout else if servers[t].timedout >= maxTimeouts then 0 else servers[t].timedout + 1))
  }

  lemma RetriedNow(reqs0: map<nat, Req>, servers0: seq<Server>, reqs1: map<nat, Req>, servers1: seq<Server>,
                   reqs2: map<nat, Req>, servers2: seq<Server>, reqs: map<nat, Req>, servers: seq<Server>, r: nat,
                   to: nat, at: nat, n: int, came: nat, res: nat, maxTimeouts: nat)
    requires r in Inflight(reqs0) && r in reqs1 && reqs1 == reqs0[r := reqs0[r].(ns := Some(to), timer := false)]
    requires SameStates(servers0, servers1)
    requires to < |servers1| && Transmitted(reqs1, servers1, reqs2, servers2, r)
    requires Attempted(reqs1, servers1, reqs2, servers2, r, n, came, res)
    requires r in reqs2 && reqs2[r].ns == Some(at) && Reassigned(reqs2, reqs, at) && TimeoutCounted(servers2, servers, at, maxTimeouts)
    ensures Retried(reqs0, servers0, reqs, servers, r, to, at, n, came, maxTimeouts) && NoneUp(servers0, servers)
    ensures Kept(reqs0, reqs, {r}) && reqs.Keys == reqs0.Keys && r in Inflight(reqs) && Tended(reqs0, servers0, reqs, servers)
  {
    hide Kept, NoneUp, Transmitted, SameStates, Reassigned, TimeoutCounted, Attempted, Tended, Retried, SomeChoked, Inflight;
    var a := Stopped(reqs0, r);
    InflightStopped(reqs0, r);
    assert reqs1 == a[r := a[r].(ns := Some(to))] by { StoppedIs(reqs0, r); }
    TransmittedFacts(reqs1, servers1, reqs2, servers2, r);
    hide SameRequests, AfterSending, Marked, Stopped;
    RetriedRequests(a, reqs1, reqs2, reqs, r, to, at);
    RetriedServers(servers0, servers1, servers2, servers, at, maxTimeouts);
    StateOf(servers0, servers1, to);
    SentOnce(reqs1, servers1, reqs2, servers2, r, n, came, res, a, to, at);
    MarkedChoked(reqs1, servers1, reqs2, servers2, servers, r, at, maxTimeouts);
    RetriedEnd(reqs0, servers0, reqs, servers, r, to, at, n, came, maxTimeouts);
  }

  lemma InflightStopped(reqs: map<nat, Req>, r: nat)
    requires r in Inflight(reqs)
    ensures r in reqs && r in Stopped(reqs, r) && r in Inflight(Stopped(reqs, r))
    ensures Stopped(reqs, r).Keys == reqs.Keys && Stopped(reqs, r)[r] == reqs[r].(timer := false)
  {
  }

  lemma RetriedEnd(reqs0: map<nat, Req>, servers0: seq<Server>, reqs: map<nat, Req>, servers: seq<Server>, r: nat,
                   to: nat, at: nat, n: int, came: nat, maxTimeouts: nat)
    requires r in reqs0 && r in reqs && SameRequests(Marked(Stopped(reqs0, r), r), reqs) && NoneUp(servers0, servers)
    requires to < |servers0| && at < |servers0| && |servers| == |servers0| && (n == 0 || came != 2 ==> at == to)
    requires (n == if servers0[to].choked then 0 else 1) && (reqs[r].transmitMe ==> SomeChoked(servers))
    requires reqs[r] == Counted(reqs0[r].(timer := false), n == 1 && came != 1).(ns := reqs[r].ns)
    requires servers0[at].timedout >= maxTimeouts ==> !servers[at].up
    requires forall t {:trigger servers[t]} :: 0 <= t < |servers0| ==>
               servers[t].timedout
               == (if t != at then servers0[t].timedout else if servers0[t].timedout >= maxTimeouts then 0 else servers0[t].timedout + 1)
    ensures Retried(reqs0, servers0, reqs, servers, r, to, at, n, came, maxTimeouts)
    ensures Kept(reqs0, reqs, {r}) && reqs.Keys == reqs0.Keys && Tended(reqs0, servers0, reqs, servers)
  {
    var a := Stopped(reqs0, r);
    MarkedIs(a, r);
    assert Marked(a, r) == reqs0[r := Counted(a[r], false)];
    assert Attended(reqs[r], servers);
    hide SomeChoked, NoneUp;
    assert Retried(reqs0, servers0, reqs, servers, r, to, at, n, came, maxTimeouts);
    KeptMarked(a, r, reqs);
    StillKept(reqs0, a, r, reqs);
    hide Kept, Retried, SameRequests, Tended;
    TendedSame(reqs0, servers0, r, Counted(a[r], false), reqs, servers);
    assert reqs.Keys == reqs0.Keys;
  }

  lemma TransmittedFacts(reqs: map<nat, Req>, servers: seq<Server>, reqs': map<nat, Req>, servers': seq<Server>, r: nat)
    requires Transmitted(reqs, servers, reqs', servers', r)
    ensures SameRequests(Marked(reqs, r), reqs') && AfterSending(servers, servers')
  {
  }

  lemma StoppedIs(reqs: map<nat, Req>, r: nat)
    requires r in reqs
    ensures Stopped(reqs, r) == reqs[r := reqs[r].(timer := false)]
  {
  }

  lemma MarkedIs(a: map<nat, Req>, r: nat)
    requires r in a
    ensures Marked(a, r) == a[r := Counted(a[r], false)]
  {
  }

  lemma StillKept(a: map<nat, Req>, b: map<nat, Req>, r: nat, c: map<nat, Req>)
    requires b.Keys == a.Keys && (forall t {:trigger t in a} :: t in a && t != r ==> b[t] == a[t]) && Kept(b, c, {r})
    ensures Kept(a, c, {r})
  {
    hide Advanced;
    forall t {:trigger t in a} | t in a && t !in {r} ensures t in c && Advanced(a[t], c[t]) {
      assert t in b;
    }
  }

  lemma MarkedChoked(reqs1: map<nat, Req>, servers1: seq<Server>, reqs2: map<nat, Req>, servers2: seq<Server>,
                     servers: seq<Server>, r: nat, at: nat, maxTimeouts: nat)
    requires Transmitted(reqs1, servers1, reqs2, servers2, r) && r in reqs2 && TimeoutCounted(servers2, servers, at, maxTimeouts)
    ensures reqs2[r].transmitMe ==> SomeChoked(servers)
  {
    if reqs2[r].transmitMe {
      var s :| 0 <= s < |servers2| && servers2[s].choked && (reqs2[r].ns == Some(s) || !servers2[s].up);
      assert servers[s].choked;
    }
  }

  lemma StateOf(servers: seq<Server>, servers': seq<Server>, s: nat)
    requires SameStates(servers, servers') && s < |servers'|
    ensures s < |servers| && servers'[s].choked == servers[s].choked
  {
  }

  lemma SentOnce(reqs: map<nat, Req>, servers: seq<Server>, reqs': map<nat, Req>, servers': seq<Server>, r: nat,
                 n: int, came: nat, res: nat, reqs0: map<nat, Req>, to: nat, at: nat)
    requires Attempted(reqs, servers, reqs', servers', r, n, came, res) && r in reqs0 && reqs == reqs0[r := reqs0[r].(ns := Some(to))]
    requires r in reqs' && reqs'[r].ns == Some(at)
    ensures to < |servers| && (n == 0 || came != 2 ==> at == to) && (n == if servers[to].choked then 0 else 1)
    ensures reqs'[r] == Counted(reqs0[r], n == 1 && came != 1).(ns := reqs'[r].ns)
  {
  }

  lemma RetriedRequests(reqs0: map<nat, Req>, reqs1: map<nat, Req>, reqs2: map<nat, Req>, reqs: map<nat, Req>, r: nat, to: nat, at: nat)
    requires r in Inflight(reqs0) && reqs1 == reqs0[r := reqs0[r].(ns := Some(to))] && SameRequests(Marked(reqs1, r), reqs2)
    requires Reassigned(reqs2, reqs, at)
    ensures SameRequests(Marked(reqs0, r), reqs) && reqs.Keys == reqs0.Keys
    ensures r in reqs && r in Inflight(reqs) && r in reqs2 && reqs[r] == reqs2[r].(ns := reqs[r].ns)
  {
    var a, b := Marked(reqs0, r), Marked(reqs1, r);
    assert a.Keys == b.Keys == reqs2.Keys;
    forall t {:trigger t in reqs} | t in reqs ensures Sent(a[t], reqs[t]) {
      assert t in reqs2 && t in b;
    }
    assert r in reqs;
  }

  lemma RetriedServers(servers0: seq<Server>, servers1: seq<Server>, servers2: seq<Server>, servers: seq<Server>,
                       at: nat, maxTimeouts: nat)
    requires SameStates(servers0, servers1) && AfterSending(servers1, servers2) && TimeoutCounted(servers2, servers, at, maxTimeouts)
    ensures NoneUp(servers0, servers) && at < |servers0| && |servers| == |servers0|
    ensures servers0[at].timedout >= maxTimeouts ==> !servers[at].up
    ensures forall t {:trigger servers[t]} :: 0 <= t < |servers0| ==>
              servers[t].timedout
              == (if t != at then servers0[t].timedout else if servers0[t].timedout >= maxTimeouts then 0 else servers0[t].timedout + 1)
  {
    forall t {:trigger servers[t]} | 0 <= t < |servers|
      ensures servers[t].up ==> servers0[t].up
      ensures servers0[t].choked ==> servers[t].choked
      ensures servers[t].probe == servers0[t].probe && servers2[t].timedout == servers0[t].timedout
    {
      assert servers2[t].probe == servers1[t].probe;
    }
    assert servers2[at].timedout == servers0[at].timedout;
  }

  lemma RetriedSent(reqs: map<nat, Req>, servers: seq<Server>, reqs': map<nat, Req>, servers': seq<Server>, r: nat,
                    to: nat, at: nat, attempts: int, came: nat, maxTimeouts: nat)
    requires Retried(reqs, servers, reqs', servers', r, to, at, attempts, came, maxTimeouts)
    ensures r in reqs && r in reqs' && Sent(reqs[r].(timer := false, transmitMe := true), reqs'[r])
  {
  }

  /** While another server is up, one is left when server s has failed. */
  lemma FailedOthers(servers: seq<Server>, servers': seq<Server>, s: nat, good: int)
    requires Failed(servers, servers', s) && good == |Ups(servers')|
    ensures Others(servers, s) ==> good > 0
    ensures s < |servers'| ==> !servers'[s].up
  {
    if Others(servers, s) {
      var t :| 0 <= t < |servers| && t != s && servers[t].up;
      assert servers'[t].up;
      assert t in Ups(servers');
    }
  }

  /** Request r when its server s has failed: it may have moved only if it was not sent yet. */
  lemma FailedRequest(reqs: map<nat, Req>, reqs': map<nat, Req>, servers: seq<Server>, servers': seq<Server>, s: nat, r: nat)
    requires Reassigned(reqs, reqs', s) && Failed(servers, servers', s) && r in Inflight(reqs)
    ensures SameRequests(reqs, reqs') && NoneUp(servers, servers') && r in Inflight(reqs') && r in reqs && r in reqs'
    ensures reqs'[r] == reqs[r].(ns := reqs'[r].ns) && (reqs[r].txCount > 0 ==> reqs'[r].ns == reqs[r].ns)
  {
    ReassignedSame(reqs, reqs', s);
    FailedSending(servers, servers', s);
  }

  lemma ReissuedNow(reqs0: map<nat, Req>, reqs1: map<nat, Req>, reqs: map<nat, Req>, servers0: seq<Server>, servers1: seq<Server>,
                    servers: seq<Server>, s: nat, r: nat, res: nat)
    requires SameRequests(reqs0, reqs1) && r in reqs0 && r in reqs1 && reqs1[r] == reqs0[r].(ns := reqs1[r].ns) && r in reqs
    requires res == 0 ==> reqs == reqs1[r := reqs[r]] && Reissued(reqs1[r], reqs[r])
    requires res != 0 ==> reqs == reqs1
    requires NoneUp(servers0, servers1) && SameStates(servers1, servers) && s < |servers1| && !servers1[s].up
    ensures Kept(reqs0, reqs, {r}) && reqs.Keys == reqs0.Keys && NoneUp(servers0, servers) && |servers| == |servers0| && !servers[s].up
    ensures res == 0 ==> Reissued(reqs0[r], reqs[r])
    ensures res != 0 ==> Kept(reqs0, reqs, {})
  {
    KeptRequests(reqs0, reqs1, {});
    UpAlways(servers);
    UpPump(servers0, servers1, servers, servers, servers);
    hide Advanced;
    forall t {:trigger t in reqs0} | t in reqs0 && t !in {r} ensures t in reqs && Advanced(reqs0[t], reqs[t]) {
      assert t in reqs1;
    }
  }

  lemma KeptFinish(a: map<nat, Req>, r: nat, c: map<nat, Req>)
    requires Kept(a - {r}, c, {}) && c.Keys == (a - {r}).Keys
    ensures Kept(a, c, {r}) && c.Keys == a.Keys - {r}
  {
    var b := a - {r};
    hide Advanced;
    forall t {:trigger t in a} | t in a && t !in {r} ensures t in c && Advanced(a[t], c[t]) {
      assert t in b && b[t] == a[t];
    }
  }

  lemma InFlight(reqs: map<nat, Req>, r: nat)
    requires r in reqs && reqs[r].ns.Some?
    ensures r in Inflight(reqs)
  {
  }

  /** A new request went into flight and was attempted. */
  lemma KeptNew(a: map<nat, Req>, servers: seq<Server>, r: nat, q: Req, b: map<nat, Req>, servers1: seq<Server>,
                c: map<nat, Req>, servers2: seq<Server>)
    requires r !in a && b == a[r := q] && q.ns.Some? && q == Req(q.ns, q.transId, 0, 0, false, 0, false)
    requires SameStates(servers, servers1) && Transmitted(b, servers1, c, servers2, r)
    ensures Kept(a, c, {}) && c.Keys == a.Keys + {r} && r in c && c[r].ns.Some? && Fresh(c[r]) && NoneUp(servers, servers2)
  {
    UpAlways(servers);
    AfterTransmitting(b, servers1, c, servers2, r);
    UpPump(servers, servers, servers1, servers2, servers2);
    hide SameStates, NoneUp, Transmitted;
    assert Marked(b, r).Keys == a.Keys + {r};
    forall t {:trigger t in a} | t in a ensures t in c && Advanced(a[t], c[t]) {
      assert t in b && b[t] == a[t];
      assert t in c;
    }
    assert r in c;
  }

  lemma TendedFirst(a: map<nat, Req>, servers: seq<Server>, r: nat, q: Req, b: map<nat, Req>, servers1: seq<Server>,
                    c: map<nat, Req>, servers2: seq<Server>)
    requires r !in a && b == a[r := q] && q.ns.Some? && q == Req(q.ns, q.transId, 0, 0, false, 0, false)
    requires SameStates(servers, servers1) && Transmitted(b, servers1, c, servers2, r)
    ensures Tended(a, servers, c, servers2)
  {
    KeptNew(a, servers, r, q, b, servers1, c, servers2);
    AfterTransmitting(b, servers1, c, servers2, r);
    if c[r].transmitMe {
      BlockedChoked(servers2, c[r]);
    }
    hide SameStates, NoneUp, Transmitted, SomeChoked, Kept;
    assert Marked(b, r).Keys == a.Keys + {r};
    forall t {:trigger t in a} | t in a && a[t].ns.None? ensures c[t] == a[t] {
      assert t in b && t in c;
    }
    TendedNew(a, servers, c, servers2, r);
  }

  lemma BlockedChoked(servers: seq<Server>, q: Req)
    requires Blocked(servers, q)
    ensures SomeChoked(servers)
  {
  }

  lemma TendedQueued(a: map<nat, Req>, servers: seq<Server>, r: nat, q: Req)
    requires r !in a && q.ns.None?
    ensures Tended(a, servers, a[r := q], servers)
  {
  }

  lemma KeptQueued(a: map<nat, Req>, r: nat, q: Req)
    requires r !in a && q == Req(None, q.transId, 0, 0, false, 0, false)
    ensures Kept(a, a[r := q], {}) && a[r := q].Keys == a.Keys + {r} && Fresh(q)
  {
    assert forall t {:trigger t in a} :: t in a ==> Advanced(a[t], a[r := q][t]);
  }

  lemma StatesLength(a: seq<Server>, b: seq<Server>)
    requires SameStates(a, b)
    ensures |b| == |a|
  {
  }

  datatype Answer = Definite | BadServer | ServerFailed

  lemma SameTrans0(a: map<nat, Req>, b: map<nat, Req>, r: nat)
    requires SameRequests(a, b)
    ensures r in Inflight(a) ==> r in Inflight(b) && r in b
    ensures b.Keys == a.Keys
  {
  }

  lemma KeptSame(a: map<nat, Req>, b: map<nat, Req>, c: map<nat, Req>, gone: set<nat>)
    requires Kept(a, b, gone) && SameRequests(b, c)
    ensures Kept(a, c, gone) && c.Keys == b.Keys
  {
    hide Sent, Advanced;
    forall t {:trigger t in a} | t in a && t !in gone ensures t in c && Advanced(a[t], c[t]) {
      assert t in b;
      assert t in c;
      AdvancedSent(a[t], b[t], c[t]);
    }
  }

  /** Only r was marked, and then sent at most once. */
  lemma KeptMarked(a: map<nat, Req>, r: nat, c: map<nat, Req>)
    requires SameRequests(Marked(a, r), c) && r in a
    ensures Kept(a, c, {r}) && c.Keys == a.Keys && r in c && Sent(a[r].(transmitMe := true), c[r])
  {
    hide Sent;
    assert Marked(a, r).Keys == a.Keys;
    assert r in c;
    forall t {:trigger t in a} | t in a && t !in {r} ensures t in c && Advanced(a[t], c[t]) {
      assert t in c;
      SentAdvanced(a[t], c[t]);
    }
  }

  lemma SentAdvanced(a: Req, b: Req)
    requires Sent(a, b)
    ensures Advanced(a, b)
  {
  }

  lemma KeptRequests(a: map<nat, Req>, c: map<nat, Req>, gone: set<nat>)
    requires SameRequests(a, c)
    ensures Kept(a, c, gone) && c.Keys == a.Keys
  {
    hide Sent, Advanced;
    forall t {:trigger t in a} | t in a ensures t in c && Advanced(a[t], c[t]) {
      assert t in c;
      SentAdvanced(a[t], c[t]);
    }
  }

  /** The requests in flight whose list among n is before list i. */
  function Below(reqs: map<nat, Req>, n: nat, i: nat): set<nat>
    requires n > 0
  {
    set r | r in Inflight(reqs) && Slot(reqs[r].transId, n) < i
  }

  function Elements(q: seq<nat>, j: nat): set<nat>
    requires j <= |q|
  {
    set k | 0 <= k < j :: q[k]
  }

  /** The requests in done, and only they, are in the lists their ids have. */
  predicate Rehashed(reqs: map<nat, Req>, lists: seq<seq<nat>>, done: set<nat>) {
    && |lists| > 0 && Lengths(lists) == |done|
    && forall k {:trigger lists[k]} :: 0 <= k < |lists| ==> ListOf(reqs, lists[k], done, k, |lists|)
  }

  predicate ListOf(reqs: map<nat, Req>, q: seq<nat>, done: set<nat>, k: nat, n: nat)
    requires n > 0
  {
    && NoDuplicates(q)
    && (forall r {:trigger r in q} :: r in q ==> r in done && r in reqs && Slot(reqs[r].transId, n) == k)
    && (forall r {:trigger r in done} :: r in done && r in reqs && Slot(reqs[r].transId, n) == k ==> r in q)
  }

  lemma {:induction false} RehashStart(reqs: map<nat, Req>, lists: seq<seq<nat>>, n: nat)
    requires n > 0 && |lists| > 0 && forall k {:trigger lists[k]} :: 0 <= k < |lists| ==> lists[k] == []
    ensures Rehashed(reqs, lists, Below(reqs, n, 0))
  {
    NoLengths(lists);
    assert Below(reqs, n, 0) == {};
  }

  lemma RehashStep(reqs: map<nat, Req>, lists: seq<seq<nat>>, done: set<nat>, r: nat)
    requires Rehashed(reqs, lists, done) && r in reqs && r !in done
    ensures Rehashed(reqs, InsertInto(lists, reqs[r].transId, r), done + {r})
  {
    var id := reqs[r].transId;
    var out, p := InsertInto(lists, id, r), Slot(id, |lists|);
    LengthsUpdate(lists, p, lists[p] + [r]);
    hide Slot;
    forall k {:trigger out[k]} | 0 <= k < |out| ensures ListOf(reqs, out[k], done + {r}, k, |out|) {
      assert ListOf(reqs, lists[k], done, k, |lists|);
      if k == p {
        AppendOne(lists[k], r);
      }
    }
  }

  lemma OldList(reqs: map<nat, Req>, heads: seq<seq<nat>>, i: nat)
    requires BucketsOk(reqs, heads) && i < |heads|
    ensures forall r :: r in Below(reqs, |heads|, i + 1) <==> r in Below(reqs, |heads|, i) || r in heads[i]
    ensures Elements(heads[i], 0) == {}
  {
    assert BucketOk(reqs, heads[i], i, |heads|);
    hide Slot, NoDuplicates;
  }

  lemma ListElement(reqs: map<nat, Req>, heads: seq<seq<nat>>, i: nat, j: nat)
    requires BucketsOk(reqs, heads) && i < |heads| && j < |heads[i]|
    ensures heads[i][j] in reqs && heads[i][j] !in Below(reqs, |heads|, i) + Elements(heads[i], j)
    ensures Elements(heads[i], j + 1) == Elements(heads[i], j) + {heads[i][j]}
    ensures forall r :: r in Elements(heads[i], |heads[i]|) <==> r in heads[i]
  {
    var q := heads[i];
    assert BucketOk(reqs, q, i, |heads|);
    assert q[j] in q;
    hide Slot;
  }

  lemma RehashEnd(reqs: map<nat, Req>, heads: seq<seq<nat>>, lists: seq<seq<nat>>, waiting: seq<nat>, servers: seq<Server>,
                  inflightCount: int, waitingCount: int, nextReq: nat)
    requires Consistent(reqs, heads, waiting, servers, inflightCount, waitingCount, nextReq)
    requires |heads| > 0 && Rehashed(reqs, lists, Below(reqs, |heads|, |heads|))
    ensures Consistent(reqs, lists, waiting, servers, inflightCount, waitingCount, nextReq)
  {
    assert Below(reqs, |heads|, |heads|) == Inflight(reqs);
    hide Slot;
    forall k {:trigger lists[k]} | 0 <= k < |lists| ensures BucketOk(reqs, lists[k], k, |lists|) {
      assert ListOf(reqs, lists[k], Inflight(reqs), k, |lists|);
      forall r {:trigger r in reqs} | r in reqs && reqs[r].ns.Some? && Slot(reqs[r].transId, |lists|) == k ensures r in lists[k] {
        assert r in Inflight(reqs);
      }
      forall r {:trigger r in lists[k]} | r in lists[k] ensures r in reqs && reqs[r].ns.Some? {
        assert r in Inflight(reqs);
      }
    }
  }

  lemma ServerAdded(reqs: map<nat, Req>, heads: seq<seq<nat>>, waiting: seq<nat>, servers: seq<Server>,
                    inflightCount: int, waitingCount: int, nextReq: nat, v: Server)
    requires Consistent(reqs, heads, waiting, servers, inflightCount, waitingCount, nextReq) && v.inflight == 0 && v.up
    ensures Consistent(reqs, heads, waiting, servers + [v], inflightCount, waitingCount, nextReq)
    ensures |Ups(servers + [v])| == |Ups(servers)| + 1
  {
    assert Assigned(reqs, |servers|) == {};
    assert Ups(servers + [v]) == Ups(servers) + {|servers|};
    hide BucketsOk, WaitingOk, IdsOk;
  }

  lemma RingAdded(servers: seq<Server>, ring: seq<nat>, head: nat, v: Server, ring': seq<nat>)
    requires RingOk(servers, ring, head)
    requires |ring| == 0 ==> ring' == [|servers|] && head == 0
    requires |ring| > 0 ==> head < |ring| && ring' == ring[..head + 1] + [|servers|] + ring[head + 1..]
    ensures RingOk(servers + [v], ring', head)
  {
    var t := servers + [v];
    if |ring| > 0 {
      assert ring'[head + 1] == |servers|;
      forall s: nat {:trigger s in ring'} | s < |t| ensures s in ring' {
        if s < |servers| {
          assert s in ring;
          var k :| 0 <= k < |ring| && ring[k] == s;
          assert ring'[if k <= head then k else k + 1] == s;
        }
      }
    }
  }

  /** The place behind h in a ring of n. */
  function Next(h: nat, n: nat): nat {
    if h + 1 >= n then 0 else h + 1
  }

  /** The server k turns behind the one at place from of the ring. */
  function InTurn(ring: seq<nat>, from: nat, k: nat): nat
    requires |ring| > 0
  {
    ring[(from + k) % |ring|]
  }

  /** The first server that is up, from one place of the ring on, is s, and the next one's turn is at place to. */
  ghost predicate Picked(servers: seq<Server>, ring: seq<nat>, from: nat, k: nat, s: nat, to: nat) {
    && k < |ring| && s == InTurn(ring, from, k) && to == (from + k + 1) % |ring|
    && forall j: nat {:trigger InTurn(ring, from, j)} :: j < k ==> InTurn(ring, from, j) < |servers| && !servers[InTurn(ring, from, j)].up
  }

  lemma FirstTurns(ring: seq<nat>, start: nat)
    requires start < |ring|
    ensures Around(start, 0, |ring|) == start && Next(start, |ring|) == (start + 1) % |ring|
    ensures ring[Next(start, |ring|)] == InTurn(ring, start, 1)
  {
    SmallMod(start + 1, |ring|);
  }

  lemma NextTurn(ring: seq<nat>, start: nat, k: nat)
    requires start < |ring| && k < |ring|
    ensures Around(start, k, |ring|) < |ring| && Next(Around(start, k, |ring|), |ring|) < |ring|
    ensures Next(Around(start, k, |ring|), |ring|) == Around(start, k + 1, |ring|)
    ensures Next(Around(start, k, |ring|), |ring|) != start ==> k + 1 < |ring|
  {
  }

  /** The k servers from start on are down. */
  predicate DownBefore(servers: seq<Server>, ring: seq<nat>, start: nat, k: nat) {
    forall j {:trigger Around(start, j, |ring|)} :: 0 <= j < k ==>
      var i := Around(start, j, |ring|); i < |ring| && ring[i] < |servers| && !servers[ring[i]].up
  }

  lemma DownNone(servers: seq<Server>, ring: seq<nat>, start: nat)
    ensures DownBefore(servers, ring, start, 0)
  {
  }

  lemma DownMore(servers: seq<Server>, ring: seq<nat>, start: nat, k: nat)
    requires DownBefore(servers, ring, start, k) && Around(start, k, |ring|) < |ring|
    requires ring[Around(start, k, |ring|)] < |servers|
    ensures !servers[ring[Around(start, k, |ring|)]].up ==> DownBefore(servers, ring, start, k + 1)
  {
  }

  lemma PickedNow(servers: seq<Server>, ring: seq<nat>, start: nat, k: nat)
    requires start < |ring| && k < |ring| && (forall i {:trigger ring[i]} :: 0 <= i < |ring| ==> ring[i] < |servers|)
    requires DownBefore(servers, ring, start, k)
    ensures Around(start, k, |ring|) < |ring|
    ensures Picked(servers, ring, start, k, ring[Around(start, k, |ring|)], Next(Around(start, k, |ring|), |ring|))
  {
    SmallMod(start + k, |ring|);
    SmallMod(start + k + 1, |ring|);
    forall j: nat {:trigger InTurn(ring, start, j)} | j < k
      ensures InTurn(ring, start, j) < |servers| && !servers[InTurn(ring, start, j)].up
    {
      SmallMod(start + j, |ring|);
      assert Around(start, j, |ring|) < |ring|;
    }
  }

  lemma SmallMod(x: nat, n: nat)
    requires 0 < n && x < 2 * n
    ensures x % n == if x < n then x else x - n
  {
    if x >= n {
      assert (x - n) % n == x - n;
      assert x % n == (x - n + n) % n;
    }
  }

  /** The place j steps behind start. */
  function Around(start: nat, j: nat, n: nat): nat {
    if start + j < n then start + j else start + j - n
  }

  lemma RingSame(servers: seq<Server>, ring: seq<nat>, head: nat, s: nat, v: Server)
    requires RingOk(servers, ring, head) && s < |servers|
    ensures RingOk(servers[s := v], ring, head)
  {
  }

  /** A full round without finding the address. */
  lemma {:induction false} AllOthers(servers: seq<Server>, ring: seq<nat>, start: nat, k: nat, address: nat)
    requires RingOk(servers, ring, start) && start < |ring| && 0 < k <= |ring| && Around(start, k, |ring|) == start
    requires forall j {:trigger Around(start, j, |ring|)} :: 0 <= j < k ==> servers[ring[Around(start, j, |ring|)]].address != address
    ensures forall s {:trigger servers[s]} :: 0 <= s < |servers| ==> servers[s].address != address
  {
    assert k == |ring|;
    forall s {:trigger servers[s]} | 0 <= s < |servers| ensures servers[s].address != address {
      assert s in ring;
      var p :| 0 <= p < |ring| && ring[p] == s;
      var j := if p >= start then p - start else p - start + |ring|;
      assert Around(start, j, |ring|) == p;
    }
  }

  /** A full round without finding a server that is up. */
  lemma {:induction false} AllDown(servers: seq<Server>, ring: seq<nat>, start: nat, k: nat)
    requires RingOk(servers, ring, start) && start < |ring| && 0 < k <= |ring| && Around(start, k, |ring|) == start
    requires DownBefore(servers, ring, start, k)
    ensures Ups(servers) == {}
  {
    assert k == |ring|;
    forall s {:trigger servers[s]} | 0 <= s < |servers| ensures !servers[s].up {
      assert s in ring;
      var p :| 0 <= p < |ring| && ring[p] == s;
      var j := if p >= start then p - start else p - start + |ring|;
      assert Around(start, j, |ring|) == p;
    }
  }
}
