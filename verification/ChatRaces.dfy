/**
 * When chat ids and pairs of users stay unique although requests overlap: exactly when nobody else's
 * chat gets in between looking and inserting.
 */
module ChatRaces {
  import opened ChatServer
  import opened ChatRuns

  // ---------------------------------------------------------------- what happens in a run

  /** The world in front of event n. */
  function At(events: seq<Event>, n: nat): World
    requires n <= |events|
  {
    Run(events[..n])
  }

  /** Request i makes the call of stage s, which takes effect. */
  predicate Performs(w: World, e: Event, i: nat) {
    && e.Calls? && e.i == i && i < |w.running| && !w.running[i].stage.Done? && !e.outcome.Fails?
  }

  /** Event n inserts the chat of request i. */
  predicate InsertsChat(events: seq<Event>, n: nat, i: nat) {
    n < |events| && Performs(At(events, n), events[n], i) && At(events, n).running[i].stage.InsertingChat?
  }

  /** At event n request i reads the greatest chat id. */
  predicate ReadsLastId(events: seq<Event>, n: nat, i: nat) {
    && n < |events| && Performs(At(events, n), events[n], i) && events[n].outcome.Succeeds?
    && At(events, n).running[i].stage.ReadingLastId?
  }

  /** At event n request i looks for the chat of its two users. */
  predicate LooksForChat(events: seq<Event>, n: nat, i: nat) {
    && n < |events| && Performs(At(events, n), events[n], i) && events[n].outcome.Succeeds?
    && At(events, n).running[i].stage.FindingChat?
  }

  /** Some request's chat is inserted after another one has read the last id and before that inserts its own. */
  ghost predicate IdRace(events: seq<Event>) {
    exists r: nat, m: nat, k: nat, i: nat, j: nat ::
      && r < m < k && i != j
      && ReadsLastId(events, r, i) && InsertsChat(events, m, j) && InsertsChat(events, k, i)
  }

  /** The same after looking for a chat, with a chat of the same two users. */
  ghost predicate PairRace(events: seq<Event>) {
    exists r: nat, m: nat, k: nat, i: nat, j: nat ::
      && r < m < k && i != j
      && LooksForChat(events, r, i) && InsertsChat(events, m, j) && InsertsChat(events, k, i)
      && SameUsersAt(events, m, j, k, i)
  }

  predicate SameUsersAt(events: seq<Event>, m: nat, j: nat, k: nat, i: nat)
    requires InsertsChat(events, m, j) && InsertsChat(events, k, i)
  {
    var p, q := At(events, m).running[j].request, At(events, k).running[i].request;
    SamePair(p.sentBy, p.sentTo, q.sentBy, q.sentTo)
  }

  predicate DistinctIds(chats: seq<Chat>) {
    forall a, b {:trigger chats[a], chats[b]} :: 0 <= a < b < |chats| ==> chats[a].id != chats[b].id
  }

  predicate DistinctPairs(chats: seq<Chat>) {
    forall a, b {:trigger chats[a], chats[b]} :: 0 <= a < b < |chats| ==>
      !SamePair(chats[a].user1, chats[a].user2, chats[b].user1, chats[b].user2)
  }

  predicate Taken(chats: seq<Chat>, id: int) {
    exists c :: 0 <= c < |chats| && chats[c].id == id
  }

  predicate Linked(chats: seq<Chat>, u: string, v: string) {
    exists c :: 0 <= c < |chats| && Links(chats[c], u, v)
  }

  function ChatOf(r: Running): Chat
    requires r.stage.InsertingChat?
  {
    Chat(r.stage.id, r.request.sentBy, r.request.sentTo)
  }

  // ---------------------------------------------------------------- one event

  lemma AtNext(events: seq<Event>, n: nat)
    requires n < |events|
    ensures At(events, n + 1) == Next(At(events, n), events[n])
  {
    hide Next;
    var s := events[..n + 1];
    assert s[..|s| - 1] == events[..n];
  }

  lemma NextRank(w: World, e: Event, i: nat)
    requires i < |w.running|
    ensures var v := Next(w, e);
            && i < |v.running| && v.running[i].request == w.running[i].request
            && Rank(v.running[i].stage) <= Rank(w.running[i].stage)
            && (Rank(v.running[i].stage) == Rank(w.running[i].stage) ==> v.running[i] == w.running[i])
            && (Performs(w, e, i) ==> Rank(v.running[i].stage) < Rank(w.running[i].stage))
  {
    hide Continued, Effect, Rank;
    if e.Calls? && e.i == i && !w.running[i].stage.Done? {
      Falls(w.db, w.running[i]);
      DoneRank(w.running[i].stage);
    }
  }

  lemma DoneRank(s: Stage)
    requires !s.Done?
    ensures Rank(Done(DbError)) < Rank(s)
  {
  }

  /** An event adds at most one chat: that of the request that inserts. */
  lemma NextChats(w: World, e: Event)
    ensures var v := Next(w, e);
            && (e.Calls? && Performs(w, e, e.i) && w.running[e.i].stage.InsertingChat? ==>
                  v.db.chats == w.db.chats + [ChatOf(w.running[e.i])])
            && (!(e.Calls? && Performs(w, e, e.i) && w.running[e.i].stage.InsertingChat?) ==>
                  v.db.chats == w.db.chats)
  {
    hide Continued, Pushed, Stored;
  }

  /** A request comes to insert by reading the last id, and to that by not finding a chat. */
  lemma NextStage(w: World, e: Event, i: nat)
    requires i < |Next(w, e).running|
    ensures var r := Next(w, e).running[i];
            && (r.stage.InsertingChat? && !(i < |w.running| && w.running[i] == r) ==>
                  && Performs(w, e, i) && e.outcome.Succeeds? && w.running[i].stage.ReadingLastId?
                  && r.stage.id == NextId(w.db.chats) && r.request == w.running[i].request)
            && (r.stage.ReadingLastId? && !(i < |w.running| && w.running[i] == r) ==>
                  && Performs(w, e, i) && e.outcome.Succeeds? && w.running[i].stage.FindingChat?
                  && !Linked(w.db.chats, r.request.sentBy, r.request.sentTo)
                  && r.request == w.running[i].request)
  {
    hide Effect, NextId, Known, AfterRead, Modifies;
  }

  // ---------------------------------------------------------------- between two points of a run

  lemma {:induction false} Between(events: seq<Event>, a: nat, b: nat, i: nat)
    requires a <= b <= |events| && i < |At(events, a).running|
    ensures i < |At(events, b).running|
    ensures var r, s := At(events, a).running[i], At(events, b).running[i];
            && s.request == r.request && Rank(s.stage) <= Rank(r.stage)
            && (Rank(s.stage) == Rank(r.stage) ==> s == r)
    decreases b - a
  {
    hide Next, Rank, Run;
    if a < b {
      Between(events, a, b - 1, i);
      AtNext(events, b - 1);
      NextRank(At(events, b - 1), events[b - 1], i);
    }
  }

  lemma {:induction false} ChatsGrow(events: seq<Event>, a: nat, b: nat)
    requires a <= b <= |events|
    ensures At(events, a).db.chats <= At(events, b).db.chats
    decreases b - a
  {
    hide Next, Run;
    if a < b {
      ChatsGrow(events, a, b - 1);
      AtNext(events, b - 1);
      NextChats(At(events, b - 1), events[b - 1]);
    }
  }

  lemma AtStart(events: seq<Event>)
    ensures At(events, 0) == EMPTY
  {
  }

  /** Who inserted chat c, and when. */
  lemma {:induction false} Created(events: seq<Event>, k: nat, c: nat) returns (m: nat, j: nat)
    requires k <= |events| && c < |At(events, k).db.chats|
    ensures m < k && InsertsChat(events, m, j) && |At(events, m).db.chats| == c
    ensures At(events, k).db.chats[c] == ChatOf(At(events, m).running[j])
    decreases k
  {
    hide Next, Run, ChatOf;
    if k == 0 {
      AtStart(events);
      assert false;
    } else {
      AtNext(events, k - 1);
      var w, e := At(events, k - 1), events[k - 1];
      NextChats(w, e);
      if c < |w.db.chats| {
        m, j := Created(events, k - 1, c);
      } else {
        m, j := k - 1, e.i;
      }
    }
  }

  /** When the request that is about to insert has read the last id. */
  lemma {:induction false} ReadBefore(events: seq<Event>, k: nat, i: nat) returns (r: nat)
    requires k <= |events| && i < |At(events, k).running| && At(events, k).running[i].stage.InsertingChat?
    ensures r < k && ReadsLastId(events, r, i)
    ensures At(events, k).running[i].stage.id == NextId(At(events, r).db.chats)
    decreases k
  {
    hide Next, Run, NextId;
    if k == 0 {
      AtStart(events);
      assert false;
    } else {
      AtNext(events, k - 1);
      var w, e := At(events, k - 1), events[k - 1];
      NextStage(w, e, i);
      if i < |w.running| && w.running[i] == At(events, k).running[i] {
        r := ReadBefore(events, k - 1, i);
      } else {
        r := k - 1;
      }
    }
  }

  /** When a request that starts a new chat has looked for an old one, in vain. */
  lemma {:induction false} LookedBefore(events: seq<Event>, k: nat, i: nat) returns (r: nat)
    requires k <= |events| && i < |At(events, k).running|
    requires At(events, k).running[i].stage.ReadingLastId? || At(events, k).running[i].stage.InsertingChat?
    ensures r < k && LooksForChat(events, r, i)
    ensures var q := At(events, k).running[i].request; !Linked(At(events, r).db.chats, q.sentBy, q.sentTo)
    decreases k
  {
    hide Next, Run, Linked;
    if k == 0 {
      AtStart(events);
      assert false;
    } else {
      AtNext(events, k - 1);
      var w, e := At(events, k - 1), events[k - 1];
      NextStage(w, e, i);
      if i < |w.running| && (w.running[i] == At(events, k).running[i] || w.running[i].stage.ReadingLastId?) {
        NextRank(w, e, i);
        r := LookedBefore(events, k - 1, i);
      } else {
        r := k - 1;
      }
    }
  }

  /** A request inserts once: an insertion after its own look is another one's until it inserts itself. */
  lemma OtherInserts(events: seq<Event>, m: nat, j: nat, k: nat, i: nat)
    requires m < k && InsertsChat(events, m, j) && InsertsChat(events, k, i)
    ensures i != j
  {
    hide Next, Run;
    if i == j {
      AtNext(events, m);
      NextRank(At(events, m), events[m], i);
      Between(events, m + 1, k, i);
    }
  }

  /** A chat that was not there at r and is there at k was inserted in between. */
  lemma {:induction false} CreatedSince(events: seq<Event>, r: nat, k: nat, c: nat) returns (m: nat, j: nat)
    requires r < k <= |events| && |At(events, r).db.chats| <= c < |At(events, k).db.chats|
    requires forall i :: !InsertsChat(events, r, i)
    ensures r < m < k && InsertsChat(events, m, j)
    ensures At(events, k).db.chats[c] == ChatOf(At(events, m).running[j])
  {
    hide Next, Run;
    m, j := Created(events, k, c);
    if m < r {
      AtNext(events, m);
      NextChats(At(events, m), events[m]);
      ChatsGrow(events, m + 1, r);
    }
  }

  // ---------------------------------------------------------------- ids

  /** Every id that is held is still the next one or is already taken. */
  predicate Held(w: World) {
    forall i {:trigger w.running[i]} :: 0 <= i < |w.running| && w.running[i].stage.InsertingChat? ==>
      w.running[i].stage.id == NextId(w.db.chats) || Taken(w.db.chats, w.running[i].stage.id)
  }

  lemma NextIdAfter(chats: seq<Chat>, c: Chat)
    ensures c.id == NextId(chats) ==> NextId(chats + [c]) == c.id + 1
    ensures Taken(chats, c.id) ==> NextId(chats + [c]) == NextId(chats)
    ensures Taken(chats + [c], c.id)
    ensures forall id :: Taken(chats, id) ==> Taken(chats + [c], id)
  {
    var all := chats + [c];
    assert all[|chats|] == c;
    assert forall k {:trigger chats[k]} {:trigger all[k]} :: 0 <= k < |chats| ==> all[k] == chats[k];
    var n, m := NextId(chats), NextId(all);
    if |chats| > 0 {
      var a :| 0 <= a < |chats| && chats[a].id == n - 1;
      assert all[a].id < m;
    }
    var b :| 0 <= b < |all| && all[b].id == m - 1;
    forall id | Taken(chats, id)
      ensures Taken(all, id)
    {
      var k :| 0 <= k < |chats| && chats[k].id == id;
      assert all[k].id == id;
    }
  }

  lemma HeldNext(w: World, e: Event)
    requires Held(w)
    ensures Held(Next(w, e))
  {
    hide Next, NextId, Taken;
    var v := Next(w, e);
    NextChats(w, e);
    if e.Calls? && Performs(w, e, e.i) && w.running[e.i].stage.InsertingChat? {
      NextIdAfter(w.db.chats, ChatOf(w.running[e.i]));
    }
    forall i {:trigger v.running[i]} | 0 <= i < |v.running| && v.running[i].stage.InsertingChat?
      ensures v.running[i].stage.id == NextId(v.db.chats) || Taken(v.db.chats, v.running[i].stage.id)
    {
      NextStage(w, e, i);
    }
  }

  lemma {:induction false} HeldAt(events: seq<Event>, n: nat)
    requires n <= |events|
    ensures Held(At(events, n))
  {
    hide Next, Run;
    if n == 0 {
      AtStart(events);
    } else {
      AtNext(events, n - 1);
      HeldAt(events, n - 1);
      HeldNext(At(events, n - 1), events[n - 1]);
    }
  }

  lemma FreshId(chats: seq<Chat>, c: Chat)
    requires DistinctIds(chats) && c.id == NextId(chats)
    ensures DistinctIds(chats + [c])
  {
  }

  lemma {:induction false} NoRaceDistinct(events: seq<Event>, n: nat)
    requires !IdRace(events) && n <= |events|
    ensures DistinctIds(At(events, n).db.chats)
    decreases n
  {
    hide Next, Run, NextId, DistinctIds;
    if n == 0 {
      AtStart(events);
      NoChats();
    } else {
      NoRaceDistinct(events, n - 1);
      AtNext(events, n - 1);
      var w, e := At(events, n - 1), events[n - 1];
      NextChats(w, e);
      if e.Calls? && InsertsChat(events, n - 1, e.i) {
        if w.running[e.i].stage.id != NextId(w.db.chats) {
          TooLate(events, n - 1, e.i);
          assert false;
        }
        FreshId(w.db.chats, ChatOf(w.running[e.i]));
      }
    }
  }

  lemma NoChats()
    ensures DistinctIds(EMPTY.db.chats) && DistinctPairs(EMPTY.db.chats)
  {
  }

  /** An id that is not the next one any more when it is inserted has been held through a race. */
  lemma TooLate(events: seq<Event>, k: nat, i: nat)
    requires InsertsChat(events, k, i)
    requires At(events, k).running[i].stage.id != NextId(At(events, k).db.chats)
    ensures IdRace(events)
  {
    hide Next, Run, NextId;
    var r := ReadBefore(events, k, i);
    ChatsGrow(events, r, k);
    var before, now := At(events, r).db.chats, At(events, k).db.chats;
    assert before != now;
    var m, j := CreatedSince(events, r, k, |before|);
    OtherInserts(events, m, j, k, i);
  }

  lemma Duplicate(chats: seq<Chat>, c: Chat, later: seq<Chat>)
    requires Taken(chats, c.id) && chats + [c] <= later
    ensures !DistinctIds(later)
  {
    var a :| 0 <= a < |chats| && chats[a].id == c.id;
    assert (chats + [c])[a] == chats[a] && (chats + [c])[|chats|] == c;
    assert later[a].id == later[|chats|].id;
  }

  /** What an insertion at k leaves at the end of the run. */
  lemma InsertedForGood(events: seq<Event>, k: nat, i: nat)
    requires InsertsChat(events, k, i)
    ensures At(events, k).db.chats + [ChatOf(At(events, k).running[i])] == At(events, k + 1).db.chats
    ensures At(events, k + 1).db.chats <= Run(events).db.chats
  {
    hide Next, Run;
    AtNext(events, k);
    NextChats(At(events, k), events[k]);
    ChatsGrow(events, k + 1, |events|);
    assert events[..|events|] == events;
  }

  lemma StillTaken(chats: seq<Chat>, later: seq<Chat>, id: int)
    requires chats <= later && Taken(chats, id)
    ensures Taken(later, id)
  {
    var c :| 0 <= c < |chats| && chats[c].id == id;
    assert later[c].id == id;
  }

  lemma RaceDuplicates(events: seq<Event>, r: nat, m: nat, k: nat, i: nat, j: nat)
    requires r < m < k && i != j
    requires ReadsLastId(events, r, i) && InsertsChat(events, m, j) && InsertsChat(events, k, i)
    ensures !DistinctIds(Run(events).db.chats)
  {
    hide Next, Run, NextId, Taken, DistinctIds;
    Between(events, r, m, i);
    Waiting(events, r, m, k, i);
    HeldAt(events, m);
    var w := At(events, m);
    var id := w.running[i].stage.id;
    InsertedForGood(events, m, j);
    InsertedForGood(events, k, i);
    NextIdAfter(w.db.chats, ChatOf(w.running[j]));
    if Taken(w.db.chats, w.running[j].stage.id) {
      Duplicate(w.db.chats, ChatOf(w.running[j]), Run(events).db.chats);
    } else {
      ChatsGrow(events, m + 1, k);
      StillTaken(At(events, m + 1).db.chats, At(events, k).db.chats, id);
      Duplicate(At(events, k).db.chats, ChatOf(At(events, k).running[i]), Run(events).db.chats);
    }
  }

  /** Between reading and inserting a request holds its id. */
  lemma Waiting(events: seq<Event>, r: nat, m: nat, k: nat, i: nat)
    requires r < m < k && ReadsLastId(events, r, i) && InsertsChat(events, k, i)
    ensures i < |At(events, m).running| && At(events, m).running[i] == At(events, k).running[i]
  {
    hide Next, Run;
    AtNext(events, r);
    NextRank(At(events, r), events[r], i);
    Between(events, r + 1, m, i);
    Between(events, m, k, i);
  }

  /**
   * For every run, whatever the interleaving and whichever calls fail: chat ids are unique if and only if
   * no chat of another request is inserted between reading the last id and inserting the own chat.
   */
  lemma UniqueIds(events: seq<Event>)
    ensures DistinctIds(Run(events).db.chats) <==> !IdRace(events)
  {
    hide Run, DistinctIds;
    assert events[..|events|] == events;
    if IdRace(events) {
      var r: nat, m: nat, k: nat, i: nat, j: nat :|
        && r < m < k && i != j
        && ReadsLastId(events, r, i) && InsertsChat(events, m, j) && InsertsChat(events, k, i);
      RaceDuplicates(events, r, m, k, i, j);
    } else {
      NoRaceDistinct(events, |events|);
    }
  }

  // ---------------------------------------------------------------- pairs

  lemma NewPair(chats: seq<Chat>, c: Chat)
    requires DistinctPairs(chats) && !Linked(chats, c.user1, c.user2)
    ensures DistinctPairs(chats + [c])
  {
    var all := chats + [c];
    forall a, b | 0 <= a < b < |all|
      ensures !SamePair(all[a].user1, all[a].user2, all[b].user1, all[b].user2)
    {
      if b == |chats| {
        assert !Links(chats[a], c.user1, c.user2);
      }
    }
  }

  lemma OldPair(chats: seq<Chat>, c: Chat, later: seq<Chat>)
    requires Linked(chats, c.user1, c.user2) && chats + [c] <= later
    ensures !DistinctPairs(later)
  {
    var a :| 0 <= a < |chats| && Links(chats[a], c.user1, c.user2);
    assert (chats + [c])[a] == chats[a] && (chats + [c])[|chats|] == c;
    assert SamePair(later[a].user1, later[a].user2, later[|chats|].user1, later[|chats|].user2);
  }

  lemma LinkedSince(before: seq<Chat>, now: seq<Chat>, u: string, v: string) returns (c: nat)
    requires before <= now && !Linked(before, u, v) && Linked(now, u, v)
    ensures |before| <= c < |now| && Links(now[c], u, v)
  {
    c :| 0 <= c < |now| && Links(now[c], u, v);
    assert forall a {:trigger now[a]} :: 0 <= a < |before| ==> now[a] == before[a];
    assert forall a {:trigger before[a]} :: 0 <= a < |before| ==> !Links(before[a], u, v);
  }

  /** Two users who have a chat when another one of theirs is inserted got it through a race. */
  lemma LinkedTooLate(events: seq<Event>, k: nat, i: nat)
    requires InsertsChat(events, k, i)
    requires var q := At(events, k).running[i].request; Linked(At(events, k).db.chats, q.sentBy, q.sentTo)
    ensures PairRace(events)
  {
    hide Next, Run, Linked;
    var q := At(events, k).running[i].request;
    var r := LookedBefore(events, k, i);
    ChatsGrow(events, r, k);
    var c := LinkedSince(At(events, r).db.chats, At(events, k).db.chats, q.sentBy, q.sentTo);
    var m, j := CreatedSince(events, r, k, c);
    OtherInserts(events, m, j, k, i);
    assert SameUsersAt(events, m, j, k, i);
  }

  lemma {:induction false} NoRaceDistinctPairs(events: seq<Event>, n: nat)
    requires !PairRace(events) && n <= |events|
    ensures DistinctPairs(At(events, n).db.chats)
    decreases n
  {
    hide Next, Run, DistinctPairs, Linked;
    if n == 0 {
      AtStart(events);
      NoChats();
    } else {
      NoRaceDistinctPairs(events, n - 1);
      AtNext(events, n - 1);
      var w, e := At(events, n - 1), events[n - 1];
      NextChats(w, e);
      if e.Calls? && InsertsChat(events, n - 1, e.i) {
        if Linked(w.db.chats, w.running[e.i].request.sentBy, w.running[e.i].request.sentTo) {
          LinkedTooLate(events, n - 1, e.i);
          assert false;
        }
        NewPair(w.db.chats, ChatOf(w.running[e.i]));
      }
    }
  }

  lemma RaceDuplicatesPair(events: seq<Event>, m: nat, k: nat, i: nat, j: nat)
    requires m < k && InsertsChat(events, m, j) && InsertsChat(events, k, i) && SameUsersAt(events, m, j, k, i)
    ensures !DistinctPairs(Run(events).db.chats)
  {
    hide Next, Run, DistinctPairs;
    InsertedForGood(events, m, j);
    InsertedForGood(events, k, i);
    ChatsGrow(events, m + 1, k);
    var c, n := ChatOf(At(events, m).running[j]), |At(events, m).db.chats|;
    assert At(events, m + 1).db.chats[n] == c;
    assert Links(At(events, k).db.chats[n], At(events, k).running[i].request.sentBy, At(events, k).running[i].request.sentTo);
    OldPair(At(events, k).db.chats, ChatOf(At(events, k).running[i]), Run(events).db.chats);
  }

  /**
   * For every run: no two users have two chats if and only if no chat of the same two users is inserted
   * between looking for their chat and inserting it.
   */
  lemma UniquePairs(events: seq<Event>)
    ensures DistinctPairs(Run(events).db.chats) <==> !PairRace(events)
  {
    hide Run, DistinctPairs;
    assert events[..|events|] == events;
    if PairRace(events) {
      var r: nat, m: nat, k: nat, i: nat, j: nat :|
        && r < m < k && i != j
        && LooksForChat(events, r, i) && InsertsChat(events, m, j) && InsertsChat(events, k, i)
        && SameUsersAt(events, m, j, k, i);
      RaceDuplicatesPair(events, m, k, i, j);
    } else {
      NoRaceDistinctPairs(events, |events|);
    }
  }

  /** Ids and pairs are unique together exactly when there is no race of either kind. */
  lemma UniqueBoth(events: seq<Event>)
    ensures UniqueChats(Run(events).db.chats) <==> !IdRace(events) && !PairRace(events)
  {
    hide Run, IdRace, PairRace;
    UniqueIds(events);
    UniquePairs(events);
    var chats := Run(events).db.chats;
    assert UniqueChats(chats) <==> DistinctIds(chats) && DistinctPairs(chats);
  }

  // ---------------------------------------------------------------- a run with a race

  const CAROL := Request(AddUser, "carol", "", "", 0)
  const FROM_ALICE := Request(SendNew, "alice", "carol", "hello", 1)
  const FROM_BOB := Request(SendNew, "bob", "carol", "hello", 1)

  /** Three users register; then two of them write to the third for the first time, taking turns. */
  function Overlap(): seq<Event> {
    [
      Arrives(ALICE), Calls(0, Succeeds), Calls(0, Succeeds),
      Arrives(BOB), Calls(1, Succeeds), Calls(1, Succeeds),
      Arrives(CAROL), Calls(2, Succeeds), Calls(2, Succeeds),
      Arrives(FROM_ALICE), Arrives(FROM_BOB),
      Calls(3, Succeeds), Calls(4, Succeeds),
      Calls(3, Succeeds), Calls(4, Succeeds),
      Calls(3, Succeeds), Calls(4, Succeeds),
      Calls(3, Succeeds), Calls(4, Succeeds)
    ]
  }

  lemma Registering(events: seq<Event>, n: nat, q: Request)
    requires n + 3 <= |events| && q.kind.AddUser? && events[n] == Arrives(q)
    requires var i := |At(events, n).running|; events[n + 1] == events[n + 2] == Calls(i, Succeeds)
    ensures var v, w := At(events, n), At(events, n + 3);
            && w.db.users == v.db.users + [q.sentBy] && w.db.chats == v.db.chats && w.db.logs == v.db.logs
            && |w.running| == |v.running| + 1
  {
    hide Run, Pushed, Stored, NextId, Known, Modifies, AfterRead;
    var w, i := At(events, n), |At(events, n).running|;
    AtNext(events, n);
    AtNext(events, n + 1);
    AtNext(events, n + 2);
    var r0, r1 := w.running + [Running(q, AddingUser)], w.running + [Running(q, AddingInbox)];
    assert r0[i := Running(q, AddingInbox)] == r1;
  }

  lemma Registrations()
    ensures var e := Overlap();
            && |e| == 19 && e[0] == Arrives(ALICE) && e[1] == e[2] == Calls(0, Succeeds)
            && e[3] == Arrives(BOB) && e[4] == e[5] == Calls(1, Succeeds)
            && e[6] == Arrives(CAROL) && e[7] == e[8] == Calls(2, Succeeds)
  {
  }

  lemma Registered3()
    ensures var w := At(Overlap(), 9);
            && w.db.users == ["alice", "bob", "carol"] && w.db.chats == [] && w.db.logs == []
            && |w.running| == 3
  {
    hide Run, At, Overlap;
    Registrations();
    AtStart(Overlap());
    Registering(Overlap(), 0, ALICE);
    Registering(Overlap(), 3, BOB);
    Registering(Overlap(), 6, CAROL);
  }

  /** A call that only reads. */
  lemma Reading(events: seq<Event>, n: nat, i: nat)
    requires n < |events| && events[n] == Calls(i, Succeeds) && i < |At(events, n).running|
    requires var s := At(events, n).running[i].stage; s.ReadingUsers? || s.FindingChat? || s.ReadingLastId?
    ensures var w := At(events, n);
            At(events, n + 1) == World(w.db, w.running[i := Running(w.running[i].request, Continued(w.db, w.running[i]))])
  {
    hide Run, Continued;
    AtNext(events, n);
  }

  lemma BothArrived()
    ensures var w := At(Overlap(), 11);
            && w.db.users == ["alice", "bob", "carol"] && w.db.chats == []
            && |w.running| == 5 && w.running[3..] == [Running(FROM_ALICE, ReadingUsers), Running(FROM_BOB, ReadingUsers)]
  {
    hide Run, At, Continued, Effect;
    Registered3();
    AtNext(Overlap(), 9);
    AtNext(Overlap(), 10);
  }

  /** Both requests come to read the last id before one has inserted. */
  lemma BothReading()
    ensures var w := At(Overlap(), 15);
            && |w.running| == 5 && w.db.chats == []
            && w.running[3..] == [Running(FROM_ALICE, ReadingLastId), Running(FROM_BOB, ReadingLastId)]
  {
    hide At, NextId, Modifies, AfterRead, Known;
    BothArrived();
    KnownCarol(At(Overlap(), 11).db.users);
    assert forall k {:trigger At(Overlap(), 11).running[k]} :: 3 <= k < 5 ==>
        At(Overlap(), 11).running[k] == At(Overlap(), 11).running[3..][k - 3];
    Reading(Overlap(), 11, 3);
    Reading(Overlap(), 12, 4);
    Reading(Overlap(), 13, 3);
    Reading(Overlap(), 14, 4);
  }

  lemma KnownCarol(users: seq<string>)
    requires users == ["alice", "bob", "carol"]
    ensures Known(users, "carol")
  {
    assert Lower(users[2]) == Lower("carol");
  }

  /** In this run two chats get the id 0. */
  lemma SameIdTwice()
    ensures var w := At(Overlap(), 15);
            |w.running| == 5 && w.running[3].stage.ReadingLastId? && w.running[4].stage.ReadingLastId?
    ensures Run(Overlap()).db.chats == [Chat(0, "alice", "carol"), Chat(0, "bob", "carol")]
    ensures !DistinctIds(Run(Overlap()).db.chats) && IdRace(Overlap())
  {
    hide Run, Pushed, Stored, Modifies, AfterRead, Known, IdRace, DistinctIds;
    BothReading();
    AtNext(Overlap(), 15);
    AtNext(Overlap(), 16);
    AtNext(Overlap(), 17);
    AtNext(Overlap(), 18);
    assert Overlap()[..19] == Overlap();
    TwoZeros();
    UniqueIds(Overlap());
  }

  lemma TwoZeros()
    ensures !DistinctIds([Chat(0, "alice", "carol"), Chat(0, "bob", "carol")])
  {
    var chats := [Chat(0, "alice", "carol"), Chat(0, "bob", "carol")];
    assert chats[0].id == chats[1].id;
  }
}
