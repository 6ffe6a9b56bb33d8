/**
 * Requests served one at a time with no failing call keep the inboxes exact: every user sees, for every
 * other, the last message of their chat, and nothing where there is no chat.
 */
module ChatRuns {
  import opened Options
  import opened ChatServer

  // ---------------------------------------------------------------- one request after the other

  function Rank(s: Stage): nat {
    match s
    case AddingUser => 13
    case AddingInbox => 12
    case ReadingUsers => 11
    case FindingChat => 10
    case ReadingLastId => 9
    case InsertingChat(_) => 8
    case InsertingLog(_) => 7
    case PushingMessage(_) => 6
    case ReadingSender(_) => 5
    case WritingSender(_, _) => 4
    case ReadingReceiver(_) => 3
    case WritingReceiver(_) => 2
    case Done(_) => 0
  }

  /** The world after all further calls of request i, with no others in between. */
  function Finished(w: World, i: nat): World
    requires i < |w.running|
    decreases Rank(w.running[i].stage)
  {
    if w.running[i].stage.Done? then w else
      CallFalls(w, i);
      Finished(Next(w, Calls(i, Succeeds)), i)
  }

  lemma CallFalls(w: World, i: nat)
    requires i < |w.running| && !w.running[i].stage.Done?
    ensures var x := Next(w, Calls(i, Succeeds)); i < |x.running| && Rank(x.running[i].stage) < Rank(w.running[i].stage)
  {
    Falls(w.db, w.running[i]);
    hide Rank, Effect, Continued;
  }

  function Served(w: World, q: Request): World {
    Finished(Next(w, Arrives(q)), |w.running|)
  }

  function ServedAll(w: World, qs: seq<Request>): World {
    if |qs| == 0 then w else Served(ServedAll(w, qs[..|qs| - 1]), qs[|qs| - 1])
  }

  /** The database after all calls of a request, which is all it depends on. */
  function Result(db: Db, r: Running): Db
    decreases Rank(r.stage)
  {
    if r.stage.Done? then db else
      Falls(db, r);
      Result(Effect(db, r), Running(r.request, Continued(db, r)))
  }

  lemma {:induction false} FinishedResult(w: World, i: nat)
    requires i < |w.running|
    ensures Finished(w, i).db == Result(w.db, w.running[i])
    decreases Rank(w.running[i].stage)
  {
    hide Effect, Continued, Rank;
    if !w.running[i].stage.Done? {
      Falls(w.db, w.running[i]);
      FinishedResult(Next(w, Calls(i, Succeeds)), i);
    }
  }

  lemma Falls(db: Db, r: Running)
    requires !r.stage.Done?
    ensures Rank(Continued(db, r)) < Rank(r.stage)
  {
  }

  // ---------------------------------------------------------------- what users see

  datatype Last = Last(text: string, time: int)

  /** The message shown to u for v. */
  function Shows(inboxes: seq<Inbox>, u: string, v: string): Option<Last> {
    var n := InboxAt(inboxes, u);
    if n == |inboxes| then None
    else
      var k := EntryAt(inboxes[n].entries, v);
      if k == |inboxes[n].entries| then None
      else Some(Last(inboxes[n].entries[k].last, inboxes[n].entries[k].time))
  }

  function LastOf(m: seq<Message>): Last
    requires |m| > 0
  {
    Last(m[|m| - 1].text, m[|m| - 1].time)
  }

  predicate UniqueChats(chats: seq<Chat>) {
    forall i, j {:trigger chats[i], chats[j]} :: 0 <= i < j < |chats| ==>
      chats[i].id != chats[j].id && !SamePair(chats[i].user1, chats[i].user2, chats[j].user1, chats[j].user2)
  }

  /** Every chat has its log, with a message in it. */
  predicate HasLogs(chats: seq<Chat>, logs: seq<Log>) {
    |chats| == |logs| && forall k {:trigger logs[k]} :: 0 <= k < |logs| ==>
      logs[k].id == chats[k].id && |logs[k].messages| > 0
  }

  /** The last message of the chat between two users, if they have one. */
  function LastBetween(chats: seq<Chat>, logs: seq<Log>, u: string, v: string): Option<Last>
    requires HasLogs(chats, logs)
  {
    var n := ChatAt(chats, u, v);
    if n == |chats| then None else Some(LastOf(logs[n].messages))
  }

  /** Ids and unordered pairs are unique, and both sides of every pair see the last message of their log. */
  ghost predicate Exact(db: Db) {
    && UniqueChats(db.chats) && HasLogs(db.chats, db.logs)
    && forall u, v {:trigger Shows(db.inboxes, u, v)} ::
         Shows(db.inboxes, u, v) == LastBetween(db.chats, db.logs, u, v)
  }

  // ---------------------------------------------------------------- changes of what is shown

  function Sent(q: Request): Last {
    Last(q.text, q.time)
  }

  ghost predicate Told(before: seq<Inbox>, after: seq<Inbox>, u: string, v: string, q: Request) {
    forall x, y {:trigger Shows(after, x, y)} ::
      Shows(after, x, y) == if x == u && y == v then Some(Sent(q)) else Shows(before, x, y)
  }

  ghost predicate BothTold(before: seq<Inbox>, after: seq<Inbox>, q: Request) {
    forall x, y {:trigger Shows(after, x, y)} ::
      Shows(after, x, y) == if SamePair(x, y, q.sentBy, q.sentTo) then Some(Sent(q)) else Shows(before, x, y)
  }

  lemma SameUsers(inboxes: seq<Inbox>, user: string, entries: seq<Entry>, x: string)
    ensures |Stored(inboxes, user, entries)| == |inboxes|
    ensures InboxAt(Stored(inboxes, user, entries), x) == InboxAt(inboxes, x)
  {
    var after := Stored(inboxes, user, entries);
    var n, m := InboxAt(inboxes, x), InboxAt(after, x);
    assert forall k {:trigger after[k]} {:trigger inboxes[k]} :: 0 <= k < |inboxes| ==> after[k].user == inboxes[k].user;
    assert n < |inboxes| ==> after[n].user == x;
    assert m < |inboxes| ==> inboxes[m].user == x;
  }

  lemma SetEntry(entries: seq<Entry>, k: nat, e: Entry, after: seq<Entry>, y: string)
    requires k < |entries| && entries[k].to == e.to && k == EntryAt(entries, e.to) && after == entries[k := e]
    ensures EntryAt(after, y) == EntryAt(entries, y)
    ensures y != e.to && EntryAt(after, y) < |after| ==> after[EntryAt(after, y)] == entries[EntryAt(entries, y)]
  {
    var n, m := EntryAt(entries, y), EntryAt(after, y);
    assert n < |entries| ==> after[n].to == y;
    assert m < |entries| ==> entries[m].to == y;
  }

  lemma PushEntry(entries: seq<Entry>, e: Entry, after: seq<Entry>, y: string)
    requires EntryAt(entries, e.to) == |entries| && after == entries + [e]
    ensures y == e.to ==> EntryAt(after, y) == |entries|
    ensures y != e.to ==> (EntryAt(after, y) < |after| <==> EntryAt(entries, y) < |entries|)
    ensures y != e.to && EntryAt(after, y) < |after| ==> EntryAt(after, y) == EntryAt(entries, y)
  {
    var n, m := EntryAt(entries, y), EntryAt(after, y);
    assert after[|entries|] == e;
    assert n < |entries| ==> after[n] == entries[n];
    assert m < |entries| ==> after[m] == entries[m];
  }

  lemma UpdatedEntry(entries: seq<Entry>, v: string, q: Request, isNew: bool, after: seq<Entry>, y: string)
    requires Updated(entries, v, q, isNew) == Some(after)
    ensures y == v ==> EntryAt(after, y) < |after| && after[EntryAt(after, y)] == Entry(v, q.text, q.time)
    ensures y != v ==> (EntryAt(after, y) < |after| <==> EntryAt(entries, y) < |entries|)
    ensures y != v && EntryAt(after, y) < |after| ==> after[EntryAt(after, y)] == entries[EntryAt(entries, y)]
  {
    var k, e := EntryAt(entries, v), Entry(v, q.text, q.time);
    if k < |entries| {
      SetEntry(entries, k, e, after, y);
    } else {
      PushEntry(entries, e, after, y);
    }
  }

  lemma StoredTold(inboxes: seq<Inbox>, u: string, v: string, q: Request, isNew: bool, entries: seq<Entry>)
    requires InboxAt(inboxes, u) < |inboxes|
    requires Updated(inboxes[InboxAt(inboxes, u)].entries, v, q, isNew) == Some(entries)
    ensures Told(inboxes, Stored(inboxes, u, entries), u, v, q)
  {
    hide Updated;
    var after := Stored(inboxes, u, entries);
    var n := InboxAt(inboxes, u);
    forall x, y
      ensures Shows(after, x, y) == if x == u && y == v then Some(Sent(q)) else Shows(inboxes, x, y)
    {
      SameUsers(inboxes, u, entries, x);
      UpdatedEntry(inboxes[n].entries, v, q, isNew, entries, y);
      assert x != u && InboxAt(inboxes, x) < |inboxes| ==> after[InboxAt(inboxes, x)] == inboxes[InboxAt(inboxes, x)];
    }
  }

  /** Storing what is there already changes nothing. */
  lemma Unmodified(inboxes: seq<Inbox>, u: string, entries: seq<Entry>)
    requires !Modifies(inboxes, u, entries)
    ensures Stored(inboxes, u, entries) == inboxes
  {
    var n := InboxAt(inboxes, u);
    if n < |inboxes| {
      assert inboxes[n] == Inbox(u, entries);
    }
  }

  // ---------------------------------------------------------------- telling both sides

  /** One call further. */
  lemma Further(db: Db, q: Request, s: Stage, db2: Db, s2: Stage)
    requires !s.Done? && db2 == Effect(db, Running(q, s)) && s2 == Continued(db, Running(q, s))
    ensures Result(db, Running(q, s)) == Result(db2, Running(q, s2))
  {
    hide Effect, Continued;
  }

  lemma Ended(db: Db, q: Request, s: Stage)
    requires s.Done?
    ensures Result(db, Running(q, s)) == db
  {
  }

  lemma ResultReceiver(db: Db, q: Request, isNew: bool)
    requires InboxAt(db.inboxes, q.sentTo) < |db.inboxes|
    requires isNew || Shows(db.inboxes, q.sentTo, q.sentBy).Some?
    ensures var d := Result(db, Running(q, ReadingReceiver(isNew)));
            d.chats == db.chats && d.logs == db.logs && Told(db.inboxes, d.inboxes, q.sentTo, q.sentBy, q)
  {
    hide Result, Shows, Modifies, Stored, Told, Updated;
    EntryShown(db.inboxes, q.sentTo, q.sentBy, q, isNew);
    var e := AfterRead(db, q.sentTo, q.sentBy, q, isNew).value;
    var db2 := db.(inboxes := Stored(db.inboxes, q.sentTo, e));
    StoredTold(db.inboxes, q.sentTo, q.sentBy, q, isNew, e);
    Further(db, q, ReadingReceiver(isNew), db, WritingReceiver(e));
    var s := Continued(db, Running(q, WritingReceiver(e)));
    Further(db, q, WritingReceiver(e), db2, s);
    Ended(db2, q, s);
  }

  /** An inbox that shows a user, or a new chat, lets the handler go on. */
  lemma EntryShown(inboxes: seq<Inbox>, u: string, v: string, q: Request, isNew: bool)
    requires InboxAt(inboxes, u) < |inboxes| && (isNew || Shows(inboxes, u, v).Some?)
    ensures Updated(inboxes[InboxAt(inboxes, u)].entries, v, q, isNew).Some?
  {
  }

  lemma TellBoth(before: seq<Inbox>, mid: seq<Inbox>, after: seq<Inbox>, q: Request)
    requires Told(before, mid, q.sentBy, q.sentTo, q) && Told(mid, after, q.sentTo, q.sentBy, q)
    ensures BothTold(before, after, q)
  {
    hide Shows;
  }

  lemma ToldAlready(before: seq<Inbox>, q: Request)
    requires Told(before, before, q.sentBy, q.sentTo, q)
    requires Shows(before, q.sentTo, q.sentBy) == Shows(before, q.sentBy, q.sentTo)
    ensures BothTold(before, before, q)
  {
    hide Shows;
    assert Shows(before, q.sentBy, q.sentTo) == Some(Sent(q));
  }

  lemma StillShown(before: seq<Inbox>, mid: seq<Inbox>, q: Request, u: string, v: string)
    requires Told(before, mid, q.sentBy, q.sentTo, q) && Shows(before, u, v).Some?
    ensures Shows(mid, u, v).Some?
  {
    hide Shows;
  }

  /** What the sender's inbox becomes, and where the request goes on. */
  lemma SenderWrites(db: Db, q: Request, isNew: bool) returns (e: seq<Entry>, s: Stage)
    requires InboxAt(db.inboxes, q.sentBy) < |db.inboxes|
    requires isNew || Shows(db.inboxes, q.sentBy, q.sentTo).Some?
    ensures Updated(db.inboxes[InboxAt(db.inboxes, q.sentBy)].entries, q.sentTo, q, isNew) == Some(e)
    ensures Effect(db, Running(q, ReadingSender(isNew))) == db
    ensures Continued(db, Running(q, ReadingSender(isNew))) == WritingSender(isNew, e)
    ensures Effect(db, Running(q, WritingSender(isNew, e))) == db.(inboxes := Stored(db.inboxes, q.sentBy, e))
    ensures Continued(db, Running(q, WritingSender(isNew, e))) == s
    ensures if Modifies(db.inboxes, q.sentBy, e) then s == ReadingReceiver(isNew) else s.Done?
  {
    hide Shows, Modifies, Stored, Updated;
    EntryShown(db.inboxes, q.sentBy, q.sentTo, q, isNew);
    e := AfterRead(db, q.sentBy, q.sentTo, q, isNew).value;
    s := Continued(db, Running(q, WritingSender(isNew, e)));
  }

  lemma ResultSender(db: Db, q: Request, isNew: bool)
    requires InboxAt(db.inboxes, q.sentBy) < |db.inboxes| && InboxAt(db.inboxes, q.sentTo) < |db.inboxes|
    requires isNew || Shows(db.inboxes, q.sentTo, q.sentBy).Some?
    requires Shows(db.inboxes, q.sentTo, q.sentBy) == Shows(db.inboxes, q.sentBy, q.sentTo)
    ensures var d := Result(db, Running(q, ReadingSender(isNew)));
            d.chats == db.chats && d.logs == db.logs && BothTold(db.inboxes, d.inboxes, q)
  {
    hide Result, Shows, Modifies, Stored, Updated, Told, BothTold, InboxAt, Continued, Effect, AfterRead;
    var e, s := SenderWrites(db, q, isNew);
    var mid := Stored(db.inboxes, q.sentBy, e);
    var db2 := db.(inboxes := mid);
    StoredTold(db.inboxes, q.sentBy, q.sentTo, q, isNew, e);
    Further(db, q, ReadingSender(isNew), db, WritingSender(isNew, e));
    Further(db, q, WritingSender(isNew, e), db2, s);
    if Modifies(db.inboxes, q.sentBy, e) {
      SameUsers(db.inboxes, q.sentBy, e, q.sentTo);
      if !isNew {
        StillShown(db.inboxes, mid, q, q.sentTo, q.sentBy);
      }
      ResultReceiver(db2, q, isNew);
      TellBoth(db.inboxes, mid, Result(db2, Running(q, s)).inboxes, q);
    } else {
      Unmodified(db.inboxes, q.sentBy, e);
      Ended(db2, q, s);
      ToldAlready(db.inboxes, q);
    }
  }

  /** A user without an inbox does not get one by a message. */
  lemma {:induction false} StaysMissing(db: Db, r: Running, u: string)
    requires r.stage.ReadingSender? || r.stage.WritingSender? || r.stage.ReadingReceiver? || r.stage.WritingReceiver?
             || r.stage.Done?
    requires InboxAt(db.inboxes, u) == |db.inboxes|
    ensures var d := Result(db, r);
            d.chats == db.chats && d.logs == db.logs && InboxAt(d.inboxes, u) == |d.inboxes|
    decreases Rank(r.stage)
  {
    hide Modifies, Stored, Updated, AfterRead;
    if !r.stage.Done? {
      Falls(db, r);
      if r.stage.WritingSender? {
        SameUsers(db.inboxes, r.request.sentBy, r.stage.entries, u);
      } else if r.stage.WritingReceiver? {
        SameUsers(db.inboxes, r.request.sentTo, r.stage.entries, u);
      }
      StaysMissing(Effect(db, r), Running(r.request, Continued(db, r)), u);
    }
  }

  // ---------------------------------------------------------------- the last message of a chat

  ghost predicate NowLast(before: Db, after: Db, q: Request)
    requires HasLogs(before.chats, before.logs) && HasLogs(after.chats, after.logs)
  {
    forall u, v {:trigger LastBetween(after.chats, after.logs, u, v)} ::
      LastBetween(after.chats, after.logs, u, v)
      == if SamePair(u, v, q.sentBy, q.sentTo) then Some(Sent(q)) else LastBetween(before.chats, before.logs, u, v)
  }

  lemma StillExact(before: Db, after: Db, q: Request)
    requires Exact(before) && BothTold(before.inboxes, after.inboxes, q)
    requires UniqueChats(after.chats) && HasLogs(after.chats, after.logs) && NowLast(before, after, q)
    ensures Exact(after)
  {
    hide Shows, LastBetween, HasLogs, UniqueChats;
    forall u, v
      ensures Shows(after.inboxes, u, v) == LastBetween(after.chats, after.logs, u, v)
    {
      assert Shows(before.inboxes, u, v) == LastBetween(before.chats, before.logs, u, v);
    }
  }

  lemma OneChat(chats: seq<Chat>, n: nat, a: string, b: string, u: string, v: string)
    requires UniqueChats(chats) && n < |chats| && Links(chats[n], a, b)
    ensures ChatAt(chats, u, v) == n <==> SamePair(u, v, a, b)
  {
    var m := ChatAt(chats, u, v);
    if SamePair(u, v, a, b) {
      assert Links(chats[n], u, v);
    }
  }

  lemma OneLog(chats: seq<Chat>, logs: seq<Log>, n: nat)
    requires UniqueChats(chats) && HasLogs(chats, logs) && n < |chats|
    ensures LogAt(logs, chats[n].id) == n
  {
    var m := LogAt(logs, chats[n].id);
    assert logs[n].id == chats[n].id;
    assert m < |logs| ==> logs[m].id == chats[m].id;
  }

  lemma PushedLast(db: Db, q: Request, n: nat, more: Db)
    requires UniqueChats(db.chats) && HasLogs(db.chats, db.logs) && n < |db.chats|
    requires Links(db.chats[n], q.sentBy, q.sentTo)
    requires more.chats == db.chats && more.logs == Pushed(db.logs, db.chats[n].id, MessageOf(q))
    ensures HasLogs(more.chats, more.logs) && NowLast(db, more, q)
  {
    OneLog(db.chats, db.logs, n);
    var l := db.logs[n].messages + [MessageOf(q)];
    assert LastOf(l) == Sent(q);
    forall u, v
      ensures LastBetween(more.chats, more.logs, u, v)
              == if SamePair(u, v, q.sentBy, q.sentTo) then Some(Sent(q)) else LastBetween(db.chats, db.logs, u, v)
    {
      OneChat(db.chats, n, q.sentBy, q.sentTo, u, v);
    }
  }

  lemma AddedChat(chats: seq<Chat>, c: Chat, u: string, v: string)
    ensures ChatAt(chats, u, v) < |chats| ==> ChatAt(chats + [c], u, v) == ChatAt(chats, u, v)
    ensures ChatAt(chats, u, v) == |chats| ==>
              ChatAt(chats + [c], u, v) == |chats| + if Links(c, u, v) then 0 else 1
  {
    var all := chats + [c];
    var n, m := ChatAt(chats, u, v), ChatAt(all, u, v);
    assert all[|chats|] == c;
    assert forall k {:trigger all[k]} {:trigger chats[k]} :: 0 <= k < |chats| ==> all[k] == chats[k];
  }

  lemma AddedLast(db: Db, q: Request, id: int, more: Db)
    requires UniqueChats(db.chats) && HasLogs(db.chats, db.logs)
    requires ChatAt(db.chats, q.sentBy, q.sentTo) == |db.chats| && id == NextId(db.chats)
    requires more.chats == db.chats + [Chat(id, q.sentBy, q.sentTo)]
    requires more.logs == db.logs + [Log(id, [MessageOf(q)])]
    ensures UniqueChats(more.chats) && HasLogs(more.chats, more.logs) && NowLast(db, more, q)
  {
    hide NextId;
    var c := Chat(id, q.sentBy, q.sentTo);
    AddedUnique(db.chats, c);
    assert LastOf([MessageOf(q)]) == Sent(q);
    forall u, v
      ensures LastBetween(more.chats, more.logs, u, v)
              == if SamePair(u, v, q.sentBy, q.sentTo) then Some(Sent(q)) else LastBetween(db.chats, db.logs, u, v)
    {
      AddedChat(db.chats, c, u, v);
      var n := ChatAt(db.chats, u, v);
      assert SamePair(u, v, q.sentBy, q.sentTo) && n < |db.chats| ==> Links(db.chats[n], q.sentBy, q.sentTo);
    }
  }

  lemma AddedUnique(chats: seq<Chat>, c: Chat)
    requires UniqueChats(chats) && ChatAt(chats, c.user1, c.user2) == |chats| && c.id == NextId(chats)
    ensures UniqueChats(chats + [c])
  {
    var all := chats + [c];
    forall i, j | 0 <= i < j < |all|
      ensures all[i].id != all[j].id && !SamePair(all[i].user1, all[i].user2, all[j].user1, all[j].user2)
    {
      if j == |chats| {
        assert !Links(chats[i], c.user1, c.user2);
      }
    }
  }

  // ---------------------------------------------------------------- whole requests

  lemma Agree(db: Db, u: string, v: string)
    requires Exact(db)
    ensures Shows(db.inboxes, u, v) == Shows(db.inboxes, v, u)
    ensures Shows(db.inboxes, u, v) == LastBetween(db.chats, db.logs, u, v)
  {
    hide Shows;
    var n, m := ChatAt(db.chats, u, v), ChatAt(db.chats, v, u);
    assert n < |db.chats| ==> Links(db.chats[n], v, u);
    assert m < |db.chats| ==> Links(db.chats[m], u, v);
    assert Shows(db.inboxes, v, u) == LastBetween(db.chats, db.logs, v, u);
  }

  /** The message goes into the chat there is. */
  lemma ResultOldChat(db: Db, q: Request, n: nat)
    requires Exact(db) && n == ChatAt(db.chats, q.sentBy, q.sentTo) < |db.chats|
    ensures Exact(Result(db, Running(q, PushingMessage(db.chats[n].id))))
  {
    hide Result, BothTold, NowLast, Pushed;
    Agree(db, q.sentBy, q.sentTo);
    var s := PushingMessage(db.chats[n].id);
    var db2 := db.(logs := Pushed(db.logs, db.chats[n].id, MessageOf(q)));
    OneLog(db.chats, db.logs, n);
    Further(db, q, s, db2, ReadingSender(false));
    ResultSender(db2, q, false);
    var d := Result(db2, Running(q, ReadingSender(false)));
    PushedLast(db, q, n, d);
    StillExact(db, d, q);
  }

  /** The database after a new chat and its log have been written. */
  function WithChat(db: Db, q: Request): Db {
    var id := NextId(db.chats);
    db.(chats := db.chats + [Chat(id, q.sentBy, q.sentTo)], logs := db.logs + [Log(id, [MessageOf(q)])])
  }

  lemma NewChatStages(db: Db, q: Request)
    ensures Result(db, Running(q, ReadingLastId)) == Result(WithChat(db, q), Running(q, ReadingSender(true)))
  {
    hide Result, NextId;
    var id := NextId(db.chats);
    var db1 := db.(chats := db.chats + [Chat(id, q.sentBy, q.sentTo)]);
    Further(db, q, ReadingLastId, db, InsertingChat(id));
    Further(db, q, InsertingChat(id), db1, InsertingLog(id));
    Further(db1, q, InsertingLog(id), WithChat(db, q), ReadingSender(true));
  }

  predicate HaveInboxes(db: Db, q: Request) {
    InboxAt(db.inboxes, q.sentBy) < |db.inboxes| && InboxAt(db.inboxes, q.sentTo) < |db.inboxes|
  }

  /** A new chat leaves the inboxes exact if and only if both users have one. */
  lemma ResultNewChat(db: Db, q: Request)
    requires Exact(db) && ChatAt(db.chats, q.sentBy, q.sentTo) == |db.chats|
    ensures Exact(Result(db, Running(q, ReadingLastId))) <==> HaveInboxes(db, q)
  {
    hide Result, BothTold, NowLast, NextId, Exact;
    NewChatStages(db, q);
    var db2 := WithChat(db, q);
    var d := Result(db2, Running(q, ReadingSender(true)));
    ExactLogs(db);
    Agree(db, q.sentBy, q.sentTo);
    if HaveInboxes(db, q) {
      ResultSender(db2, q, true);
      AddedLast(db, q, NextId(db.chats), d);
      StillExact(db, d, q);
    } else if InboxAt(db.inboxes, q.sentBy) == |db.inboxes| {
      StaysMissing(db2, Running(q, ReadingSender(true)), q.sentBy);
      AddedLast(db, q, NextId(db.chats), d);
      NotShown(db, d, q, q.sentBy, q.sentTo);
    } else {
      StaysMissing(db2, Running(q, ReadingSender(true)), q.sentTo);
      AddedLast(db, q, NextId(db.chats), d);
      NotShown(db, d, q, q.sentTo, q.sentBy);
    }
  }

  lemma ExactLogs(db: Db)
    requires Exact(db)
    ensures UniqueChats(db.chats) && HasLogs(db.chats, db.logs)
  {
  }

  lemma NotShown(db: Db, d: Db, q: Request, u: string, v: string)
    requires HasLogs(db.chats, db.logs) && HasLogs(d.chats, d.logs) && NowLast(db, d, q)
    requires SamePair(u, v, q.sentBy, q.sentTo) && InboxAt(d.inboxes, u) == |d.inboxes|
    ensures !Exact(d)
  {
    hide LastBetween;
    assert LastBetween(d.chats, d.logs, u, v) == Some(Sent(q));
    assert Shows(d.inboxes, u, v) == None;
  }

  /** A new inbox shows nothing, and hides none. */
  lemma AddedInbox(inboxes: seq<Inbox>, user: string, u: string, v: string)
    ensures Shows(inboxes + [Inbox(user, [])], u, v) == Shows(inboxes, u, v)
  {
    var all := inboxes + [Inbox(user, [])];
    var n, m := InboxAt(inboxes, u), InboxAt(all, u);
    assert all[|inboxes|] == Inbox(user, []);
    assert forall k {:trigger all[k]} {:trigger inboxes[k]} :: 0 <= k < |inboxes| ==> all[k] == inboxes[k];
    if n < |inboxes| {
      assert m == n;
    }
  }

  lemma ResultAddUser(db: Db, q: Request)
    requires Exact(db)
    ensures Exact(Result(db, Running(q, AddingUser)))
  {
    hide Result, Shows, LastBetween;
    var db1 := db.(users := db.users + [q.sentBy]);
    var db2 := db1.(inboxes := db.inboxes + [Inbox(q.sentBy, [])]);
    Further(db, q, AddingUser, db1, AddingInbox);
    Further(db1, q, AddingInbox, db2, Done(Success));
    Ended(db2, q, Done(Success));
    forall u, v
      ensures Shows(db2.inboxes, u, v) == LastBetween(db2.chats, db2.logs, u, v)
    {
      AddedInbox(db.inboxes, q.sentBy, u, v);
      assert Shows(db.inboxes, u, v) == LastBetween(db.chats, db.logs, u, v);
    }
  }

  /** Messages to new partners need an inbox on both sides; the user list is no guarantee for that. */
  predicate Safe(db: Db, q: Request) {
    && q.kind.SendNew? && Known(db.users, q.sentTo) && ChatAt(db.chats, q.sentBy, q.sentTo) == |db.chats|
    ==> HaveInboxes(db, q)
  }

  lemma ResultFinding(db: Db, q: Request)
    requires Exact(db) && !q.kind.AddUser?
    ensures Exact(Result(db, Running(q, FindingChat)))
            <==> (q.kind.SendNew? && ChatAt(db.chats, q.sentBy, q.sentTo) == |db.chats| ==> HaveInboxes(db, q))
  {
    hide Result, Exact, HaveInboxes;
    var n := ChatAt(db.chats, q.sentBy, q.sentTo);
    var s := Continued(db, Running(q, FindingChat));
    Further(db, q, FindingChat, db, s);
    if n < |db.chats| {
      ResultOldChat(db, q, n);
    } else if q.kind.SendNew? {
      ResultNewChat(db, q);
    } else {
      Ended(db, q, s);
    }
  }

  /** One request served alone, with no failing call, leaves the inboxes exact if and only if it is safe. */
  lemma ResultExact(db: Db, q: Request)
    requires Exact(db)
    ensures Exact(Result(db, Running(q, FirstStage(q.kind)))) <==> Safe(db, q)
  {
    hide Result, Exact, HaveInboxes, Known;
    match q.kind
    case AddUser =>
      ResultAddUser(db, q);
    case Send =>
      ResultFinding(db, q);
    case SendNew =>
      var s := Continued(db, Running(q, ReadingUsers));
      Further(db, q, ReadingUsers, db, s);
      if Known(db.users, q.sentTo) {
        ResultFinding(db, q);
      } else {
        Ended(db, q, s);
      }
  }

  lemma ServedExact(w: World, q: Request)
    requires Exact(w.db)
    ensures Exact(Served(w, q).db) <==> Safe(w.db, q)
  {
    hide Result, Exact, Safe, Finished;
    FinishedResult(Next(w, Arrives(q)), |w.running|);
    ResultExact(w.db, q);
  }

  /** From the empty server, any number of requests served one after the other, each of them safe. */
  predicate AllSafe(qs: seq<Request>) {
    forall i {:trigger qs[i]} :: 0 <= i < |qs| ==> Safe(ServedAll(EMPTY, qs[..i]).db, qs[i])
  }

  lemma {:induction false} ServedAllExact(qs: seq<Request>)
    requires AllSafe(qs)
    ensures Exact(ServedAll(EMPTY, qs).db)
  {
    hide Safe, Exact, Served;
    if |qs| == 0 {
      EmptyExact();
    } else {
      var before := qs[..|qs| - 1];
      assert forall i {:trigger before[i]} :: 0 <= i < |before| ==> before[..i] == qs[..i] && before[i] == qs[i];
      ServedAllExact(before);
      ServedExact(ServedAll(EMPTY, before), qs[|qs| - 1]);
    }
  }

  // ---------------------------------------------------------------- registered users

  predicate HasInbox(db: Db, u: string) {
    InboxAt(db.inboxes, u) < |db.inboxes|
  }

  lemma EffectKeepsInbox(db: Db, r: Running, u: string)
    requires HasInbox(db, u)
    ensures HasInbox(Effect(db, r), u)
  {
    hide Pushed, Stored;
    if r.stage.AddingInbox? {
      var all := Effect(db, r).inboxes;
      assert all[InboxAt(db.inboxes, u)].user == u;
    } else if r.stage.WritingSender? {
      SameUsers(db.inboxes, r.request.sentBy, r.stage.entries, u);
    } else if r.stage.WritingReceiver? {
      SameUsers(db.inboxes, r.request.sentTo, r.stage.entries, u);
    }
  }

  lemma {:induction false} ResultKeepsInbox(db: Db, r: Running, u: string)
    requires HasInbox(db, u)
    ensures HasInbox(Result(db, r), u)
    decreases Rank(r.stage)
  {
    hide HasInbox, Effect, Continued, Rank;
    if !r.stage.Done? {
      Falls(db, r);
      EffectKeepsInbox(db, r, u);
      ResultKeepsInbox(Effect(db, r), Running(r.request, Continued(db, r)), u);
    }
  }

  lemma AddingGivesInbox(db: Db, q: Request)
    ensures HasInbox(Result(db, Running(q, AddingUser)), q.sentBy)
  {
    hide Result;
    var db1 := db.(users := db.users + [q.sentBy]);
    var db2 := db1.(inboxes := db.inboxes + [Inbox(q.sentBy, [])]);
    Further(db, q, AddingUser, db1, AddingInbox);
    Further(db1, q, AddingInbox, db2, Done(Success));
    Ended(db2, q, Done(Success));
    assert db2.inboxes[|db.inboxes|].user == q.sentBy;
  }

  predicate Registered(qs: seq<Request>, u: string) {
    exists i :: 0 <= i < |qs| && qs[i].kind.AddUser? && qs[i].sentBy == u
  }

  lemma {:induction false} RegisteredHasInbox(qs: seq<Request>, u: string)
    requires Registered(qs, u)
    ensures HasInbox(ServedAll(EMPTY, qs).db, u)
  {
    hide HasInbox, Result, Finished;
    var before, q := qs[..|qs| - 1], qs[|qs| - 1];
    var w := ServedAll(EMPTY, before);
    FinishedResult(Next(w, Arrives(q)), |w.running|);
    if q.kind.AddUser? && q.sentBy == u {
      AddingGivesInbox(w.db, q);
    } else {
      var i :| 0 <= i < |qs| && qs[i].kind.AddUser? && qs[i].sentBy == u;
      assert before[i] == qs[i];
      RegisteredHasInbox(before, u);
      ResultKeepsInbox(w.db, Running(q, FirstStage(q.kind)), u);
    }
  }

  /**
   * Served one after the other, with new chats started only between users registered before: chat ids
   * and unordered pairs are unique, and every inbox shows the last message of every chat of its user.
   */
  lemma {:induction false} RegisteredExact(qs: seq<Request>)
    requires forall i {:trigger qs[i]} :: 0 <= i < |qs| && qs[i].kind.SendNew? ==>
               Registered(qs[..i], qs[i].sentBy) && Registered(qs[..i], qs[i].sentTo)
    ensures Exact(ServedAll(EMPTY, qs).db)
  {
    hide ServedAll, Registered, Exact;
    forall i | 0 <= i < |qs|
      ensures Safe(ServedAll(EMPTY, qs[..i]).db, qs[i])
    {
      if qs[i].kind.SendNew? {
        RegisteredHasInbox(qs[..i], qs[i].sentBy);
        RegisteredHasInbox(qs[..i], qs[i].sentTo);
      }
    }
    ServedAllExact(qs);
  }

  lemma EmptyExact()
    ensures Exact(EMPTY.db)
  {
  }

  // ---------------------------------------------------------------- a chat with one side

  const ALICE := Request(AddUser, "alice", "", "", 0)
  const BOB := Request(AddUser, "bob", "", "", 0)
  const TO_BOB := Request(SendNew, "alice", "BOB", "hello", 1)

  lemma Added(w: World, q: Request)
    requires q.kind.AddUser?
    ensures Served(w, q).db == w.db.(users := w.db.users + [q.sentBy], inboxes := w.db.inboxes + [Inbox(q.sentBy, [])])
  {
    hide Result, Finished;
    FinishedResult(Next(w, Arrives(q)), |w.running|);
    var db1 := w.db.(users := w.db.users + [q.sentBy]);
    var db2 := db1.(inboxes := w.db.inboxes + [Inbox(q.sentBy, [])]);
    Further(w.db, q, AddingUser, db1, AddingInbox);
    Further(db1, q, AddingInbox, db2, Done(Success));
    Ended(db2, q, Done(Success));
  }

  lemma ServedLast(qs: seq<Request>, q: Request)
    ensures ServedAll(EMPTY, qs + [q]) == Served(ServedAll(EMPTY, qs), q)
  {
    hide Served;
    var all := qs + [q];
    assert all[..|all| - 1] == qs;
  }

  lemma SameLetters()
    ensures Known(["alice", "bob"], "BOB")
  {
    var users := ["alice", "bob"];
    assert Lower("bob") == "bob";
    assert Lower("BOB") == "bob";
    assert Lower(users[1]) == Lower("BOB");
  }

  /** Three requests after which a chat has no inbox on one side: the name is found in other letters only. */
  lemma OneSided()
    ensures Exact(ServedAll(EMPTY, [ALICE, BOB]).db)
    ensures !Exact(ServedAll(EMPTY, [ALICE, BOB, TO_BOB]).db)
  {
    hide Served, Exact, Known, ServedAll;
    ServedNone();
    ServedLast([], ALICE);
    ServedLast([ALICE], BOB);
    ServedLast([ALICE, BOB], TO_BOB);
    assert [] + [ALICE] == [ALICE] && [ALICE] + [BOB] == [ALICE, BOB] && [ALICE, BOB] + [TO_BOB] == [ALICE, BOB, TO_BOB];
    var w := ServedAll(EMPTY, [ALICE, BOB]);
    Added(EMPTY, ALICE);
    Added(ServedAll(EMPTY, [ALICE]), BOB);
    EmptyExact();
    ServedExact(EMPTY, ALICE);
    ServedExact(ServedAll(EMPTY, [ALICE]), BOB);
    assert w.db.users == ["alice", "bob"];
    SameLetters();
    assert !HaveInboxes(w.db, TO_BOB);
    ServedExact(w, TO_BOB);
  }

  lemma ServedNone()
    ensures ServedAll(EMPTY, []) == EMPTY
  {
  }
}
