/** What becomes of one request that is served alone: where its message goes, who sees it, and what is answered. */
module ChatDelivery {
  import opened Options
  import opened ChatServer
  import opened ChatRuns

  // ---------------------------------------------------------------- what is delivered

  /** Message m is at the end of log n, and nothing else is different. */
  predicate Logged(logs: seq<Log>, n: nat, m: Message, after: seq<Log>) {
    && n < |logs| == |after| && after[n].id == logs[n].id && after[n].messages == logs[n].messages + [m]
    && forall k {:trigger after[k]} :: 0 <= k < |after| && k != n ==> after[k] == logs[k]
  }

  /** Both users see the text for each other, and nobody sees anything else than before for anyone else. */
  ghost predicate Seen(before: seq<Inbox>, q: Request, after: seq<Inbox>) {
    && Shows(after, q.sentBy, q.sentTo) == Shows(after, q.sentTo, q.sentBy) == Some(Last(q.text, q.time))
    && forall x, y {:trigger Shows(after, x, y)} ::
         !(x == q.sentBy && y == q.sentTo) && !(x == q.sentTo && y == q.sentBy) ==> Shows(after, x, y) == Shows(before, x, y)
  }

  /** A message in chat n. It is answered with success unless nothing changes for one of the users: because they are the
      same, or because the same text was sent at the same time before. */
  ghost predicate InOldChat(db: Db, q: Request, n: nat, d: Db, reply: Reply) {
    && d.users == db.users && d.chats == db.chats
    && Logged(db.logs, n, Message(q.sentBy, q.text, q.time), d.logs) && Seen(db.inboxes, q, d.inboxes)
    && (reply == Success <==> q.sentBy != q.sentTo && Shows(db.inboxes, q.sentBy, q.sentTo) != Some(Last(q.text, q.time)))
    && reply != NoSuchUser
  }

  /** A message in a chat of its own. It is answered with success when both users have an inbox, and are not the same. */
  ghost predicate InNewChat(db: Db, q: Request, d: Db, reply: Reply) {
    && d.users == db.users && |d.chats| == |db.chats| + 1 && d.chats[..|db.chats|] == db.chats
    && var c := d.chats[|db.chats|];
    && c.user1 == q.sentBy && c.user2 == q.sentTo && (forall k {:trigger db.chats[k]} :: 0 <= k < |db.chats| ==> db.chats[k].id < c.id)
    && d.logs == db.logs + [Log(c.id, [Message(q.sentBy, q.text, q.time)])]
    && (HaveInboxes(db, q) ==> Seen(db.inboxes, q, d.inboxes))
    && (reply == Success <==> HaveInboxes(db, q) && q.sentBy != q.sentTo) && reply != NoSuchUser
  }

  /** The first chat of two users, in either order, is chat n, or they have none and n is the number of chats. */
  predicate FirstChat(chats: seq<Chat>, a: string, b: string, n: nat) {
    && n <= |chats| && (n < |chats| ==> ChatOf(chats[n], a, b))
    && forall k {:trigger chats[k]} :: 0 <= k < n ==> !ChatOf(chats[k], a, b)
  }

  predicate ChatOf(c: Chat, a: string, b: string) {
    (c.user1 == a && c.user2 == b) || (c.user1 == b && c.user2 == a)
  }

  /** The same character, or the same letter in upper and in lower case. */
  predicate SameLetter(c: char, d: char) {
    c == d || ('A' <= c <= 'Z' && d as int == c as int + 32) || ('A' <= d <= 'Z' && c as int == d as int + 32)
  }

  predicate SameName(s: string, t: string) {
    |s| == |t| && forall i {:trigger s[i]} :: 0 <= i < |s| ==> SameLetter(s[i], t[i])
  }

  predicate Registered(users: seq<string>, name: string) {
    exists k {:trigger users[k]} :: 0 <= k < |users| && SameName(users[k], name)
  }

  /** What a request served alone, with no failing call, makes of an exact database, and what it is answered. */
  ghost predicate Delivered(db: Db, q: Request, d: Db, reply: Reply) {
    exists n: nat :: FirstChat(db.chats, q.sentBy, q.sentTo, n) && DeliveredTo(db, q, n, d, reply)
  }

  ghost predicate DeliveredTo(db: Db, q: Request, n: nat, d: Db, reply: Reply) {
    var known := Registered(db.users, q.sentTo);
    && (q.kind.AddUser? ==>
          reply == Success && d == db.(users := db.users + [q.sentBy], inboxes := db.inboxes + [Inbox(q.sentBy, [])]))
    && (q.kind.Send? && n == |db.chats| ==> reply == DbError && d == db)
    && (q.kind.SendNew? && !known ==> reply == NoSuchUser && d == db)
    && (q.kind.SendNew? && known && n == |db.chats| ==> InNewChat(db, q, d, reply))
    && (!q.kind.AddUser? && (q.kind.SendNew? ==> known) && n < |db.chats| ==> InOldChat(db, q, n, d, reply))
  }

  lemma ChatAtIs(chats: seq<Chat>, a: string, b: string)
    ensures FirstChat(chats, a, b, ChatAt(chats, a, b))
  {
  }

  lemma {:induction false} LowerSame(s: string, t: string)
    ensures Lower(s) == Lower(t) <==> SameName(s, t)
  {
    if |s| > 0 && |t| > 0 {
      LowerSame(s[1..], t[1..]);
      assert s == [s[0]] + s[1..] && t == [t[0]] + t[1..];
      assert Lower(s)[1..] == Lower(s[1..]) && Lower(t)[1..] == Lower(t[1..]);
      assert Lower(s) == Lower(t) <==> Lower(s)[0] == Lower(t)[0] && Lower(s[1..]) == Lower(t[1..]);
      SameTail(s, t);
    }
  }

  lemma SameTail(s: string, t: string)
    requires |s| > 0 && |t| > 0
    ensures SameName(s, t) <==> SameLetter(s[0], t[0]) && SameName(s[1..], t[1..])
  {
    hide SameLetter;
    if SameLetter(s[0], t[0]) && SameName(s[1..], t[1..]) {
      assert forall i {:trigger s[i]} :: 0 < i < |s| ==> s[i] == s[1..][i - 1] && t[i] == t[1..][i - 1];
    }
    if SameName(s, t) {
      assert forall i {:trigger s[1..][i]} :: 0 <= i < |s| - 1 ==> s[1..][i] == s[i + 1] && t[1..][i] == t[i + 1];
    }
  }

  lemma KnownIs(users: seq<string>, name: string)
    ensures Known(users, name) <==> Registered(users, name)
  {
    hide Lower, SameName;
    forall k | 0 <= k < |users| ensures Lower(users[k]) == Lower(name) <==> SameName(users[k], name) {
      LowerSame(users[k], name);
    }
  }

  // ---------------------------------------------------------------- answers

  /** What a request is answered in the end. */
  function Answer(db: Db, r: Running): Reply
    decreases Rank(r.stage)
  {
    if r.stage.Done? then r.stage.reply else
      Falls(db, r);
      Answer(Effect(db, r), Running(r.request, Continued(db, r)))
  }

  lemma {:induction false} FinishedAnswer(w: World, i: nat)
    requires i < |w.running|
    ensures var x := Finished(w, i); i < |x.running| && x.running[i].stage == Done(Answer(w.db, w.running[i]))
    decreases Rank(w.running[i].stage)
  {
    hide Effect, Continued, Rank;
    if !w.running[i].stage.Done? {
      Falls(w.db, w.running[i]);
      CallFalls(w, i);
      FinishedAnswer(Next(w, Calls(i, Succeeds)), i);
    }
  }

  /** One call further. */
  lemma Goes(db: Db, q: Request, s: Stage, db2: Db, s2: Stage)
    requires !s.Done? && db2 == Effect(db, Running(q, s)) && s2 == Continued(db, Running(q, s))
    ensures Result(db, Running(q, s)) == Result(db2, Running(q, s2))
    ensures Answer(db, Running(q, s)) == Answer(db2, Running(q, s2))
  {
    hide Effect, Continued;
  }

  lemma Stops(db: Db, q: Request, s: Stage)
    requires s.Done?
    ensures Result(db, Running(q, s)) == db && Answer(db, Running(q, s)) == s.reply
  {
  }

  /** Storing an inbox that has been brought up to date modifies it unless it showed the same before. */
  lemma ModifiesIff(inboxes: seq<Inbox>, u: string, v: string, q: Request, isNew: bool, entries: seq<Entry>)
    requires InboxAt(inboxes, u) < |inboxes|
    requires Updated(inboxes[InboxAt(inboxes, u)].entries, v, q, isNew) == Some(entries)
    ensures Modifies(inboxes, u, entries) <==> Shows(inboxes, u, v) != Some(Last(q.text, q.time))
  {
    var old_ := inboxes[InboxAt(inboxes, u)].entries;
    var k := EntryAt(old_, v);
    if k < |old_| {
      assert entries == old_[k := Entry(v, q.text, q.time)];
      if old_[k] == Entry(v, q.text, q.time) {
        assert entries == old_;
      } else {
        assert entries[k] != old_[k];
      }
    } else {
      assert |entries| != |old_|;
    }
  }

  /** The receiver's side. */
  lemma AnswerReceiver(db: Db, q: Request, isNew: bool)
    requires InboxAt(db.inboxes, q.sentTo) < |db.inboxes|
    requires isNew || Shows(db.inboxes, q.sentTo, q.sentBy).Some?
    ensures var reply := Answer(db, Running(q, ReadingReceiver(isNew)));
            reply == if Shows(db.inboxes, q.sentTo, q.sentBy) != Some(Last(q.text, q.time)) then Success else DbError
  {
    hide Result, Answer, Shows, Modifies, Stored, Updated;
    EntryShown(db.inboxes, q.sentTo, q.sentBy, q, isNew);
    var e := AfterRead(db, q.sentTo, q.sentBy, q, isNew).value;
    ModifiesIff(db.inboxes, q.sentTo, q.sentBy, q, isNew, e);
    var db2 := db.(inboxes := Stored(db.inboxes, q.sentTo, e));
    Goes(db, q, ReadingReceiver(isNew), db, WritingReceiver(e));
    var s := Continued(db, Running(q, WritingReceiver(e)));
    Goes(db, q, WritingReceiver(e), db2, s);
    Stops(db2, q, s);
  }

  /** Both sides. */
  lemma AnswerSender(db: Db, q: Request, isNew: bool)
    requires InboxAt(db.inboxes, q.sentBy) < |db.inboxes| && InboxAt(db.inboxes, q.sentTo) < |db.inboxes|
    requires isNew || Shows(db.inboxes, q.sentTo, q.sentBy).Some?
    requires Shows(db.inboxes, q.sentTo, q.sentBy) == Shows(db.inboxes, q.sentBy, q.sentTo)
    ensures var reply := Answer(db, Running(q, ReadingSender(isNew)));
            && (reply == Success <==> q.sentBy != q.sentTo && Shows(db.inboxes, q.sentBy, q.sentTo) != Some(Last(q.text, q.time)))
            && reply != NoSuchUser
  {
    hide Result, Answer, Shows, Modifies, Stored, Updated, Told, InboxAt, Continued, Effect, AfterRead;
    var e, s := SenderWrites(db, q, isNew);
    var mid := Stored(db.inboxes, q.sentBy, e);
    var db2 := db.(inboxes := mid);
    StoredTold(db.inboxes, q.sentBy, q.sentTo, q, isNew, e);
    ModifiesIff(db.inboxes, q.sentBy, q.sentTo, q, isNew, e);
    Goes(db, q, ReadingSender(isNew), db, WritingSender(isNew, e));
    Goes(db, q, WritingSender(isNew, e), db2, s);
    if Modifies(db.inboxes, q.sentBy, e) {
      SameUsers(db.inboxes, q.sentBy, e, q.sentTo);
      if !isNew {
        StillShown(db.inboxes, mid, q, q.sentTo, q.sentBy);
      }
      ToldOther(db.inboxes, mid, q);
      AnswerReceiver(db2, q, isNew);
    } else {
      NotWritten(db, q, isNew, e);
      Stops(db2, q, s);
    }
  }

  lemma NotWritten(db: Db, q: Request, isNew: bool, e: seq<Entry>)
    requires !Modifies(db.inboxes, q.sentBy, e)
    ensures Continued(db, Running(q, WritingSender(isNew, e))) == Done(DbError)
  {
  }

  lemma ToldOther(before: seq<Inbox>, mid: seq<Inbox>, q: Request)
    requires Told(before, mid, q.sentBy, q.sentTo, q)
    ensures Shows(mid, q.sentTo, q.sentBy)
         == if q.sentBy == q.sentTo then Some(Last(q.text, q.time)) else Shows(before, q.sentTo, q.sentBy)
  {
    hide Shows;
    assert Shows(mid, q.sentTo, q.sentBy) == Shows(mid, q.sentTo, q.sentBy);
  }

  lemma {:induction false} UsersSame(db: Db, r: Running)
    requires !r.stage.AddingUser?
    ensures Result(db, r).users == db.users
    decreases Rank(r.stage)
  {
    hide Pushed, Stored, Modifies, Updated, AfterRead, NextId;
    if !r.stage.Done? {
      Falls(db, r);
      UsersSame(Effect(db, r), Running(r.request, Continued(db, r)));
    }
  }

  // ---------------------------------------------------------------- whole requests

  lemma TwoSeen(before: seq<Inbox>, after: seq<Inbox>, q: Request)
    requires BothTold(before, after, q)
    ensures Seen(before, q, after)
  {
    hide Shows;
  }

  lemma PushedIs(logs: seq<Log>, n: nat, id: int, m: Message)
    requires n == LogAt(logs, id) < |logs|
    ensures Logged(logs, n, m, Pushed(logs, id, m))
  {
  }

  /** The message goes into the chat there is. */
  lemma DeliversOld(db: Db, q: Request, n: nat)
    requires Exact(db) && n == ChatAt(db.chats, q.sentBy, q.sentTo) < |db.chats|
    ensures var r := Running(q, PushingMessage(db.chats[n].id)); InOldChat(db, q, n, Result(db, r), Answer(db, r))
  {
    hide Result, Answer, BothTold, Seen, Logged, Pushed, Shows, LastBetween, Exact;
    var id := db.chats[n].id;
    var s := PushingMessage(id);
    var m := MessageOf(q);
    var db2 := db.(logs := Pushed(db.logs, id, m));
    Agree(db, q.sentBy, q.sentTo);
    ExactLogs(db);
    OneLog(db.chats, db.logs, n);
    PushedIs(db.logs, n, id, m);
    OldShown(db, q, n);
    Goes(db, q, s, db2, ReadingSender(false));
    ResultSender(db2, q, false);
    AnswerSender(db2, q, false);
    UsersSame(db2, Running(q, ReadingSender(false)));
    TwoSeen(db.inboxes, Result(db, Running(q, s)).inboxes, q);
  }

  /** Where there is a chat, both have an inbox that shows it. */
  lemma OldShown(db: Db, q: Request, n: nat)
    requires Exact(db) && n == ChatAt(db.chats, q.sentBy, q.sentTo) < |db.chats|
    ensures Shows(db.inboxes, q.sentTo, q.sentBy).Some?
    ensures InboxAt(db.inboxes, q.sentBy) < |db.inboxes| && InboxAt(db.inboxes, q.sentTo) < |db.inboxes|
  {
    Agree(db, q.sentBy, q.sentTo);
  }

  lemma NewShown(db: Db, q: Request)
    requires Exact(db) && ChatAt(db.chats, q.sentBy, q.sentTo) == |db.chats|
    ensures Shows(db.inboxes, q.sentBy, q.sentTo) == Shows(db.inboxes, q.sentTo, q.sentBy) == None
  {
    Agree(db, q.sentBy, q.sentTo);
  }

  /** Without a chat there is a new one. */
  lemma DeliversNew(db: Db, q: Request)
    requires Exact(db) && ChatAt(db.chats, q.sentBy, q.sentTo) == |db.chats|
    ensures var r := Running(q, ReadingLastId); InNewChat(db, q, Result(db, r), Answer(db, r))
  {
    hide Result, Answer, BothTold, Seen, Shows, LastBetween, Exact, HaveInboxes, NextId;
    var db2, r2 := WithChat(db, q), Running(q, ReadingSender(true));
    var d := Result(db2, r2);
    NewChatAnswer(db, q);
    NewShown(db, q);
    UsersSame(db2, r2);
    BothThere(db, q);
    if HaveInboxes(db, q) {
      ResultSender(db2, q, true);
      AnswerSender(db2, q, true);
      TwoSeen(db.inboxes, d.inboxes, q);
    } else {
      OneMissing(db2, q);
    }
  }

  lemma BothThere(db: Db, q: Request)
    ensures HaveInboxes(db, q) <==> InboxAt(db.inboxes, q.sentBy) < |db.inboxes| && InboxAt(db.inboxes, q.sentTo) < |db.inboxes|
  {
  }

  lemma NewChatAnswer(db: Db, q: Request)
    ensures Result(db, Running(q, ReadingLastId)) == Result(WithChat(db, q), Running(q, ReadingSender(true)))
    ensures Answer(db, Running(q, ReadingLastId)) == Answer(WithChat(db, q), Running(q, ReadingSender(true)))
  {
    hide Result, Answer, NextId;
    var id := NextId(db.chats);
    var db1 := db.(chats := db.chats + [Chat(id, q.sentBy, q.sentTo)]);
    Goes(db, q, ReadingLastId, db, InsertingChat(id));
    Goes(db, q, InsertingChat(id), db1, InsertingLog(id));
    Goes(db1, q, InsertingLog(id), WithChat(db, q), ReadingSender(true));
  }

  /** An inbox that is missing ends the request with an error, whatever has been written by then. */
  lemma OneMissing(db: Db, q: Request)
    requires InboxAt(db.inboxes, q.sentBy) == |db.inboxes| || InboxAt(db.inboxes, q.sentTo) == |db.inboxes|
    ensures var r := Running(q, ReadingSender(true));
            Answer(db, r) == DbError && Result(db, r).chats == db.chats && Result(db, r).logs == db.logs
  {
    hide Result, Answer, Effect, Continued, Stored, InboxAt;
    var s := Continued(db, Running(q, ReadingSender(true)));
    SenderRead(db, q);
    Goes(db, q, ReadingSender(true), db, s);
    if s.Done? {
      Stops(db, q, s);
    } else {
      var db2 := db.(inboxes := Stored(db.inboxes, q.sentBy, s.entries));
      var s2 := Continued(db, Running(q, s));
      Goes(db, q, s, db2, s2);
      if s2.Done? {
        Stops(db2, q, s2);
      } else {
        SameUsers(db.inboxes, q.sentBy, s.entries, q.sentTo);
        ReceiverRead(db2, q);
        Goes(db2, q, s2, db2, Done(DbError));
        Stops(db2, q, Done(DbError));
      }
    }
  }

  lemma SenderRead(db: Db, q: Request)
    ensures Effect(db, Running(q, ReadingSender(true))) == db
    ensures var s := Continued(db, Running(q, ReadingSender(true)));
            && (InboxAt(db.inboxes, q.sentBy) == |db.inboxes| ==> s == Done(DbError))
            && (s.Done? ==> s == Done(DbError))
            && (!s.Done? ==>
                  && s == WritingSender(true, s.entries)
                  && Effect(db, Running(q, s)) == db.(inboxes := Stored(db.inboxes, q.sentBy, s.entries))
                  && (Continued(db, Running(q, s)) == Done(DbError) || Continued(db, Running(q, s)) == ReadingReceiver(true)))
  {
    hide Updated, Modifies, Stored;
  }

  lemma ReceiverRead(db: Db, q: Request)
    requires InboxAt(db.inboxes, q.sentTo) == |db.inboxes|
    ensures Effect(db, Running(q, ReadingReceiver(true))) == db
    ensures Continued(db, Running(q, ReadingReceiver(true))) == Done(DbError)
  {
    hide Updated, Stored;
  }

  lemma DeliversUser(db: Db, q: Request)
    ensures Answer(db, Running(q, AddingUser)) == Success
    ensures Result(db, Running(q, AddingUser)) == db.(users := db.users + [q.sentBy], inboxes := db.inboxes + [Inbox(q.sentBy, [])])
  {
    hide Result, Answer;
    var db1 := db.(users := db.users + [q.sentBy]);
    var db2 := db1.(inboxes := db.inboxes + [Inbox(q.sentBy, [])]);
    Goes(db, q, AddingUser, db1, AddingInbox);
    Goes(db1, q, AddingInbox, db2, Done(Success));
    Stops(db2, q, Done(Success));
  }

  lemma DeliversFound(db: Db, q: Request)
    requires Exact(db) && !q.kind.AddUser?
    ensures var n, r := ChatAt(db.chats, q.sentBy, q.sentTo), Running(q, FindingChat);
            && (n < |db.chats| ==> InOldChat(db, q, n, Result(db, r), Answer(db, r)))
            && (n == |db.chats| && q.kind.SendNew? ==> InNewChat(db, q, Result(db, r), Answer(db, r)))
            && (n == |db.chats| && q.kind.Send? ==> Result(db, r) == db && Answer(db, r) == DbError)
  {
    hide Result, Answer, InOldChat, InNewChat, Exact;
    var n := ChatAt(db.chats, q.sentBy, q.sentTo);
    var s := Continued(db, Running(q, FindingChat));
    Goes(db, q, FindingChat, db, s);
    if n < |db.chats| {
      DeliversOld(db, q, n);
    } else if q.kind.SendNew? {
      DeliversNew(db, q);
    } else {
      Stops(db, q, s);
    }
  }

  /** Every request, of any kind, on every exact database. */
  lemma Delivers(db: Db, q: Request)
    requires Exact(db)
    ensures var r := Running(q, FirstStage(q.kind)); Delivered(db, q, Result(db, r), Answer(db, r))
  {
    hide Result, Answer, InOldChat, InNewChat, Exact, Known, Registered, FirstChat;
    ChatAtIs(db.chats, q.sentBy, q.sentTo);
    KnownIs(db.users, q.sentTo);
    match q.kind
    case AddUser => DeliversUser(db, q);
    case Send => DeliversFound(db, q);
    case SendNew =>
      var s := Continued(db, Running(q, ReadingUsers));
      Goes(db, q, ReadingUsers, db, s);
      if Known(db.users, q.sentTo) {
        DeliversFound(db, q);
      } else {
        Stops(db, q, s);
      }
  }

  // ---------------------------------------------------------------- the server

  /** The server takes a request and makes all its calls, with no others in between and none that fails. */
  method Serve(server: Server, q: Request) returns (reply: Reply)
    requires Exact(server.State().db)
    modifies server
    ensures Delivered(old(server.State().db), q, server.State().db, reply)
    ensures server.State() == Served(old(server.State()), q)
  {
    hide Result, Answer, Delivered, Exact, Next, Effect, Continued, FirstStage;
    ghost var w0 := server.State();
    server.Arrive(q);
    ghost var w := server.State();
    var i := |server.running| - 1;
    Arrived(w0, q);
    FinishedResult(w, i);
    FinishedAnswer(w, i);
    Delivers(w0.db, q);
    while !server.running[i].stage.Done?
      invariant i < |server.running| && Finished(server.State(), i) == Finished(w, i)
      decreases Rank(server.running[i].stage)
    {
      CallFalls(server.State(), i);
      server.Call(i, Succeeds);
    }
    reply := server.running[i].stage.reply;
  }

  lemma Arrived(w: World, q: Request)
    ensures var x := Next(w, Arrives(q)); x.db == w.db && x.running == w.running + [Running(q, FirstStage(q.kind))]
  {
  }
}
