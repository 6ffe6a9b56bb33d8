/**
 * The chat server's handlers as step machines. Every database call is one step; between the steps of
 * one request any steps of others can come, and every call can fail with or without its effect.
 */
module ChatServer {
  import opened Options

  datatype Message = Message(sentBy: string, text: string, time: int)

  /** The documents of chat_ids, chat_messages and user_messages. */
  datatype Chat = Chat(id: int, user1: string, user2: string)
  datatype Log = Log(id: int, messages: seq<Message>)
  datatype Entry = Entry(to: string, last: string, time: int)
  datatype Inbox = Inbox(user: string, entries: seq<Entry>)

  datatype Db = Db(users: seq<string>, chats: seq<Chat>, logs: seq<Log>, inboxes: seq<Inbox>)

  datatype Kind = AddUser | Send | SendNew

  datatype Reply = Success | DbError | NoSuchUser

  /**
   * The database call a request makes next. isNew is whether its chat is a new one; entries is the array
   * read from an inbox, as changed by the handler.
   */
  datatype Stage =
    | AddingUser
    | AddingInbox
    | ReadingUsers
    | FindingChat
    | PushingMessage(id: int)
    | ReadingLastId
    | InsertingChat(id: int)
    | InsertingLog(id: int)
    | ReadingSender(isNew: bool)
    | WritingSender(isNew: bool, entries: seq<Entry>)
    | ReadingReceiver(isNew: bool)
    | WritingReceiver(entries: seq<Entry>)
    | Done(reply: Reply)

  datatype Request = Request(kind: Kind, sentBy: string, sentTo: string, text: string, time: int)

  datatype Running = Running(request: Request, stage: Stage)

  /** What becomes of a call: it succeeds, it fails without an effect, or it takes effect but is reported as failed. */
  datatype Outcome = Succeeds | Fails | Lost

  // ---------------------------------------------------------------- queries

  predicate SamePair(a: string, b: string, c: string, d: string) {
    (a == c && b == d) || (a == d && b == c)
  }

  predicate Links(c: Chat, a: string, b: string) {
    SamePair(c.user1, c.user2, a, b)
  }

  function ChatAt(chats: seq<Chat>, a: string, b: string): (n: nat)
    ensures n <= |chats| && (n < |chats| ==> Links(chats[n], a, b))
    ensures forall k {:trigger chats[k]} :: 0 <= k < n ==> !Links(chats[k], a, b)
  {
    if |chats| == 0 || Links(chats[0], a, b) then 0
    else
      var n := ChatAt(chats[1..], a, b);
      assert forall k {:trigger chats[k]} :: 0 < k < n + 1 ==> chats[k] == chats[1..][k - 1];
      n + 1
  }

  function LogAt(logs: seq<Log>, id: int): (n: nat)
    ensures n <= |logs| && (n < |logs| ==> logs[n].id == id)
    ensures forall k {:trigger logs[k]} :: 0 <= k < n ==> logs[k].id != id
  {
    if |logs| == 0 || logs[0].id == id then 0
    else
      var n := LogAt(logs[1..], id);
      assert forall k {:trigger logs[k]} :: 0 < k < n + 1 ==> logs[k] == logs[1..][k - 1];
      n + 1
  }

  function InboxAt(inboxes: seq<Inbox>, user: string): (n: nat)
    ensures n <= |inboxes| && (n < |inboxes| ==> inboxes[n].user == user)
    ensures forall k {:trigger inboxes[k]} :: 0 <= k < n ==> inboxes[k].user != user
  {
    if |inboxes| == 0 || inboxes[0].user == user then 0
    else
      var n := InboxAt(inboxes[1..], user);
      assert forall k {:trigger inboxes[k]} :: 0 < k < n + 1 ==> inboxes[k] == inboxes[1..][k - 1];
      n + 1
  }

  function EntryAt(entries: seq<Entry>, to: string): (n: nat)
    ensures n <= |entries| && (n < |entries| ==> entries[n].to == to)
    ensures forall k {:trigger entries[k]} :: 0 <= k < n ==> entries[k].to != to
  {
    if |entries| == 0 || entries[0].to == to then 0
    else
      var n := EntryAt(entries[1..], to);
      assert forall k {:trigger entries[k]} :: 0 < k < n + 1 ==> entries[k] == entries[1..][k - 1];
      n + 1
  }

  function Lower(s: string): string {
    if |s| == 0 then ""
    else [if 'A' <= s[0] <= 'Z' then (s[0] as int + 32) as char else s[0]] + Lower(s[1..])
  }

  /** Whether a user is known, with letters taken as equal whatever their case. */
  predicate Known(users: seq<string>, name: string) {
    exists k :: 0 <= k < |users| && Lower(users[k]) == Lower(name)
  }

  /** The id after the greatest one in use. */
  function NextId(chats: seq<Chat>): (id: int)
    ensures |chats| == 0 ==> id == 0
    ensures forall k {:trigger chats[k]} :: 0 <= k < |chats| ==> chats[k].id < id
    ensures |chats| > 0 ==> exists k :: 0 <= k < |chats| && chats[k].id == id - 1
  {
    if |chats| == 0 then 0
    else if |chats| == 1 then chats[0].id + 1
    else
      var n := NextId(chats[1..]);
      assert forall k {:trigger chats[k]} :: 0 < k < |chats| ==> chats[k] == chats[1..][k - 1];
      assert chats[0].id + 1 > n ==> chats[0].id == chats[0].id + 1 - 1;
      if chats[0].id + 1 > n then chats[0].id + 1 else n
  }

  // ---------------------------------------------------------------- one call

  function MessageOf(q: Request): Message {
    Message(q.sentBy, q.text, q.time)
  }

  function FirstStage(kind: Kind): Stage {
    match kind
    case AddUser => AddingUser
    case Send => FindingChat
    case SendNew => ReadingUsers
  }

  /** The array of an inbox with the entry for a user brought up to date; without one, it is added if the chat is new. */
  function Updated(entries: seq<Entry>, to: string, q: Request, isNew: bool): Option<seq<Entry>> {
    var idx := EntryAt(entries, to);
    var e := Entry(to, q.text, q.time);
    if idx < |entries| then Some(entries[idx := e]) else if isNew then Some(entries + [e]) else None
  }

  function Pushed(logs: seq<Log>, id: int, m: Message): seq<Log> {
    var n := LogAt(logs, id);
    if n < |logs| then logs[n := Log(logs[n].id, logs[n].messages + [m])] else logs
  }

  function Stored(inboxes: seq<Inbox>, user: string, entries: seq<Entry>): seq<Inbox> {
    var n := InboxAt(inboxes, user);
    if n < |inboxes| then inboxes[n := Inbox(user, entries)] else inboxes
  }

  /** Whether storing the entries changes a document: only then is one counted as modified. */
  predicate Modifies(inboxes: seq<Inbox>, user: string, entries: seq<Entry>) {
    var n := InboxAt(inboxes, user);
    n < |inboxes| && inboxes[n].entries != entries
  }

  /** The database after the call a request makes. */
  function Effect(db: Db, r: Running): Db {
    var q := r.request;
    match r.stage
    case AddingUser => db.(users := db.users + [q.sentBy])
    case AddingInbox => db.(inboxes := db.inboxes + [Inbox(q.sentBy, [])])
    case PushingMessage(id) => db.(logs := Pushed(db.logs, id, MessageOf(q)))
    case InsertingChat(id) => db.(chats := db.chats + [Chat(id, q.sentBy, q.sentTo)])
    case InsertingLog(id) => db.(logs := db.logs + [Log(id, [MessageOf(q)])])
    case WritingSender(_, entries) => db.(inboxes := Stored(db.inboxes, q.sentBy, entries))
    case WritingReceiver(entries) => db.(inboxes := Stored(db.inboxes, q.sentTo, entries))
    case _ => db
  }

  /** What an inbox read by a request makes of it: no inbox, or no entry in one for an old chat, ends it. */
  function AfterRead(db: Db, user: string, to: string, q: Request, isNew: bool): Option<seq<Entry>> {
    var n := InboxAt(db.inboxes, user);
    if n == |db.inboxes| then None else Updated(db.inboxes[n].entries, to, q, isNew)
  }

  /** Where a request goes on after its call has succeeded on the database db. */
  function Continued(db: Db, r: Running): Stage {
    var q := r.request;
    match r.stage
    case AddingUser => AddingInbox
    case AddingInbox => Done(Success)
    case ReadingUsers => if Known(db.users, q.sentTo) then FindingChat else Done(NoSuchUser)
    case FindingChat =>
      var n := ChatAt(db.chats, q.sentBy, q.sentTo);
      if n < |db.chats| then PushingMessage(db.chats[n].id)
      else if q.kind.SendNew? then ReadingLastId
      else Done(DbError)
    case PushingMessage(id) =>
      if LogAt(db.logs, id) < |db.logs| then ReadingSender(false) else Done(DbError)
    case ReadingLastId => InsertingChat(NextId(db.chats))
    case InsertingChat(id) => InsertingLog(id)
    case InsertingLog(_) => ReadingSender(true)
    case ReadingSender(isNew) =>
      var e := AfterRead(db, q.sentBy, q.sentTo, q, isNew);
      if e.None? then Done(DbError) else WritingSender(isNew, e.value)
    case WritingSender(isNew, entries) =>
      if Modifies(db.inboxes, q.sentBy, entries) then ReadingReceiver(isNew) else Done(DbError)
    case ReadingReceiver(isNew) =>
      var e := AfterRead(db, q.sentTo, q.sentBy, q, isNew);
      if e.None? then Done(DbError) else WritingReceiver(e.value)
    case WritingReceiver(entries) =>
      Done(if Modifies(db.inboxes, q.sentTo, entries) then Success else DbError)
    case Done(reply) => Done(reply)
  }

  // ---------------------------------------------------------------- runs

  datatype World = World(db: Db, running: seq<Running>)

  datatype Event = Arrives(request: Request) | Calls(i: nat, outcome: Outcome)

  /** One event: a request comes in, or the next call of one that is not done is made. */
  function Next(w: World, e: Event): World {
    match e
    case Arrives(q) => w.(running := w.running + [Running(q, FirstStage(q.kind))])
    case Calls(i, outcome) =>
      if i >= |w.running| || w.running[i].stage.Done? then w
      else
        var r := w.running[i];
        var stage := if outcome.Succeeds? then Continued(w.db, r) else Done(DbError);
        World(if outcome.Fails? then w.db else Effect(w.db, r), w.running[i := Running(r.request, stage)])
  }

  const EMPTY: World := World(Db([], [], [], []), [])

  function Run(events: seq<Event>): World {
    if |events| == 0 then EMPTY else Next(Run(events[..|events| - 1]), events[|events| - 1])
  }

  /** The server: its four collections and the requests it has taken. */
  class Server {
    var users: seq<string>
    var chats: seq<Chat>
    var logs: seq<Log>
    var inboxes: seq<Inbox>
    var running: seq<Running>

    ghost function State(): World
      reads this
    {
      World(Db(users, chats, logs, inboxes), running)
    }

    constructor ()
      ensures State() == EMPTY
    {
      users, chats, logs, inboxes, running := [], [], [], [], [];
    }

    method Arrive(q: Request)
      modifies this`running
      ensures State() == Next(old(State()), Arrives(q))
    {
      var first: Stage;
      match q.kind {
        case AddUser => first := AddingUser;
        case Send => first := FindingChat;
        case SendNew => first := ReadingUsers;
      }
      running := running + [Running(q, first)];
    }

    /** The next call of request i, which has not been answered. */
    method Call(i: nat, outcome: Outcome)
      requires i < |running| && !running[i].stage.Done?
      modifies this
      ensures State() == Next(old(State()), Calls(i, outcome))
      ensures |running| == old(|running|) && running[i].request == old(running[i].request)
      ensures forall k {:trigger running[k]} :: 0 <= k < |running| && k != i ==> running[k] == old(running)[k]
      ensures !outcome.Succeeds? ==> running[i].stage == Done(DbError)
      ensures outcome.Fails? ==> users == old(users) && chats == old(chats) && logs == old(logs) && inboxes == old(inboxes)
    {
      hide Pushed, NextId, Known, Modifies, Updated;
      var r := running[i];
      var stage := Done(DbError);
      if outcome.Succeeds? {
        stage := Resume(r);
      }
      if !outcome.Fails? {
        Perform(r);
      }
      running := running[i := Running(r.request, stage)];
    }

    /** The call's effect on the collections. */
    method Perform(r: Running)
      modifies this`users, this`chats, this`logs, this`inboxes
      ensures Db(users, chats, logs, inboxes) == old(Effect(Db(users, chats, logs, inboxes), r))
    {
      var q := r.request;
      match r.stage {
        case AddingUser => users := users + [q.sentBy];
        case AddingInbox => inboxes := inboxes + [Inbox(q.sentBy, [])];
        case PushingMessage(id) =>
          var n := LogAt(logs, id);
          if n < |logs| {
            logs := logs[n := Log(logs[n].id, logs[n].messages + [MessageOf(q)])];
          }
        case InsertingChat(id) => chats := chats + [Chat(id, q.sentBy, q.sentTo)];
        case InsertingLog(id) => logs := logs + [Log(id, [MessageOf(q)])];
        case WritingSender(_, entries) =>
          var n := InboxAt(inboxes, q.sentBy);
          if n < |inboxes| {
            inboxes := inboxes[n := Inbox(q.sentBy, entries)];
          }
        case WritingReceiver(entries) =>
          var n := InboxAt(inboxes, q.sentTo);
          if n < |inboxes| {
            inboxes := inboxes[n := Inbox(q.sentTo, entries)];
          }
        case _ =>
      }
    }

    /** The handler's continuation, up to its next call. */
    method Resume(r: Running) returns (stage: Stage)
      ensures stage == Continued(Db(users, chats, logs, inboxes), r)
    {
      var q := r.request;
      stage := Done(DbError);
      match r.stage {
        case AddingUser => stage := AddingInbox;
        case AddingInbox => stage := Done(Success);
        case ReadingUsers => stage := if Known(users, q.sentTo) then FindingChat else Done(NoSuchUser);
        case FindingChat =>
          var n := ChatAt(chats, q.sentBy, q.sentTo);
          if n < |chats| {
            stage := PushingMessage(chats[n].id);
          } else if q.kind.SendNew? {
            stage := ReadingLastId;
          }
        case PushingMessage(id) =>
          if LogAt(logs, id) < |logs| {
            stage := ReadingSender(false);
          }
        case ReadingLastId => stage := InsertingChat(NextId(chats));
        case InsertingChat(id) => stage := InsertingLog(id);
        case InsertingLog(_) => stage := ReadingSender(true);
        case ReadingSender(isNew) =>
          var e := ReadInbox(q.sentBy, q.sentTo, q, isNew);
          if e.Some? {
            stage := WritingSender(isNew, e.value);
          }
        case WritingSender(isNew, entries) =>
          if Modifies(inboxes, q.sentBy, entries) {
            stage := ReadingReceiver(isNew);
          }
        case ReadingReceiver(isNew) =>
          var e := ReadInbox(q.sentTo, q.sentBy, q, isNew);
          if e.Some? {
            stage := WritingReceiver(e.value);
          }
        case WritingReceiver(entries) =>
          if Modifies(inboxes, q.sentTo, entries) {
            stage := Done(Success);
          }
        case Done(reply) => stage := Done(reply);
      }
    }

    /** The array toUpdate of an inbox, or nothing if the handler ends in its error branch. */
    method ReadInbox(user: string, to: string, q: Request, isNew: bool) returns (toUpdate: Option<seq<Entry>>)
      ensures toUpdate == AfterRead(Db(users, chats, logs, inboxes), user, to, q, isNew)
    {
      var n := InboxAt(inboxes, user);
      if n == |inboxes| {
        return None;
      }
      var entries := inboxes[n].entries;
      var idx := EntryAt(entries, to);
      if idx < |entries| {
        return Some(entries[idx := Entry(to, q.text, q.time)]);
      } else if isNew {
        return Some(entries + [Entry(to, q.text, q.time)]);
      } else {
        return None;
      }
    }
  }
}
