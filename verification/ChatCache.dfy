/**
 * The cache of last messages is justified by the logs: however requests interleave and calls fail, an
 * entry of u for v shows a message that u and v sent each other and that has been logged.
 */
module ChatCache {
  import opened Options
  import opened ChatServer

  predicate Logged(logs: seq<Log>, m: Message) {
    exists k :: 0 <= k < |logs| && m in logs[k].messages
  }

  /** Whether a request sent the text and time of an entry of user between the two, and it is in the logs. */
  predicate Sent(logs: seq<Log>, q: Request, user: string, e: Entry) {
    && SamePair(q.sentBy, q.sentTo, user, e.to) && q.text == e.last && q.time == e.time
    && Logged(logs, MessageOf(q))
  }

  predicate Backed(logs: seq<Log>, running: seq<Running>, user: string, e: Entry) {
    exists i :: 0 <= i < |running| && Sent(logs, running[i].request, user, e)
  }

  predicate AllBacked(logs: seq<Log>, running: seq<Running>, user: string, entries: seq<Entry>) {
    forall j {:trigger entries[j]} :: 0 <= j < |entries| ==> Backed(logs, running, user, entries[j])
  }

  predicate CacheBacked(w: World) {
    forall d {:trigger w.db.inboxes[d]} :: 0 <= d < |w.db.inboxes| ==>
      AllBacked(w.db.logs, w.running, w.db.inboxes[d].user, w.db.inboxes[d].entries)
  }

  /** Stages that come after the message has been logged. */
  predicate PastLog(s: Stage) {
    s.ReadingSender? || s.WritingSender? || s.ReadingReceiver? || s.WritingReceiver?
  }

  /** What holds of a request: its message is logged once it is past that, and the array it holds is backed. */
  predicate RequestBacked(logs: seq<Log>, running: seq<Running>, r: Running) {
    && (PastLog(r.stage) ==> Logged(logs, MessageOf(r.request)))
    && (r.stage.WritingSender? ==> AllBacked(logs, running, r.request.sentBy, r.stage.entries))
    && (r.stage.WritingReceiver? ==> AllBacked(logs, running, r.request.sentTo, r.stage.entries))
  }

  predicate RequestsBacked(w: World) {
    forall i {:trigger w.running[i]} :: 0 <= i < |w.running| ==>
      RequestBacked(w.db.logs, w.running, w.running[i])
  }

  predicate Justified(w: World) {
    CacheBacked(w) && RequestsBacked(w)
  }

  // ---------------------------------------------------------------- what only grows

  /** The logs keep their messages, and the requests stay what they are. */
  predicate Grown(logs: seq<Log>, more: seq<Log>) {
    |logs| <= |more| && forall k {:trigger logs[k]} :: 0 <= k < |logs| ==>
      forall m :: m in logs[k].messages ==> m in more[k].messages
  }

  predicate SameRequests(running: seq<Running>, more: seq<Running>) {
    |running| <= |more| && forall i {:trigger running[i]} :: 0 <= i < |running| ==>
      running[i].request == more[i].request
  }

  lemma StillLogged(logs: seq<Log>, more: seq<Log>, m: Message)
    requires Grown(logs, more) && Logged(logs, m)
    ensures Logged(more, m)
  {
    var k :| 0 <= k < |logs| && m in logs[k].messages;
    assert m in more[k].messages;
  }

  lemma StillBacked(logs: seq<Log>, more: seq<Log>, running: seq<Running>, later: seq<Running>, user: string, e: Entry)
    requires Grown(logs, more) && SameRequests(running, later) && Backed(logs, running, user, e)
    ensures Backed(more, later, user, e)
  {
    hide Grown, Logged;
    var i :| 0 <= i < |running| && Sent(logs, running[i].request, user, e);
    StillLogged(logs, more, MessageOf(running[i].request));
    assert Sent(more, later[i].request, user, e);
  }

  lemma StillAllBacked(logs: seq<Log>, more: seq<Log>, running: seq<Running>, later: seq<Running>,
                       user: string, entries: seq<Entry>)
    requires Grown(logs, more) && SameRequests(running, later) && AllBacked(logs, running, user, entries)
    ensures AllBacked(more, later, user, entries)
  {
    hide Grown, SameRequests, Backed;
    forall j | 0 <= j < |entries|
      ensures Backed(more, later, user, entries[j])
    {
      StillBacked(logs, more, running, later, user, entries[j]);
    }
  }

  lemma StillRequestBacked(logs: seq<Log>, more: seq<Log>, running: seq<Running>, later: seq<Running>, r: Running)
    requires Grown(logs, more) && SameRequests(running, later) && RequestBacked(logs, running, r)
    ensures RequestBacked(more, later, r)
  {
    hide Grown, SameRequests, AllBacked, Logged;
    if PastLog(r.stage) {
      StillLogged(logs, more, MessageOf(r.request));
    }
    if r.stage.WritingSender? {
      StillAllBacked(logs, more, running, later, r.request.sentBy, r.stage.entries);
    }
    if r.stage.WritingReceiver? {
      StillAllBacked(logs, more, running, later, r.request.sentTo, r.stage.entries);
    }
  }

  // ---------------------------------------------------------------- one call

  lemma EffectGrows(db: Db, r: Running)
    ensures Grown(db.logs, Effect(db, r).logs)
  {
  }

  /** The call that logs a message leaves it logged. */
  lemma LogsMessage(db: Db, r: Running)
    requires r.stage.InsertingLog? || (r.stage.PushingMessage? && LogAt(db.logs, r.stage.id) < |db.logs|)
    ensures Logged(Effect(db, r).logs, MessageOf(r.request))
  {
    var more := Effect(db, r).logs;
    var k := if r.stage.InsertingLog? then |db.logs| else LogAt(db.logs, r.stage.id);
    assert MessageOf(r.request) in more[k].messages;
  }

  /** The array read and changed by a request is backed, given that the request is logged. */
  lemma UpdatedBacked(logs: seq<Log>, running: seq<Running>, i: nat, user: string, to: string,
                      entries: seq<Entry>, isNew: bool, after: seq<Entry>)
    requires i < |running| && SamePair(running[i].request.sentBy, running[i].request.sentTo, user, to)
    requires Logged(logs, MessageOf(running[i].request))
    requires AllBacked(logs, running, user, entries)
    requires Updated(entries, to, running[i].request, isNew) == Some(after)
    ensures AllBacked(logs, running, user, after)
  {
    hide Logged;
    var q := running[i].request;
    var e := Entry(to, q.text, q.time);
    assert Sent(logs, q, user, e);
    forall j | 0 <= j < |after|
      ensures Backed(logs, running, user, after[j])
    {
      assert after[j] == e || (j < |entries| && after[j] == entries[j]);
    }
  }

  lemma ReadBacked(w: World, i: nat, user: string, to: string, isNew: bool)
    requires i < |w.running| && SamePair(w.running[i].request.sentBy, w.running[i].request.sentTo, user, to)
    requires Logged(w.db.logs, MessageOf(w.running[i].request)) && CacheBacked(w)
    ensures var e := AfterRead(w.db, user, to, w.running[i].request, isNew);
            e.Some? ==> AllBacked(w.db.logs, w.running, user, e.value)
  {
    hide Logged, Updated, AllBacked;
    var e := AfterRead(w.db, user, to, w.running[i].request, isNew);
    if e.Some? {
      var n := InboxAt(w.db.inboxes, user);
      UpdatedBacked(w.db.logs, w.running, i, user, to, w.db.inboxes[n].entries, isNew, e.value);
    }
  }

  /** The request that made the call, on the database after it. */
  lemma CallerBacked(w: World, i: nat)
    requires Justified(w) && i < |w.running| && !w.running[i].stage.Done?
    ensures var r := w.running[i];
            RequestBacked(Effect(w.db, r).logs, w.running, Running(r.request, Continued(w.db, r)))
  {
    hide Logged, AllBacked, AfterRead, Effect, CacheBacked, Modifies;
    var r := w.running[i];
    var q := r.request;
    EffectGrows(w.db, r);
    assert RequestBacked(w.db.logs, w.running, r);
    if PastLog(r.stage) {
      StillLogged(w.db.logs, Effect(w.db, r).logs, MessageOf(q));
    } else if r.stage.InsertingLog? || (r.stage.PushingMessage? && LogAt(w.db.logs, r.stage.id) < |w.db.logs|) {
      LogsMessage(w.db, r);
    }
    if r.stage.ReadingSender? {
      ReadBacked(w, i, q.sentBy, q.sentTo, r.stage.isNew);
      ReadingKeeps(w.db, r);
    } else if r.stage.ReadingReceiver? {
      ReadBacked(w, i, q.sentTo, q.sentBy, r.stage.isNew);
      ReadingKeeps(w.db, r);
    }
  }

  lemma ReadingKeeps(db: Db, r: Running)
    requires r.stage.ReadingSender? || r.stage.ReadingReceiver?
    ensures Effect(db, r) == db
  {
  }

  lemma CacheAfter(w: World, i: nat)
    requires Justified(w) && i < |w.running|
    ensures CacheBacked(World(Effect(w.db, w.running[i]), w.running))
  {
    hide Logged, AllBacked, Grown, Pushed;
    var r := w.running[i];
    var db := Effect(w.db, r);
    EffectGrows(w.db, r);
    assert RequestBacked(w.db.logs, w.running, r);
    forall d | 0 <= d < |db.inboxes|
      ensures AllBacked(db.logs, w.running, db.inboxes[d].user, db.inboxes[d].entries)
    {
      if d < |w.db.inboxes| && db.inboxes[d] == w.db.inboxes[d] {
        var b := w.db.inboxes[d];
        StillAllBacked(w.db.logs, db.logs, w.running, w.running, b.user, b.entries);
      } else if d < |w.db.inboxes| {
        assert db.inboxes[d].entries == r.stage.entries && db.logs == w.db.logs;
      } else {
        NoneBacked(db.logs, w.running, db.inboxes[d].user);
      }
    }
  }

  lemma NoneBacked(logs: seq<Log>, running: seq<Running>, user: string)
    ensures AllBacked(logs, running, user, [])
  {
  }

  lemma {:induction false} Later(w: World, later: seq<Running>)
    requires Justified(w) && SameRequests(w.running, later)
    requires forall i {:trigger later[i]} :: 0 <= i < |later| ==>
               (i < |w.running| && later[i] == w.running[i]) || RequestBacked(w.db.logs, later, later[i])
    ensures Justified(World(w.db, later))
  {
    hide AllBacked, SameRequests, RequestBacked;
    Same(w.db.logs);
    forall d | 0 <= d < |w.db.inboxes|
      ensures AllBacked(w.db.logs, later, w.db.inboxes[d].user, w.db.inboxes[d].entries)
    {
      StillAllBacked(w.db.logs, w.db.logs, w.running, later, w.db.inboxes[d].user, w.db.inboxes[d].entries);
    }
    forall i | 0 <= i < |later|
      ensures RequestBacked(w.db.logs, later, later[i])
    {
      if i < |w.running| && later[i] == w.running[i] {
        assert RequestBacked(w.db.logs, w.running, w.running[i]);
        StillRequestBacked(w.db.logs, w.db.logs, w.running, later, later[i]);
      }
    }
  }

  lemma Same(logs: seq<Log>)
    ensures Grown(logs, logs)
  {
  }

  lemma EffectJustified(w: World, i: nat)
    requires Justified(w) && i < |w.running|
    ensures Justified(World(Effect(w.db, w.running[i]), w.running))
  {
    hide Effect, CacheBacked, RequestBacked;
    var db := Effect(w.db, w.running[i]);
    CacheAfter(w, i);
    EffectGrows(w.db, w.running[i]);
    forall j | 0 <= j < |w.running|
      ensures RequestBacked(db.logs, w.running, w.running[j])
    {
      StillRequestBacked(w.db.logs, db.logs, w.running, w.running, w.running[j]);
    }
  }

  lemma DoneBacked(logs: seq<Log>, running: seq<Running>, q: Request, stage: Stage)
    requires stage.Done? || stage == FirstStage(q.kind)
    ensures RequestBacked(logs, running, Running(q, stage))
  {
  }

  /** Every event keeps the cache justified. */
  lemma NextJustified(w: World, e: Event)
    requires Justified(w)
    ensures Justified(Next(w, e))
  {
    hide Effect, Continued, RequestBacked, Justified, FirstStage;
    match e
    case Arrives(q) =>
      var later := w.running + [Running(q, FirstStage(q.kind))];
      DoneBacked(w.db.logs, later, q, FirstStage(q.kind));
      Later(w, later);
    case Calls(i, outcome) =>
      if i < |w.running| && !w.running[i].stage.Done? {
        var r := w.running[i];
        var stage := if outcome.Succeeds? then Continued(w.db, r) else Done(DbError);
        var later := w.running[i := Running(r.request, stage)];
        var mid := World(if outcome.Fails? then w.db else Effect(w.db, r), w.running);
        if !outcome.Fails? {
          EffectJustified(w, i);
        }
        if outcome.Succeeds? {
          CallerBacked(w, i);
          Same(mid.db.logs);
          StillRequestBacked(mid.db.logs, mid.db.logs, w.running, later, later[i]);
        } else {
          DoneBacked(mid.db.logs, later, r.request, stage);
        }
        Later(mid, later);
      }
  }

  lemma {:induction false} RunJustified(events: seq<Event>)
    ensures Justified(Run(events))
  {
    hide Justified, Next;
    if |events| == 0 {
      EmptyJustified();
    } else {
      RunJustified(events[..|events| - 1]);
      NextJustified(Run(events[..|events| - 1]), events[|events| - 1]);
    }
  }

  lemma EmptyJustified()
    ensures Justified(EMPTY)
  {
  }

  /**
   * In every run: an entry of u for v shows the text and time of a logged message, sent by u or by v in
   * a request between these two.
   */
  lemma CacheJustified(events: seq<Event>, d: nat, j: nat)
    requires d < |Run(events).db.inboxes| && j < |Run(events).db.inboxes[d].entries|
    ensures var w, u := Run(events), Run(events).db.inboxes[d].user;
            var e := w.db.inboxes[d].entries[j];
            exists i :: 0 <= i < |w.running|
              && SamePair(w.running[i].request.sentBy, w.running[i].request.sentTo, u, e.to)
              && Logged(w.db.logs, Message(w.running[i].request.sentBy, e.last, e.time))
  {
    hide Run, Logged;
    RunJustified(events);
    var w := Run(events);
    var e := w.db.inboxes[d].entries[j];
    assert Backed(w.db.logs, w.running, w.db.inboxes[d].user, e);
    var i :| 0 <= i < |w.running| && Sent(w.db.logs, w.running[i].request, w.db.inboxes[d].user, e);
    assert MessageOf(w.running[i].request) == Message(w.running[i].request.sentBy, e.last, e.time);
  }
}
