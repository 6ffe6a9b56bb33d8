/** The events on descriptors, and the changes that coalesce their additions and deletions. */
module EventMap {
  import opened EpollTable
  import opened Options

  const INT_MAX: nat := 0x7fff_ffff
  const COUNT_MAX: nat := 0xffff
  const POINTER_SIZE: nat := 8

  /** An event: who it is, its descriptor, and the kinds it waits for. */
  datatype Event = Event(id: nat, fd: int, kinds: Kinds)

  /** evmap_io, with the index of its change plus one behind it. */
  datatype Io = Io(events: seq<Event>, nread: nat, nwrite: nat, nclose: nat, idxplus1: nat)

  function Bit(b: bool): nat {
    if b then 1 else 0
  }

  function Reads(es: seq<Event>): nat {
    if |es| == 0 then 0 else Bit(es[0].kinds.read) + Reads(es[1..])
  }

  function Writes(es: seq<Event>): nat {
    if |es| == 0 then 0 else Bit(es[0].kinds.write) + Writes(es[1..])
  }

  function Closes(es: seq<Event>): nat {
    if |es| == 0 then 0 else Bit(es[0].kinds.close) + Closes(es[1..])
  }

  /** The kinds that some event of es waits for. */
  ghost function Wanted(es: seq<Event>): Kinds {
    Kinds(exists e :: e in es && e.kinds.read, exists e :: e in es && e.kinds.write, exists e :: e in es && e.kinds.close)
  }

  function Union(a: Kinds, b: Kinds): Kinds {
    Kinds(a.read || b.read, a.write || b.write, a.close || b.close)
  }

  function Minus(a: Kinds, b: Kinds): Kinds {
    Kinds(a.read && !b.read, a.write && !b.write, a.close && !b.close)
  }

  predicate Within(a: Kinds, b: Kinds) {
    (a.read ==> b.read) && (a.write ==> b.write) && (a.close ==> b.close)
  }

  /** The counts of a descriptor are exact and its events are its own. */
  ghost predicate Counted(io: Io, fd: nat) {
    && io.nread == Reads(io.events) <= COUNT_MAX
    && io.nwrite == Writes(io.events) <= COUNT_MAX
    && io.nclose == Closes(io.events) <= COUNT_MAX
    && (forall e {:trigger e in io.events} :: e in io.events ==> e.fd == fd && e.kinds != NO_KINDS)
    && Different(io.events)
  }

  ghost predicate Different(es: seq<Event>) {
    forall i, j {:trigger es[i], es[j]} :: 0 <= i < j < |es| ==> es[i].id != es[j].id
  }

  /** The change wanted of a kind: nothing or an addition when it stays, and so on. */
  predicate FaithfulKind(change: nat, was: bool, want: bool) {
    && (want && was ==> change == 0 || change == CHANGE_ADD)
    && (want && !was ==> change == CHANGE_ADD)
    && (!want && was ==> change == CHANGE_DEL)
    && (!want && !was ==> change == 0)
  }

  predicate Faithful(ch: Change, want: Kinds) {
    && FaithfulKind(ch.read, ch.old_.read, want.read)
    && FaithfulKind(ch.write, ch.old_.write, want.write)
    && FaithfulKind(ch.close, ch.old_.close, want.close)
  }

  /** What epoll has registered for fd. */
  function Registered(kernel: map<nat, Kinds>, fd: nat): Kinds {
    if fd in kernel then kernel[fd] else NO_KINDS
  }

  /** A descriptor with index idxplus1 on which want is waited for, while epoll has kinds k. */
  predicate Linked(idxplus1: nat, fd: nat, changes: seq<Change>, k: Kinds, want: Kinds) {
    && idxplus1 <= |changes|
    && (idxplus1 == 0 ==> k == want)
    && (idxplus1 > 0 ==>
          var ch := changes[idxplus1 - 1];
          ch.fd == fd && ch.old_ == k && Faithful(ch, want))
  }

  /** Every change belongs to the descriptor whose index points back to it. */
  predicate Back(entries: seq<Option<Io>>, changes: seq<Change>) {
    forall i {:trigger changes[i]} :: 0 <= i < |changes| ==>
      var fd := changes[i].fd;
      fd < |entries| && entries[fd].Some? && entries[fd].value.idxplus1 == i + 1
  }

  ghost predicate Lists(entries: seq<Option<Io>>) {
    forall fd {:trigger entries[fd]} :: 0 <= fd < |entries| && entries[fd].Some? ==> Counted(entries[fd].value, fd)
  }

  /** Every descriptor but x is linked as its events want it. */
  ghost predicate Links(entries: seq<Option<Io>>, changes: seq<Change>, kernel: map<nat, Kinds>, x: int) {
    forall fd {:trigger entries[fd]} :: 0 <= fd < |entries| && fd != x ==>
      && (entries[fd].None? ==> Registered(kernel, fd) == NO_KINDS)
      && (entries[fd].Some? ==>
            Linked(entries[fd].value.idxplus1, fd, changes, Registered(kernel, fd), Wanted(entries[fd].value.events)))
  }

  ghost predicate Ok(entries: seq<Option<Io>>, changes: seq<Change>, size: nat, kernel: map<nat, Kinds>) {
    && |changes| <= size
    && Lists(entries) && Links(entries, changes, kernel, -1) && Back(entries, changes)
    && (forall fd {:trigger fd in kernel} :: fd in kernel ==> fd < |entries|)
  }

  /** The events on fd, latest first. */
  function EventsOn(entries: seq<Option<Io>>, fd: int): seq<Event> {
    if 0 <= fd < |entries| && entries[fd].Some? then entries[fd].value.events else []
  }

  // ---------------------------------------------------------------- counting

  /** A count is positive exactly when the kind is wanted. */
  lemma {:induction false} CountsWanted(es: seq<Event>)
    ensures Wanted(es) == Kinds(Reads(es) > 0, Writes(es) > 0, Closes(es) > 0)
  {
    if |es| > 0 {
      CountsWanted(es[1..]);
      assert forall e :: e in es <==> e == es[0] || e in es[1..];
      WantedCons(es[0], es[1..], es);
    }
  }

  lemma {:induction false} WantedCons(e: Event, rest: seq<Event>, es: seq<Event>)
    requires forall f :: f in es <==> f == e || f in rest
    ensures Wanted(es) == Union(e.kinds, Wanted(rest))
  {
    if e.kinds.read { assert e in es; }
    if e.kinds.write { assert e in es; }
    if e.kinds.close { assert e in es; }
  }

  lemma CountsCons(e: Event, es: seq<Event>)
    ensures Reads([e] + es) == Bit(e.kinds.read) + Reads(es)
    ensures Writes([e] + es) == Bit(e.kinds.write) + Writes(es)
    ensures Closes([e] + es) == Bit(e.kinds.close) + Closes(es)
  {
    assert ([e] + es)[1..] == es;
  }

  /** es without the event at place k. */
  function Without(es: seq<Event>, k: nat): seq<Event>
    requires k < |es|
  {
    es[..k] + es[k + 1..]
  }

  lemma {:induction false} CountsWithout(es: seq<Event>, k: nat)
    requires k < |es|
    ensures Reads(es) == Bit(es[k].kinds.read) + Reads(Without(es, k))
    ensures Writes(es) == Bit(es[k].kinds.write) + Writes(Without(es, k))
    ensures Closes(es) == Bit(es[k].kinds.close) + Closes(Without(es, k))
  {
    var w := Without(es, k);
    if k == 0 {
      assert w == es[1..];
    } else {
      CountsWithout(es[1..], k - 1);
      assert w == [es[0]] + Without(es[1..], k - 1);
      CountsCons(es[0], Without(es[1..], k - 1));
    }
  }

  // ---------------------------------------------------------------- what a change comes to

  /** A faithful change selects a table entry that is possible, legal for what is registered, and
      leaves exactly what is wanted. */
  lemma FaithfulOperation(ch: Change, want: Kinds)
    requires Faithful(ch, want)
    ensures ch.read < 4 && ch.write < 4 && ch.close < 4
    ensures var op := EpollOpTable(TableIndex(ch));
            && op != XXX
            && (op == Nothing ==> want == ch.old_)
            && (op.Add? ==> ch.old_ == NO_KINDS && want != NO_KINDS && op.events == Events(want))
            && (op.Mod? ==> ch.old_ != NO_KINDS && want != NO_KINDS && op.events == Events(want))
            && (op.Del? ==> ch.old_ != NO_KINDS && want == NO_KINDS)
  {
    hide EpollOpTable, TableIndex, Rule;
    TableRule(ch);
    FaithfulRule(ch, want);
  }

  lemma FaithfulRule(ch: Change, want: Kinds)
    requires Faithful(ch, want)
    ensures var op := Rule(ch);
            && op != XXX
            && (op == Nothing ==> want == ch.old_)
            && (op.Add? ==> ch.old_ == NO_KINDS && want != NO_KINDS && op.events == Events(want))
            && (op.Mod? ==> ch.old_ != NO_KINDS && want != NO_KINDS && op.events == Events(want))
            && (op.Del? ==> ch.old_ != NO_KINDS && want == NO_KINDS)
  {
    hide Events;
  }

  // ---------------------------------------------------------------- one change more, or another one

  /** The entries with the index of fd set. */
  function Indexed(entries: seq<Option<Io>>, fd: nat, idxplus1: nat): seq<Option<Io>>
    requires fd < |entries| && entries[fd].Some?
  {
    entries[fd := Some(entries[fd].value.(idxplus1 := idxplus1))]
  }

  lemma NewChange(entries: seq<Option<Io>>, changes: seq<Change>, kernel: map<nat, Kinds>, fd: nat, want: Kinds)
    requires Back(entries, changes) && fd < |entries| && entries[fd].Some?
    requires entries[fd].value.idxplus1 == 0 && Links(entries, changes, kernel, fd)
    requires Linked(0, fd, changes, Registered(kernel, fd), want)
    ensures var c := changes + [Change(fd, want, 0, 0, 0)]; var e := Indexed(entries, fd, |changes| + 1);
            Back(e, c) && Links(e, c, kernel, fd) && Linked(|changes| + 1, fd, c, Registered(kernel, fd), want)
  {
    var c, e := changes + [Change(fd, want, 0, 0, 0)], Indexed(entries, fd, |changes| + 1);
    forall i {:trigger c[i]} | 0 <= i < |c|
      ensures c[i].fd < |e| && e[c[i].fd].Some? && e[c[i].fd].value.idxplus1 == i + 1
    {
      if i < |changes| {
        assert c[i] == changes[i];
        assert changes[i].fd != fd;
      }
    }
    hide Wanted;
    assert Links(e, c, kernel, fd) by {
      forall g {:trigger e[g]} | 0 <= g < |e| && g != fd && e[g].Some?
        ensures Linked(e[g].value.idxplus1, g, c, Registered(kernel, g), Wanted(e[g].value.events))
      {
        assert e[g] == entries[g];
      }
    }
  }

  lemma OtherChange(entries: seq<Option<Io>>, changes: seq<Change>, kernel: map<nat, Kinds>, fd: nat, ch: Change)
    requires Back(entries, changes) && fd < |entries| && entries[fd].Some? && ch.fd == fd
    requires Links(entries, changes, kernel, fd)
    requires 0 < entries[fd].value.idxplus1 <= |changes| && changes[entries[fd].value.idxplus1 - 1].fd == fd
    ensures var c := changes[entries[fd].value.idxplus1 - 1 := ch];
            Back(entries, c) && Links(entries, c, kernel, fd)
  {
    var k := entries[fd].value.idxplus1 - 1;
    var c := changes[k := ch];
    hide Wanted;
    forall i {:trigger c[i]} | 0 <= i < |c|
      ensures c[i].fd < |entries| && entries[c[i].fd].Some? && entries[c[i].fd].value.idxplus1 == i + 1
    {
      assert c[i].fd == changes[i].fd;
    }
    forall g {:trigger entries[g]} | 0 <= g < |entries| && g != fd && entries[g].Some?
      ensures Linked(entries[g].value.idxplus1, g, c, Registered(kernel, g), Wanted(entries[g].value.events))
    {
      var j := entries[g].value.idxplus1;
      if j > 0 {
        assert changes[j - 1].fd == g;
      }
    }
  }

  /** Putting events that want what fd is linked for puts the whole map right. */
  lemma SetEvents(entries: seq<Option<Io>>, changes: seq<Change>, kernel: map<nat, Kinds>, fd: nat, io: Io)
    requires Lists(entries) && Links(entries, changes, kernel, fd) && Back(entries, changes)
    requires fd < |entries| && entries[fd].Some? && io.idxplus1 == entries[fd].value.idxplus1
    requires Counted(io, fd) && Linked(io.idxplus1, fd, changes, Registered(kernel, fd), Wanted(io.events))
    ensures var e := entries[fd := Some(io)]; Lists(e) && Links(e, changes, kernel, -1) && Back(e, changes)
  {
    var e := entries[fd := Some(io)];
    hide Wanted, Counted;
    forall g {:trigger e[g]} | 0 <= g < |e| && e[g].Some?
      ensures Counted(e[g].value, g) && Linked(e[g].value.idxplus1, g, changes, Registered(kernel, g), Wanted(e[g].value.events))
    {
      if g != fd {
        assert e[g] == entries[g];
      }
    }
    forall i {:trigger changes[i]} | 0 <= i < |changes|
      ensures changes[i].fd < |e| && e[changes[i].fd].Some? && e[changes[i].fd].value.idxplus1 == i + 1
    {
      assert entries[changes[i].fd].value.idxplus1 == i + 1;
    }
  }

  /** The smallest start * 2^k that exceeds slot. */
  ghost predicate Doubled(start: nat, n: nat, slot: nat) {
    n > slot && Power(start, n) && (n == start || n / 2 <= slot)
  }

  /** The number of slots that doubling starts from when there are len. */
  function FirstSlots(len: nat): nat {
    if len == 0 then 32 else len
  }

  /** No array of slots that the source makes from len ones reaches slot. */
  ghost predicate BeyondArrays(len: nat, slot: nat) {
    slot > INT_MAX / 2 || exists n: nat :: Doubled(FirstSlots(len), n, slot) && n > INT_MAX / POINTER_SIZE
  }

  /** There is one least doubling. */
  lemma BeyondOne(len: nat, slot: nat, n: nat)
    requires slot <= INT_MAX / 2 && Doubled(FirstSlots(len), n, slot)
    ensures BeyondArrays(len, slot) <==> n > INT_MAX / POINTER_SIZE
  {
    if BeyondArrays(len, slot) {
      var start := FirstSlots(len);
      var m: nat :| Doubled(start, m, slot) && m > INT_MAX / POINTER_SIZE;
      if m < n {
        PowersApart(start, m, n);
      } else if n < m {
        PowersApart(start, n, m);
      }
    }
  }

  lemma {:induction false} PowersApart(start: nat, m: nat, n: nat)
    requires 0 < start && Power(start, m) && Power(start, n) && m < n
    ensures m <= n / 2
    decreases n
  {
    if m > start {
      PowerLeast(start, n / 2);
      if m / 2 < n / 2 {
        PowersApart(start, m / 2, n / 2);
      }
    } else {
      PowerLeast(start, m);
      PowerLeast(start, n / 2);
    }
  }

  lemma {:induction false} PowerLeast(start: nat, n: nat)
    requires Power(start, n)
    ensures start <= n
  {
  }

  /** n is start doubled some number of times. */
  ghost predicate Power(start: nat, n: nat)
    decreases n
  {
    n == start || (n > start && n % 2 == 0 && Power(start, n / 2))
  }

  /** One kind of an event that is added: the new count, and whether it is the first of its kind. */
  method Raise(count: nat, has: bool) returns (n: nat, first: bool)
    ensures n == count + Bit(has) && (first <==> has && n == 1)
  {
    n, first := count, false;
    if has {
      n := n + 1;
      first := n == 1;
    }
  }

  /** One kind of an event that is deleted: the new count, and whether it was the last of its kind. */
  method Lower(count: nat, has: bool) returns (n: nat, last: bool)
    requires has ==> count > 0
    ensures count == n + Bit(has) && (last <==> has && n == 0)
  {
    n, last := count, false;
    if has {
      n := n - 1;
      last := n == 0;
    }
  }

  /** The change of a kind when its deletion is asked for: a kind that was not there is left alone. */
  function DelKind(change: nat, has: bool, was: bool): nat {
    if !has then change else if !was then 0 else CHANGE_DEL
  }

  /** The loop of evmap_make_space; no product overflows an int. */
  method DoubleUp(start: nat, slot: nat) returns (nentries: nat)
    requires 0 < start && slot <= INT_MAX / 2
    ensures nentries >= start && Doubled(start, nentries, slot)
  {
    nentries := start;
    while nentries <= slot
      invariant start <= nentries && Power(start, nentries)
      invariant nentries > start ==> nentries / 2 <= slot
      decreases slot - nentries
    {
      assert nentries * 2 <= INT_MAX;
      nentries := nentries * 2;
    }
  }

  class EventMap {
    /** The array of descriptor slots; None is a null pointer. */
    var entries: seq<Option<Io>>
    /** The changes in use. */
    var changes: seq<Change>
    var changesSize: nat
    /** What epoll has been told to watch. */
    var kernel: map<nat, Kinds>

    ghost predicate Valid()
      reads this
    {
      Ok(entries, changes, changesSize, kernel)
    }

    constructor ()
      ensures Valid() && entries == [] && changes == [] && kernel == map[]
    {
      entries, changes, changesSize, kernel := [], [], 0, map[];
    }

    /** evmap_make_space */
    method MakeSpace(slot: nat) returns (ok: bool)
      requires Valid()
      modifies this`entries
      ensures Valid() && |entries| >= |old(entries)| && entries[..|old(entries)|] == old(entries)
      ensures forall fd {:trigger entries[fd]} :: |old(entries)| <= fd < |entries| ==> entries[fd] == None
      ensures ok ==> slot < |entries|
      ensures |old(entries)| <= slot ==> (ok <==> !BeyondArrays(|old(entries)|, slot))
      ensures ok && |old(entries)| <= slot ==>
                Doubled(FirstSlots(|old(entries)|), |entries|, slot) && |entries| * POINTER_SIZE <= INT_MAX
      ensures !ok ==> entries == old(entries)
    {
      if |entries| > slot {
        return true;
      }
      ok := false;
      if slot > INT_MAX / 2 {
        return;
      }
      var nentries := DoubleUp(FirstSlots(|entries|), slot);
      BeyondOne(|entries|, slot, nentries);
      hide Ok, Doubled, BeyondArrays;
      if nentries > INT_MAX / POINTER_SIZE {
        return;
      }
      GrowOk(entries, changes, changesSize, kernel, nentries);
      entries := entries + seq(nentries - |entries|, _ => None);
      ok := true;
    }

    /** event_changelist_grow */
    method Grow()
      modifies this`changesSize
      ensures changesSize > old(changesSize) && changesSize >= 64
    {
      if changesSize < 64 {
        changesSize := 64;
      } else {
        changesSize := changesSize * 2;
      }
    }

    /** event_changelist_get_or_construct: the place of the change for fd, made with kinds old_ if
        there is none. */
    method GetOrConstruct(fd: nat, old_: Kinds) returns (k: nat)
      requires fd < |entries| && entries[fd].Some? && |changes| <= changesSize
      requires Back(entries, changes) && Links(entries, changes, kernel, fd)
      requires Linked(entries[fd].value.idxplus1, fd, changes, Registered(kernel, fd), old_)
      modifies this`entries, this`changes, this`changesSize
      ensures |changes| <= changesSize && k < |changes|
      ensures entries == Indexed(old(entries), fd, k + 1)
      ensures Back(entries, changes) && Links(entries, changes, kernel, fd)
      ensures Linked(k + 1, fd, changes, Registered(kernel, fd), old_)
    {
      hide Wanted, Links, Back;
      var idxplus1 := entries[fd].value.idxplus1;
      if idxplus1 == 0 {
        NewChange(entries, changes, kernel, fd, old_);
        if |changes| == changesSize {
          Grow();
        }
        k := |changes|;
        changes := changes + [Change(fd, old_, 0, 0, 0)];
        entries := entries[fd := Some(entries[fd].value.(idxplus1 := k + 1))];
      } else {
        k := idxplus1 - 1;
        assert changes[k].fd == fd;
        assert entries[fd] == Some(entries[fd].value.(idxplus1 := k + 1));
      }
    }

    /** event_changelist_add_ */
    method ChangelistAdd(fd: nat, old_: Kinds, kinds: Kinds)
      requires fd < |entries| && entries[fd].Some? && |changes| <= changesSize
      requires Back(entries, changes) && Links(entries, changes, kernel, fd)
      requires Linked(entries[fd].value.idxplus1, fd, changes, Registered(kernel, fd), old_)
      modifies this`entries, this`changes, this`changesSize
      ensures |changes| <= changesSize
      ensures |entries| == |old(entries)| && entries[fd].Some?
      ensures entries == Indexed(old(entries), fd, entries[fd].value.idxplus1)
      ensures Back(entries, changes) && Links(entries, changes, kernel, fd)
      ensures Linked(entries[fd].value.idxplus1, fd, changes, Registered(kernel, fd), Union(old_, kinds))
    {
      hide Wanted, Links, Back;
      var k := GetOrConstruct(fd, old_);
      var ch := changes[k];
      if kinds.read {
        ch := ch.(read := CHANGE_ADD);
      }
      if kinds.write {
        ch := ch.(write := CHANGE_ADD);
      }
      if kinds.close {
        ch := ch.(close := CHANGE_ADD);
      }
      OtherChange(entries, changes, kernel, fd, ch);
      changes := changes[k := ch];
    }

    /** event_changelist_del_: deleting a kind that was not there before the change undoes an addition. */
    method ChangelistDel(fd: nat, old_: Kinds, kinds: Kinds)
      requires fd < |entries| && entries[fd].Some? && |changes| <= changesSize
      requires Back(entries, changes) && Links(entries, changes, kernel, fd)
      requires Linked(entries[fd].value.idxplus1, fd, changes, Registered(kernel, fd), old_)
      modifies this`entries, this`changes, this`changesSize
      ensures |changes| <= changesSize
      ensures |entries| == |old(entries)| && entries[fd].Some?
      ensures entries == Indexed(old(entries), fd, entries[fd].value.idxplus1)
      ensures Back(entries, changes) && Links(entries, changes, kernel, fd)
      ensures Linked(entries[fd].value.idxplus1, fd, changes, Registered(kernel, fd), Minus(old_, kinds))
    {
      hide Wanted, Links, Back;
      var k := GetOrConstruct(fd, old_);
      var ch := changes[k];
      ch := Change(ch.fd, ch.old_, DelKind(ch.read, kinds.read, ch.old_.read),
                   DelKind(ch.write, kinds.write, ch.old_.write), DelKind(ch.close, kinds.close, ch.old_.close));
      OtherChange(entries, changes, kernel, fd, ch);
      changes := changes[k := ch];
    }

    /** Tells the backend of the kinds that have become wanted. */
    method BackendAdd(fd: nat, old_: Kinds, res: Kinds) returns (r: int)
      requires fd < |entries| && entries[fd].Some? && |changes| <= changesSize
      requires Back(entries, changes) && Links(entries, changes, kernel, fd) && Lists(entries)
      requires Linked(entries[fd].value.idxplus1, fd, changes, Registered(kernel, fd), old_)
      modifies this`entries, this`changes, this`changesSize
      ensures r == if res == NO_KINDS then 0 else 1
      ensures |changes| <= changesSize && |entries| == |old(entries)| && entries[fd].Some?
      ensures entries[fd].value.events == old(entries[fd].value.events)
      ensures forall g {:trigger entries[g]} :: 0 <= g < |entries| && g != fd ==> entries[g] == old(entries[g])
      ensures Back(entries, changes) && Links(entries, changes, kernel, fd) && Lists(entries)
      ensures Linked(entries[fd].value.idxplus1, fd, changes, Registered(kernel, fd), Union(old_, res))
    {
      hide Wanted, Links, Back, Linked, Lists;
      r := 0;
      IndexedLists(entries, fd);
      if res != NO_KINDS {
        ChangelistAdd(fd, old_, res);
        r := 1;
      }
    }

    /** Tells the backend of the kinds that are no longer wanted. */
    method BackendDel(fd: nat, old_: Kinds, res: Kinds) returns (r: int)
      requires fd < |entries| && entries[fd].Some? && |changes| <= changesSize
      requires Back(entries, changes) && Links(entries, changes, kernel, fd) && Lists(entries)
      requires Linked(entries[fd].value.idxplus1, fd, changes, Registered(kernel, fd), old_)
      modifies this`entries, this`changes, this`changesSize
      ensures r == if res == NO_KINDS then 0 else 1
      ensures |changes| <= changesSize && |entries| == |old(entries)| && entries[fd].Some?
      ensures entries[fd].value.events == old(entries[fd].value.events)
      ensures forall g {:trigger entries[g]} :: 0 <= g < |entries| && g != fd ==> entries[g] == old(entries[g])
      ensures Back(entries, changes) && Links(entries, changes, kernel, fd) && Lists(entries)
      ensures Linked(entries[fd].value.idxplus1, fd, changes, Registered(kernel, fd), Minus(old_, res))
    {
      hide Wanted, Links, Back, Linked, Lists;
      r := 0;
      IndexedLists(entries, fd);
      if res != NO_KINDS {
        ChangelistDel(fd, old_, res);
        r := 1;
      }
    }

    /** evmap_io_add_: -1 on error, 0 if the kinds wanted on fd stay as they were, 1 if they grew. */
    method IoAdd(fd: int, ev: Event) returns (r: int)
      requires Valid() && ev.fd == fd && ev.kinds != NO_KINDS
      requires forall e :: e in EventsOn(entries, fd) ==> e.id != ev.id
      modifies this
      ensures Valid() && kernel == old(kernel)
      ensures r == -1 || r == 0 || r == 1
      ensures forall g :: g != fd || r == -1 || fd < 0 ==> EventsOn(entries, g) == old(EventsOn(entries, g))
      ensures fd >= 0 && r != -1 ==> EventsOn(entries, fd) == [ev] + old(EventsOn(entries, fd))
      ensures fd >= 0 && r != -1 ==> (r == 1 <==> Wanted(EventsOn(entries, fd)) != Wanted(old(EventsOn(entries, fd))))
      ensures 0 <= fd < |old(entries)| ==> (r == -1 <==> TooMany(old(EventsOn(entries, fd)), ev.kinds))
      ensures fd >= |old(entries)| ==> (r == -1 <==> BeyondArrays(|old(entries)|, fd))
      ensures fd < 0 ==> r == 0
    {
      hide Ok, BeyondArrays, Doubled, Wanted, TooMany;
      r := 0;
      if fd < 0 {
        return;
      }
      if fd >= |entries| {
        var ok := MakeSpace(fd);
        if !ok {
          return -1;
        }
      }
      if entries[fd].None? {
        EmptySlot(entries, changes, changesSize, kernel, fd);
        entries := entries[fd := Some(Io([], 0, 0, 0, 0))];
      }
      ghost var es := entries[fd].value.events;
      assert es == old(EventsOn(entries, fd));
      NotMany(ev.kinds);
      r := AddToSlot(fd, ev);
    }

    /** evmap_io_add_, once the slot is there. */
    method AddToSlot(fd: nat, ev: Event) returns (r: int)
      requires Valid() && ev.fd == fd < |entries| && entries[fd].Some? && ev.kinds != NO_KINDS
      requires forall e :: e in entries[fd].value.events ==> e.id != ev.id
      modifies this
      ensures Valid() && kernel == old(kernel) && |entries| == |old(entries)| && entries[fd].Some?
      ensures r == -1 || r == 0 || r == 1
      ensures r == -1 <==> TooMany(old(entries[fd].value.events), ev.kinds)
      ensures r == -1 ==> entries == old(entries)
      ensures r != -1 ==> entries[fd].value.events == [ev] + old(entries[fd].value.events)
      ensures r != -1 ==> (r == 1 <==> Wanted(entries[fd].value.events) != Wanted(old(entries[fd].value.events)))
      ensures forall g {:trigger entries[g]} :: 0 <= g < |entries| && g != fd ==> entries[g] == old(entries[g])
    {
      hide Ok, Wanted, Lists, Links, Back, Counted, Linked, TooMany;
      SlotLinks(entries, changes, changesSize, kernel, fd);
      var ctx := entries[fd].value;
      var all := [ev] + ctx.events;
      AddFacts(entries, fd, ev, all);
      var old_ := Kinds(ctx.nread > 0, ctx.nwrite > 0, ctx.nclose > 0);
      var nread, r1 := Raise(ctx.nread, ev.kinds.read);
      var nwrite, r2 := Raise(ctx.nwrite, ev.kinds.write);
      var nclose, r3 := Raise(ctx.nclose, ev.kinds.close);
      var res := Kinds(r1, r2, r3);
      if nread > COUNT_MAX || nwrite > COUNT_MAX || nclose > COUNT_MAX {
        return -1;
      }
      r := BackendAdd(fd, old_, res);
      CountedCons(ctx, fd, ev, Io(all, nread, nwrite, nclose, entries[fd].value.idxplus1));
      StoreEvents(fd, all, nread, nwrite, nclose);
    }

    /** Stores the events and counts of fd. */
    method StoreEvents(fd: nat, es: seq<Event>, nread: nat, nwrite: nat, nclose: nat)
      requires fd < |entries| && entries[fd].Some? && |changes| <= changesSize
      requires Lists(entries) && Links(entries, changes, kernel, fd) && Back(entries, changes)
      requires forall g {:trigger g in kernel} :: g in kernel ==> g < |entries|
      requires Counted(Io(es, nread, nwrite, nclose, entries[fd].value.idxplus1), fd)
      requires Linked(entries[fd].value.idxplus1, fd, changes, Registered(kernel, fd), Wanted(es))
      modifies this`entries
      ensures Valid() && |entries| == |old(entries)| && entries[fd].Some? && entries[fd].value.events == es
      ensures forall g {:trigger entries[g]} :: 0 <= g < |entries| && g != fd ==> entries[g] == old(entries[g])
    {
      hide Wanted, Lists, Links, Back, Counted, Linked;
      SetEvents(entries, changes, kernel, fd, Io(es, nread, nwrite, nclose, entries[fd].value.idxplus1));
      entries := entries[fd := Some(Io(es, nread, nwrite, nclose, entries[fd].value.idxplus1))];
    }

    /** evmap_io_del_: -1 when fd has no slot, 0 if the kinds wanted on fd stay as they were, 1 if some
        went. */
    method IoDel(fd: int, ev: Event) returns (r: int)
      requires Valid() && ev.fd == fd && (0 <= fd < |entries| ==> ev in EventsOn(entries, fd))
      modifies this
      ensures Valid() && kernel == old(kernel)
      ensures forall g :: g != fd || !(0 <= fd < |old(entries)|) ==> EventsOn(entries, g) == old(EventsOn(entries, g))
      ensures fd < 0 ==> r == 0
      ensures fd >= |old(entries)| ==> r == -1
      ensures 0 <= fd < |old(entries)| ==>
                exists k :: 0 <= k < |old(EventsOn(entries, fd))| && old(EventsOn(entries, fd))[k] == ev
                            && EventsOn(entries, fd) == Without(old(EventsOn(entries, fd)), k)
      ensures 0 <= fd < |old(entries)| ==>
                r == if Wanted(EventsOn(entries, fd)) != Wanted(old(EventsOn(entries, fd))) then 1 else 0
    {
      r := 0;
      if fd < 0 {
        return;
      }
      if fd >= |entries| {
        return -1;
      }
      ghost var es := entries[fd].value.events;
      ghost var k;
      r, k := DelFromSlot(fd, ev);
      assert es == old(EventsOn(entries, fd)) && es[k] == ev;
      assert EventsOn(entries, fd) == Without(es, k);
    }

    /** evmap_io_del_ on a slot that is there. */
    method DelFromSlot(fd: nat, ev: Event) returns (r: int, ghost k: nat)
      requires Valid() && ev.fd == fd < |entries| && entries[fd].Some? && ev in entries[fd].value.events
      modifies this
      ensures Valid() && kernel == old(kernel) && |entries| == |old(entries)| && entries[fd].Some?
      ensures k < |old(entries[fd].value.events)| && old(entries[fd].value.events[k]) == ev
      ensures entries[fd].value.events == Without(old(entries[fd].value.events), k)
      ensures r == if Wanted(entries[fd].value.events) != Wanted(old(entries[fd].value.events)) then 1 else 0
      ensures forall g {:trigger entries[g]} :: 0 <= g < |entries| && g != fd ==> entries[g] == old(entries[g])
    {
      var ctx := entries[fd].value;
      var es := ctx.events;
      assert Counted(ctx, fd);
      var i := 0;
      while es[i] != ev
        invariant i < |es| && ev in es[i..]
        modifies {}
        decreases |es| - i
      {
        assert ev in es[i + 1..];
        i := i + 1;
      }
      k := i;
      var rest := es[..i] + es[i + 1..];
      DelFacts(ctx, fd, i);
      SlotLinks(entries, changes, changesSize, kernel, fd);
      hide Wanted, Lists, Links, Back, Counted, Linked;
      var old_ := Kinds(ctx.nread > 0, ctx.nwrite > 0, ctx.nclose > 0);
      var nread, r1 := Lower(ctx.nread, ev.kinds.read);
      var nwrite, r2 := Lower(ctx.nwrite, ev.kinds.write);
      var nclose, r3 := Lower(ctx.nclose, ev.kinds.close);
      var res := Kinds(r1, r2, r3);
      r := BackendDel(fd, old_, res);
      CountedWithout(ctx, fd, i, Io(rest, nread, nwrite, nclose, entries[fd].value.idxplus1));
      StoreEvents(fd, rest, nread, nwrite, nclose);
    }

    /** epoll_ctl, on what has been registered: an addition wants nothing registered, a modification
        or a deletion something. */
    method EpollCtl(fd: nat, op: Operation)
      requires op.Add? ==> Registered(kernel, fd) == NO_KINDS
      requires op.Mod? || op.Del? ==> Registered(kernel, fd) != NO_KINDS
      modifies this`kernel
      ensures op.Add? || op.Mod? ==> kernel == old(kernel)[fd := KindsOf(op.events)]
      ensures op.Del? ==> kernel == old(kernel)[fd := NO_KINDS]
      ensures !op.Add? && !op.Mod? && !op.Del? ==> kernel == old(kernel)
    {
      match op
      case Add(events) => kernel := kernel[fd := KindsOf(events)];
      case Mod(events) => kernel := kernel[fd := KindsOf(events)];
      case Del(_) => kernel := kernel[fd := NO_KINDS];
      case Nothing =>
      case XXX =>
    }

    /** Before a wait: one epoll operation for each change. */
    method ApplyChanges()
      requires Valid()
      modifies this`kernel
      ensures forall fd: nat {:trigger Registered(kernel, fd)} :: Registered(kernel, fd) == Wanted(EventsOn(entries, fd))
      ensures forall fd {:trigger fd in kernel} :: fd in kernel ==> fd < |entries|
    {
      hide Wanted, Lists, EpollOpTable, TableIndex, Faithful;
      var i := 0;
      var es, cs := entries, changes;
      ghost var kernel0 := kernel;
      while i < |cs|
        invariant i <= |cs| && cs == changes && es == entries
        invariant forall fd {:trigger fd in kernel} :: fd in kernel ==> fd < |es|
        invariant Applied(es, cs, kernel0, kernel, i)
      {
        var ch := cs[i];
        ChangeLinked(es, cs, changesSize, kernel0, i);
        FaithfulOperation(ch, Wanted(es[ch.fd].value.events));
        KindsBack(Wanted(es[ch.fd].value.events));
        assert Registered(kernel, ch.fd) == Registered(kernel0, ch.fd) by { assert es[ch.fd].value.idxplus1 == i + 1; }
        ghost var k := kernel;
        EpollCtl(ch.fd, EpollOpTable(TableIndex(ch)));
        AppliedStep(es, cs, changesSize, kernel0, k, kernel, i);
        i := i + 1;
      }
      AllApplied(es, cs, changesSize, kernel0, kernel);
    }

    /** event_changelist_remove_all_, once epoll has what every descriptor wants. */
    method RemoveAll()
      requires Lists(entries) && Back(entries, changes) && Owned(entries, changes)
      requires forall fd {:trigger fd in kernel} :: fd in kernel ==> fd < |entries|
      requires forall fd: nat {:trigger Registered(kernel, fd)} :: Registered(kernel, fd) == Wanted(EventsOn(entries, fd))
      modifies this`entries, this`changes
      ensures Valid() && changes == [] && |entries| == |old(entries)|
      ensures forall fd :: EventsOn(entries, fd) == old(EventsOn(entries, fd))
    {
      hide Wanted, Linked, Counted, Owned, Cleared, Lists;
      var i := 0;
      ghost var e0 := entries;
      ClearedNone(e0, changes);
      while i < |changes|
        invariant i <= |changes| && Cleared(e0, entries, i)
        modifies this`entries
      {
        var fd := changes[i].fd;
        ClearedAt(e0, entries, changes, i);
        assert entries[fd].value.idxplus1 == i + 1;
        ghost var e := entries;
        entries := entries[fd := Some(entries[fd].value.(idxplus1 := 0))];
        ClearedStep(e0, e, changes, i);
        i := i + 1;
      }
      AllCleared(e0, entries, changes, changesSize, kernel);
      changes := [];
    }

    /** What happens before a wait. Afterwards epoll watches exactly what the events want. */
    method Dispatch()
      requires Valid()
      modifies this
      ensures Valid() && changes == []
      ensures forall fd :: EventsOn(entries, fd) == old(EventsOn(entries, fd))
      ensures forall fd: nat {:trigger Registered(kernel, fd)} :: Registered(kernel, fd) == Wanted(EventsOn(entries, fd))
    {
      OkOwned(entries, changes, changesSize, kernel);
      hide Ok, Wanted, Lists, Back, Owned;
      ApplyChanges();
      RemoveAll();
    }
  }

  /** One more event with these kinds would take a count over its limit. */
  ghost predicate TooMany(es: seq<Event>, kinds: Kinds) {
    (kinds.read && Reads(es) >= COUNT_MAX) || (kinds.write && Writes(es) >= COUNT_MAX) || (kinds.close && Closes(es) >= COUNT_MAX)
  }

  lemma NotMany(kinds: Kinds)
    ensures !TooMany([], kinds)
  {
  }

  lemma EmptySlot(entries: seq<Option<Io>>, changes: seq<Change>, size: nat, kernel: map<nat, Kinds>, fd: nat)
    requires Ok(entries, changes, size, kernel) && fd < |entries| && entries[fd].None?
    ensures Ok(entries[fd := Some(Io([], 0, 0, 0, 0))], changes, size, kernel)
  {
    var e := entries[fd := Some(Io([], 0, 0, 0, 0))];
    assert Wanted([]) == NO_KINDS;
    assert Counted(e[fd].value, fd);
    hide Wanted, Counted;
    assert forall g {:trigger e[g]} :: 0 <= g < |e| && g != fd ==> e[g] == entries[g];
    forall i {:trigger changes[i]} | 0 <= i < |changes|
      ensures changes[i].fd < |e| && e[changes[i].fd].Some? && e[changes[i].fd].value.idxplus1 == i + 1
    {
      assert entries[changes[i].fd].Some?;
    }
  }

  lemma SlotLinks(entries: seq<Option<Io>>, changes: seq<Change>, size: nat, kernel: map<nat, Kinds>, fd: nat)
    requires Ok(entries, changes, size, kernel) && fd < |entries| && entries[fd].Some?
    ensures Lists(entries) && Back(entries, changes) && |changes| <= size && Links(entries, changes, kernel, fd)
    ensures forall g {:trigger g in kernel} :: g in kernel ==> g < |entries|
    ensures Linked(entries[fd].value.idxplus1, fd, changes, Registered(kernel, fd), Wanted(entries[fd].value.events))
  {
    hide Wanted, Linked;
  }

  /** What adding an event does to the counts, in terms of the kinds wanted. */
  lemma AddFacts(entries: seq<Option<Io>>, fd: nat, ev: Event, all: seq<Event>)
    requires Lists(entries) && fd < |entries| && entries[fd].Some? && all == [ev] + entries[fd].value.events
    ensures var ctx := entries[fd].value;
            var old_, res := Kinds(ctx.nread > 0, ctx.nwrite > 0, ctx.nclose > 0),
                             Kinds(ev.kinds.read && ctx.nread == 0, ev.kinds.write && ctx.nwrite == 0, ev.kinds.close && ctx.nclose == 0);
            && Counted(ctx, fd)
            && old_ == Wanted(ctx.events) && Union(old_, res) == Wanted(all)
            && (res == NO_KINDS <==> Wanted(all) == Wanted(ctx.events))
            && TooMany(ctx.events, ev.kinds)
            == (ctx.nread + Bit(ev.kinds.read) > COUNT_MAX || ctx.nwrite + Bit(ev.kinds.write) > COUNT_MAX
                || ctx.nclose + Bit(ev.kinds.close) > COUNT_MAX)
  {
    var ctx := entries[fd].value;
    assert Counted(ctx, fd);
    CountsWanted(ctx.events);
    WantedCons(ev, ctx.events, all);
    hide Wanted, Different;
  }

  /** What deleting an event does to the counts, in terms of the kinds wanted. */
  lemma DelFacts(ctx: Io, fd: nat, i: nat)
    requires Counted(ctx, fd) && i < |ctx.events|
    ensures var ev := ctx.events[i];
            var rest := Without(ctx.events, i);
            var old_, res := Kinds(ctx.nread > 0, ctx.nwrite > 0, ctx.nclose > 0),
                             Kinds(ev.kinds.read && ctx.nread == 1, ev.kinds.write && ctx.nwrite == 1, ev.kinds.close && ctx.nclose == 1);
            && old_ == Wanted(ctx.events) && Minus(old_, res) == Wanted(rest)
            && (res == NO_KINDS <==> Wanted(rest) == Wanted(ctx.events))
            && (ev.kinds.read ==> ctx.nread > 0) && (ev.kinds.write ==> ctx.nwrite > 0) && (ev.kinds.close ==> ctx.nclose > 0)
  {
    CountsWanted(ctx.events);
    CountsWithout(ctx.events, i);
    CountsWanted(Without(ctx.events, i));
    hide Wanted, Different, Without, Reads, Writes, Closes;
  }

  lemma IndexedLists(entries: seq<Option<Io>>, fd: nat)
    requires Lists(entries) && fd < |entries| && entries[fd].Some?
    ensures forall k: nat :: Lists(Indexed(entries, fd, k))
  {
    forall k: nat ensures Lists(Indexed(entries, fd, k)) {
      var e := Indexed(entries, fd, k);
      assert Counted(entries[fd].value, fd);
      assert forall g {:trigger e[g]} :: 0 <= g < |e| && g != fd ==> e[g] == entries[g];
    }
  }

  /** The kinds that epoll event bits stand for. */
  function KindsOf(events: nat): Kinds {
    Kinds(events % 2 == 1, events / OUT % 2 == 1, events / HUP % 2 == 1)
  }

  lemma KindsBack(k: Kinds)
    ensures KindsOf(Events(k)) == k
  {
  }

  /** After the first i changes: descriptors with a change among them have what they want, the others
      what they had. */
  ghost predicate Applied(entries: seq<Option<Io>>, changes: seq<Change>, kernel0: map<nat, Kinds>, kernel: map<nat, Kinds>, i: nat) {
    forall fd: nat {:trigger Registered(kernel, fd)} ::
      if fd < |entries| && entries[fd].Some? && 1 <= entries[fd].value.idxplus1 <= i
      then Registered(kernel, fd) == Wanted(entries[fd].value.events)
      else Registered(kernel, fd) == Registered(kernel0, fd)
  }

  lemma ChangeLinked(entries: seq<Option<Io>>, changes: seq<Change>, size: nat, kernel: map<nat, Kinds>, i: nat)
    requires Ok(entries, changes, size, kernel) && i < |changes|
    ensures var ch := changes[i];
            && ch.fd < |entries| && entries[ch.fd].Some? && entries[ch.fd].value.idxplus1 == i + 1
            && ch.old_ == Registered(kernel, ch.fd) && Faithful(ch, Wanted(entries[ch.fd].value.events))
  {
    hide Wanted;
  }

  lemma {:induction false} AppliedStep(entries: seq<Option<Io>>, changes: seq<Change>, size: nat, kernel0: map<nat, Kinds>,
                    kernel: map<nat, Kinds>, kernel': map<nat, Kinds>, i: nat)
    requires Ok(entries, changes, size, kernel0) && i < |changes| && Applied(entries, changes, kernel0, kernel, i)
    requires var fd := changes[i].fd;
             && fd < |entries| && entries[fd].Some? && entries[fd].value.idxplus1 == i + 1
             && Registered(kernel', fd) == Wanted(entries[fd].value.events)
             && forall g: nat {:trigger Registered(kernel', g)} :: g != fd ==> Registered(kernel', g) == Registered(kernel, g)
    ensures Applied(entries, changes, kernel0, kernel', i + 1)
  {
    hide Wanted, Faithful;
    var fd := changes[i].fd;
    forall g: nat {:trigger Registered(kernel', g)}
      ensures if g < |entries| && entries[g].Some? && 1 <= entries[g].value.idxplus1 <= i + 1
              then Registered(kernel', g) == Wanted(entries[g].value.events)
              else Registered(kernel', g) == Registered(kernel0, g)
    {
      if g != fd {
        assert Registered(kernel', g) == Registered(kernel, g);
        if g < |entries| && entries[g].Some? {
          assert Linked(entries[g].value.idxplus1, g, changes, Registered(kernel0, g), Wanted(entries[g].value.events));
        }
      }
    }
  }

  lemma AllApplied(entries: seq<Option<Io>>, changes: seq<Change>, size: nat, kernel0: map<nat, Kinds>, kernel: map<nat, Kinds>)
    requires Ok(entries, changes, size, kernel0) && Applied(entries, changes, kernel0, kernel, |changes|)
    ensures forall fd: nat {:trigger Registered(kernel, fd)} :: Registered(kernel, fd) == Wanted(EventsOn(entries, fd))
  {
    assert Wanted([]) == NO_KINDS;
    hide Wanted, Faithful;
    forall fd: nat {:trigger Registered(kernel, fd)} ensures Registered(kernel, fd) == Wanted(EventsOn(entries, fd)) {
      if fd < |entries| {
        assert entries[fd].Some? ==>
                 Linked(entries[fd].value.idxplus1, fd, changes, Registered(kernel0, fd), Wanted(entries[fd].value.events));
      } else {
        assert fd !in kernel0;
      }
    }
  }

  /** A descriptor with an index has the change at that place. */
  predicate Owned(entries: seq<Option<Io>>, changes: seq<Change>) {
    forall fd {:trigger entries[fd]} :: 0 <= fd < |entries| && entries[fd].Some? && entries[fd].value.idxplus1 > 0 ==>
      entries[fd].value.idxplus1 <= |changes| && changes[entries[fd].value.idxplus1 - 1].fd == fd
  }

  lemma OkOwned(entries: seq<Option<Io>>, changes: seq<Change>, size: nat, kernel: map<nat, Kinds>)
    requires Ok(entries, changes, size, kernel)
    ensures Lists(entries) && Back(entries, changes) && Owned(entries, changes)
  {
    hide Wanted, Counted;
  }

  /** e is e0 with the indices up to i cleared. */
  predicate Cleared(e0: seq<Option<Io>>, e: seq<Option<Io>>, i: nat) {
    && |e| == |e0|
    && forall g {:trigger e[g]} :: 0 <= g < |e| ==>
      && (e0[g].None? ==> e[g].None?)
      && (e0[g].Some? ==> e[g] == Some(e0[g].value.(idxplus1 := if e0[g].value.idxplus1 <= i then 0 else e0[g].value.idxplus1)))
  }

  lemma ClearedNone(e0: seq<Option<Io>>, changes: seq<Change>)
    ensures Cleared(e0, e0, 0)
  {
  }

  lemma ClearedAt(e0: seq<Option<Io>>, e: seq<Option<Io>>, changes: seq<Change>, i: nat)
    requires Cleared(e0, e, i) && Back(e0, changes) && i < |changes|
    ensures var fd := changes[i].fd; fd < |e| && e[fd].Some? && e[fd].value.idxplus1 == i + 1
  {
  }

  lemma ClearedStep(e0: seq<Option<Io>>, e: seq<Option<Io>>, changes: seq<Change>, i: nat)
    requires Cleared(e0, e, i) && Back(e0, changes) && Owned(e0, changes) && i < |changes|
    ensures var fd := changes[i].fd;
            fd < |e| && e[fd].Some? && Cleared(e0, e[fd := Some(e[fd].value.(idxplus1 := 0))], i + 1)
  {
    var fd := changes[i].fd;
    assert e0[fd].value.idxplus1 == i + 1;
    var f := e[fd := Some(e[fd].value.(idxplus1 := 0))];
    forall g {:trigger f[g]} | 0 <= g < |f|
      ensures e0[g].None? ==> f[g].None?
      ensures e0[g].Some? ==> f[g] == Some(e0[g].value.(idxplus1 := if e0[g].value.idxplus1 <= i + 1 then 0 else e0[g].value.idxplus1))
    {
      assert g != fd ==> f[g] == e[g];
    }
  }

  lemma {:induction false} AllCleared(e0: seq<Option<Io>>, e: seq<Option<Io>>, changes: seq<Change>, size: nat, kernel: map<nat, Kinds>)
    requires Cleared(e0, e, |changes|) && Owned(e0, changes) && Lists(e0)
    requires forall fd {:trigger fd in kernel} :: fd in kernel ==> fd < |e0|
    requires forall fd: nat {:trigger Registered(kernel, fd)} :: Registered(kernel, fd) == Wanted(EventsOn(e0, fd))
    ensures Ok(e, [], size, kernel) && |e| == |e0|
    ensures forall fd :: EventsOn(e, fd) == EventsOn(e0, fd)
  {
    assert Wanted([]) == NO_KINDS;
    forall g {:trigger e[g]} | 0 <= g < |e|
      ensures e[g].None? ==> Registered(kernel, g) == NO_KINDS
      ensures e[g].Some? ==>
                Counted(e[g].value, g) && Linked(e[g].value.idxplus1, g, [], Registered(kernel, g), Wanted(e[g].value.events))
    {
      assert Registered(kernel, g) == Wanted(EventsOn(e0, g));
      assert e0[g].Some? ==> Counted(e0[g].value, g);
      hide Wanted;
    }
  }

  lemma {:induction false} CountedCons(ctx: Io, fd: nat, ev: Event, io: Io)
    requires Counted(ctx, fd) && ev.fd == fd && ev.kinds != NO_KINDS && io.events == [ev] + ctx.events
    requires forall e :: e in ctx.events ==> e.id != ev.id
    requires io.nread == ctx.nread + Bit(ev.kinds.read) <= COUNT_MAX
    requires io.nwrite == ctx.nwrite + Bit(ev.kinds.write) <= COUNT_MAX
    requires io.nclose == ctx.nclose + Bit(ev.kinds.close) <= COUNT_MAX
    ensures Counted(io, fd)
  {
    CountsCons(ev, ctx.events);
    DifferentCons(ev, ctx.events);
    hide Different, Reads, Writes, Closes;
  }

  lemma CountedWithout(ctx: Io, fd: nat, k: nat, io: Io)
    requires Counted(ctx, fd) && k < |ctx.events| && io.events == Without(ctx.events, k)
    requires ctx.nread == io.nread + Bit(ctx.events[k].kinds.read)
    requires ctx.nwrite == io.nwrite + Bit(ctx.events[k].kinds.write)
    requires ctx.nclose == io.nclose + Bit(ctx.events[k].kinds.close)
    ensures Counted(io, fd)
  {
    CountsWithout(ctx.events, k);
    DifferentWithout(ctx.events, k);
    hide Different, Reads, Writes, Closes;
    assert forall e :: e in io.events ==> e in ctx.events;
  }

  lemma {:induction false} DifferentCons(ev: Event, es: seq<Event>)
    requires Different(es) && forall e :: e in es ==> e.id != ev.id
    ensures Different([ev] + es)
  {
  }

  lemma DifferentWithout(es: seq<Event>, k: nat)
    requires Different(es) && k < |es|
    ensures Different(Without(es, k))
  {
  }

  lemma GrowOk(entries: seq<Option<Io>>, changes: seq<Change>, size: nat, kernel: map<nat, Kinds>, n: nat)
    requires Ok(entries, changes, size, kernel) && n >= |entries|
    ensures Ok(entries + seq(n - |entries|, _ => None), changes, size, kernel)
  {
    var e := entries + seq(n - |entries|, _ => None);
    hide Wanted, Counted;
    assert forall fd {:trigger e[fd]} :: 0 <= fd < |e| ==> e[fd] == if fd < |entries| then entries[fd] else None;
  }
}
