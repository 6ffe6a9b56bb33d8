/** The response a name server formats: its buffer is a sequence of pieces written through one table. */
module DnsResponse {
  import opened Bytes
  import opened Options
  import opened DnsNames
  import opened DnsRoundTrip

  const BUF_LEN: nat := 1500
  const RESPONSE_MAX: nat := 512

  datatype Question = Question(name: seq<u8>, qtype: nat, qclass: nat)

  /** A reply record; data is a name when isName is set. */
  datatype Item = Item(name: seq<u8>, itype: nat, iclass: nat, ttl: nat, isName: bool, data: seq<u8>)

  function Be16(x: nat): (b: seq<u8>)
    ensures |b| == 2
  {
    [x / 256 % 256, x % 256]
  }

  function Be32(x: nat): (b: seq<u8>)
    ensures |b| == 4
  {
    Be16(x / 65536) + Be16(x % 65536)
  }

  // ---------------------------------------------------------------- what is written

  function QuestionPieces(q: Question): seq<Piece> {
    [Name(q.name), Raw(Be16(q.qtype)), Raw(Be16(q.qclass))]
  }

  function ItemHead(it: Item): seq<Piece> {
    [Name(it.name)] + [Raw(Be16(it.itype)), Raw(Be16(it.iclass)), Raw(Be32(it.ttl))]
  }

  /** The data of a record, whose length field holds n. */
  function ItemData(it: Item, n: nat): seq<Piece> {
    [Raw(Be16(n)), if it.isName then Name(it.data) else Raw(it.data)]
  }

  function ItemPieces(it: Item, n: nat): seq<Piece> {
    ItemHead(it) + ItemData(it, n)
  }

  /** The data length of a record whose data goes behind s: of a name, what it takes there. */
  function LengthAt(s: Draft, room: nat, it: Item): nat {
    if !it.isName then |it.data| else
      var e := EncName(|s.b| + 2, room, s.t, it.data);
      if e.Encoding? then |e.out| else 0
  }

  /** The data length of a record written behind s. */
  function DataLength(s: Draft, room: nat, it: Item): nat {
    match PutAll(s, room, ItemHead(it))
    case None => 0
    case Some(s') => LengthAt(s', room, it)
  }

  function PutItem(s: Draft, room: nat, it: Item): Option<Draft> {
    PutAll(s, room, ItemPieces(it, DataLength(s, room, it)))
  }

  function QuestionsPieces(qs: seq<Question>): seq<Piece> {
    if |qs| == 0 then [] else QuestionPieces(qs[0]) + QuestionsPieces(qs[1..])
  }

  /** The pieces of records written behind s, up to one that does not fit. */
  function ItemsPieces(s: Draft, room: nat, its: seq<Item>): seq<Piece>
    decreases |its|
  {
    if |its| == 0 then [] else
      var ps := ItemPieces(its[0], DataLength(s, room, its[0]));
      match PutAll(s, room, ps)
      case None => ps
      case Some(s') => ps + ItemsPieces(s', room, its[1..])
  }

  // ---------------------------------------------------------------- what is there when something does not fit

  /** What has been written of a piece that does not fit: of a name, the labels in front of the one refused. */
  function Part(s: Draft, room: nat, p: Piece): seq<u8> {
    match p
    case Raw(_) => []
    case Name(n) =>
      match EncName(|s.b|, room, s.t, n)
      case Refused(_, part) => part
      case Encoding(_, _) => []
  }

  /** What the buffer holds, up to the first byte never written, when the pieces have been tried. */
  function Begun(s: Draft, room: nat, ps: seq<Piece>): (b: seq<u8>)
    ensures s.b <= b
    decreases |ps|
  {
    if |ps| == 0 then s.b else
      match Put(s, room, ps[0])
      case None => s.b + Part(s, room, ps[0])
      case Some(s') => Begun(s', room, ps[1..])
  }

  /** Of the data of a record; the length of a name would have been written last. */
  function BegunData(s: Draft, room: nat, it: Item): (b: seq<u8>)
    ensures s.b <= b
  {
    if it.isName then s.b else Begun(s, room, ItemData(it, |it.data|))
  }

  /** Of a record. */
  function BegunItem(s: Draft, room: nat, it: Item): (b: seq<u8>)
    ensures s.b <= b
  {
    BegunExtends(s, room, ItemHead(it));
    match PutAll(s, room, ItemHead(it))
    case None => Begun(s, room, ItemHead(it))
    case Some(s') => BegunData(s', room, it)
  }

  function BegunItems(s: Draft, room: nat, its: seq<Item>): (b: seq<u8>)
    ensures s.b <= b
    decreases |its|
  {
    if |its| == 0 then s.b else
      BegunExtends(s, room, ItemPieces(its[0], DataLength(s, room, its[0])));
      match PutItem(s, room, its[0])
      case None => BegunItem(s, room, its[0])
      case Some(s') => BegunItems(s', room, its[1..])
  }

  /** What has been put is there. */
  lemma {:induction false} BegunExtends(s: Draft, room: nat, ps: seq<Piece>)
    ensures PutAll(s, room, ps).Some? ==> s.b <= PutAll(s, room, ps).value.b == Begun(s, room, ps)
    decreases |ps|
  {
    if |ps| > 0 {
      hide Part;
      var r := Put(s, room, ps[0]);
      if r.Some? {
        BegunExtends(r.value, room, ps[1..]);
      }
    }
  }

  lemma {:induction false} BegunAppend(s: Draft, room: nat, ps: seq<Piece>, qs: seq<Piece>)
    ensures var r := PutAll(s, room, ps);
            && (r.None? ==> Begun(s, room, ps + qs) == Begun(s, room, ps))
            && (r.Some? ==> Begun(s, room, ps + qs) == Begun(r.value, room, qs))
    decreases |ps|
  {
    hide Put, Part;
    if |ps| == 0 {
      assert ps + qs == qs;
    } else {
      assert (ps + qs)[1..] == ps[1..] + qs;
      var r := Put(s, room, ps[0]);
      if r.Some? {
        BegunAppend(r.value, room, ps[1..], qs);
      }
    }
  }

  lemma BegunFirst(s: Draft, room: nat, p: Piece, ps: seq<Piece>)
    ensures Begun(s, room, [p] + ps) == if Put(s, room, p).None? then s.b + Part(s, room, p) else Begun(Put(s, room, p).value, room, ps)
  {
    assert ([p] + ps)[1..] == ps;
  }

  /** The buffer holds b, and behind it the byte that was there. */
  predicate Begins(buf: seq<u8>, was: seq<u8>, b: seq<u8>) {
    |b| <= |buf| == |was| && buf[..|b|] == b && (|b| < |buf| ==> buf[|b|] == was[|b|])
  }

  /** Nothing was written from k on. */
  predicate Untouched(buf: seq<u8>, was: seq<u8>, k: nat) {
    k <= |buf| == |was| && buf[k..] == was[k..]
  }

  lemma BeginsAt(buf: seq<u8>, was: seq<u8>, k: nat)
    requires Untouched(buf, was, k)
    ensures Begins(buf, was, buf[..k])
  {
    if k < |buf| {
      assert buf[k] == buf[k..][0] == was[k..][0];
    }
  }

  lemma UntouchedTrans(a: seq<u8>, b: seq<u8>, c: seq<u8>, j: nat, k: nat)
    requires Untouched(b, a, j) && Untouched(c, b, k) && j <= k
    ensures Untouched(c, a, k)
  {
    assert a[k..] == a[j..][k - j..] && b[k..] == b[j..][k - j..];
  }

  lemma BeginsLater(was0: seq<u8>, was: seq<u8>, k: nat, buf: seq<u8>, b: seq<u8>)
    requires k <= |b| && Untouched(was, was0, k) && Begins(buf, was, b)
    ensures Begins(buf, was0, b)
  {
    if |b| < |buf| {
      assert was[|b|] == was[k..][|b| - k] == was0[k..][|b| - k];
    }
  }

  // ---------------------------------------------------------------- writing it

  /** APPEND16 */
  method Append16(buf: array<u8>, bufLen: nat, j: nat, x: nat) returns (ok: bool, k: nat)
    requires bufLen < buf.Length && j <= buf.Length
    modifies buf
    ensures ok == (j + 2 <= bufLen)
    ensures ok ==> k == j + 2 && buf[..k] == old(buf[..j]) + Be16(x) && Untouched(buf[..], old(buf[..]), k)
    ensures buf[..j] == old(buf[..j]) && (!ok ==> buf[..] == old(buf[..]))
  {
    ok, k := j + 2 <= bufLen, j;
    if ok {
      Memcpy(buf, j, Be16(x));
      k := j + 2;
    }
  }

  /** APPEND32 */
  method Append32(buf: array<u8>, bufLen: nat, j: nat, x: nat) returns (ok: bool, k: nat)
    requires bufLen < buf.Length && j <= buf.Length
    modifies buf
    ensures ok == (j + 4 <= bufLen)
    ensures ok ==> k == j + 4 && buf[..k] == old(buf[..j]) + Be32(x) && Untouched(buf[..], old(buf[..]), k)
    ensures buf[..j] == old(buf[..j]) && (!ok ==> buf[..] == old(buf[..]))
  {
    ok, k := j + 4 <= bufLen, j;
    if ok {
      Memcpy(buf, j, Be32(x));
      k := j + 4;
    }
  }

  /** The draft that buffer and table hold. */
  ghost function Now(buf: array<u8>, j: nat, table: LabelTable): Draft
    requires j <= buf.Length
    reads buf, table
  {
    Draft(buf[..j], Some(table.labels))
  }

  /** dnsname_to_labels, seen as a piece. */
  method WriteName(buf: array<u8>, bufLen: nat, j: nat, name: seq<u8>, table: LabelTable) returns (r: int)
    requires bufLen < buf.Length && j <= buf.Length && 0 !in name
    modifies buf, table
    ensures buf[..j] == old(buf[..j])
    ensures r < 0 <==> Put(old(Now(buf, j, table)), bufLen, Name(name)).None?
    ensures r >= 0 ==> j <= r <= buf.Length && Put(old(Now(buf, j, table)), bufLen, Name(name)) == Some(Now(buf, r, table))
    ensures r >= 0 ==> Untouched(buf[..], old(buf[..]), r)
    ensures r < 0 ==> Begins(buf[..], old(buf[..]), old(buf[..j]) + Part(old(Now(buf, j, table)), bufLen, Name(name)))
  {
    hide EncName, Overlaid, Begins, WireWith, LongLabel;
    ghost var s, was := Now(buf, j, table), buf[..];
    r := DnsnameToLabels(buf, bufLen, j, name, table);
    ghost var now := buf[..];
    RefusedNegative(|s.b|, bufLen, s.t, name);
    assert now[..j] == buf[..j] && was[..j] == s.b;
    if r < 0 {
      BeginsAt(now, was, j + |Part(s, bufLen, Name(name))|);
    } else {
      assert now[..r] == buf[..r];
    }
  }

  lemma {:induction false} RefusedNegative(j: nat, room: nat, t: Option<seq<Entry>>, name: seq<u8>)
    ensures var e := EncName(j, room, t, name); e.Refused? ==> e.code < 0
    decreases |name|
  {
    EncNegative(j, room, t, name);
  }

  lemma PutFirst(s: Draft, room: nat, p: Piece, ps: seq<Piece>)
    ensures PutAll(s, room, [p] + ps) == if Put(s, room, p).None? then None else PutAll(Put(s, room, p).value, room, ps)
  {
    assert ([p] + ps)[1..] == ps;
  }

  /** Two pieces and then more. */
  lemma PutThree(s: Draft, room: nat, p: Piece, q: Piece, r: Piece)
    ensures PutAll(s, room, [p, q, r])
         == if Put(s, room, p).None? then None
            else var s1 := Put(s, room, p).value;
                 if Put(s1, room, q).None? then None else Put(Put(s1, room, q).value, room, r)
  {
    hide Put;
    assert [p, q, r] == [p] + ([q] + [r]);
    PutFirst(s, room, p, [q] + [r]);
    var a := Put(s, room, p);
    if a.Some? {
      PutFirst(a.value, room, q, [r]);
      var b := Put(a.value, room, q);
      if b.Some? {
        PutOne(b.value, room, r);
      }
    }
  }

  /** Where writing a question ended: behind it, at a name that cannot be written, or out of room. */
  datatype Wrote = At(k: nat) | BadName(code: int) | Overflow

  /** One round of the loop over the questions. */
  method WriteQuestion(buf: array<u8>, bufLen: nat, j: nat, q: Question, table: LabelTable) returns (w: Wrote)
    requires bufLen < buf.Length && j <= buf.Length && 0 !in q.name
    modifies buf, table
    ensures buf[..j] == old(buf[..j])
    ensures w.At? <==> PutAll(old(Now(buf, j, table)), bufLen, QuestionPieces(q)).Some?
    ensures w.At? ==> j <= w.k <= buf.Length && PutAll(old(Now(buf, j, table)), bufLen, QuestionPieces(q)) == Some(Now(buf, w.k, table))
    ensures w.BadName? <==> Put(old(Now(buf, j, table)), bufLen, Name(q.name)).None?
    ensures w.BadName? ==> w.code < 0
    ensures w.At? ==> Untouched(buf[..], old(buf[..]), w.k)
    ensures w.Overflow? ==> Begins(buf[..], old(buf[..]), Begun(old(Now(buf, j, table)), bufLen, QuestionPieces(q)))
  {
    hide EncName, Be16, Begins, Begun, Untouched;
    ghost var s, was := Now(buf, j, table), buf[..];
    PutThree(s, bufLen, Name(q.name), Raw(Be16(q.qtype)), Raw(Be16(q.qclass)));
    BegunThree(s, bufLen, Name(q.name), Be16(q.qtype), Be16(q.qclass));
    hide PutAll;
    var r := WriteName(buf, bufLen, j, q.name, table);
    if r < 0 {
      return BadName(r);
    }
    ghost var b := buf[..];
    assert b[..r] == buf[..r];
    var ok, k := Append16(buf, bufLen, r, q.qtype);
    if !ok {
      BeginsAt(b, was, r);
      return Overflow;
    }
    ghost var c := buf[..];
    assert c[..k] == buf[..k];
    UntouchedTrans(was, b, c, r, k);
    var at := k;
    ok, k := Append16(buf, bufLen, at, q.qclass);
    if !ok {
      BeginsAt(c, was, at);
      return Overflow;
    }
    UntouchedTrans(was, c, buf[..], at, k);
    w := At(k);
  }

  lemma BegunThree(s: Draft, room: nat, p: Piece, x: seq<u8>, y: seq<u8>)
    ensures Put(s, room, p).None? ==> Begun(s, room, [p, Raw(x), Raw(y)]) == s.b + Part(s, room, p)
    ensures Put(s, room, p).Some? ==>
              var t := Put(s, room, p).value;
              && (|t.b| + |x| > room ==> Begun(s, room, [p, Raw(x), Raw(y)]) == t.b)
              && (|t.b| + |x| <= room < |t.b| + |x| + |y| ==> Begun(s, room, [p, Raw(x), Raw(y)]) == t.b + x)
  {
    assert [p, Raw(x), Raw(y)] == [p] + ([Raw(x)] + [Raw(y)]);
    BegunFirst(s, room, p, [Raw(x)] + [Raw(y)]);
    var a := Put(s, room, p);
    if a.Some? {
      BegunFirst(a.value, room, Raw(x), [Raw(y)]);
    }
  }

  /** Overwrites two bytes. */
  method Patch16(buf: array<u8>, at: nat, x: nat)
    requires at + 2 <= buf.Length
    modifies buf
    ensures buf[..] == Overlaid(old(buf[..]), at, Be16(x))
  {
    buf[at], buf[at + 1] := Be16(x)[0], Be16(x)[1];
  }

  lemma PutTwo(s: Draft, room: nat, p: Piece, q: Piece)
    ensures PutAll(s, room, [p, q]) == if Put(s, room, p).None? then None else Put(Put(s, room, p).value, room, q)
  {
    hide Put;
    assert [p, q] == [p] + [q];
    PutFirst(s, room, p, [q]);
    var a := Put(s, room, p);
    if a.Some? {
      PutOne(a.value, room, q);
    }
  }

  /** A name that is written had room to start. */
  lemma EncFits(j: nat, room: nat, t: Option<seq<Entry>>, name: seq<u8>)
    ensures EncName(j, room, t, name).Encoding? ==> j <= room
  {
  }

  lemma NameDataPut(s: Draft, room: nat, it: Item)
    requires it.isName
    ensures var e, n := EncName(|s.b| + 2, room, s.t, it.data), LengthAt(s, room, it);
            && (e.Refused? ==> PutAll(s, room, ItemData(it, n)) == None)
            && (e.Encoding? ==> n == |e.out| && PutAll(s, room, ItemData(it, n)) == Some(Draft(s.b + Be16(n) + e.out, e.table)))
  {
    var n := LengthAt(s, room, it);
    EncFits(|s.b| + 2, room, s.t, it.data);
    hide EncName, Be16;
    PutTwo(s, room, Raw(Be16(n)), Name(it.data));
  }

  /** A record whose data is a name: the length goes in when the name has been written. */
  method WriteNameData(buf: array<u8>, bufLen: nat, j: nat, it: Item, table: LabelTable) returns (ok: bool, k: nat)
    requires bufLen < buf.Length && j + 2 <= buf.Length && it.isName && 0 !in it.data
    modifies buf, table
    ensures buf[..j] == old(buf[..j])
    ensures var s := old(Now(buf, j, table));
            var r := PutAll(s, bufLen, ItemData(it, LengthAt(s, bufLen, it)));
            ok == r.Some? && (ok ==> j <= k <= buf.Length && r == Some(Now(buf, k, table)))
    ensures if ok then Untouched(buf[..], old(buf[..]), k) else Begins(buf[..], old(buf[..]), old(buf[..j]))
  {
    hide EncName, Be16, Overlaid, Begins, WireWith, LongLabel;
    ghost var s, was := Now(buf, j, table), buf[..];
    NameDataPut(s, bufLen, it);
    hide PutAll;
    var r := DnsnameToLabels(buf, bufLen, j + 2, it.data, table);
    ghost var e := EncName(|s.b| + 2, bufLen, s.t, it.data);
    RefusedNegative(|s.b| + 2, bufLen, s.t, it.data);
    ok, k := r >= 0, 0;
    if !ok {
      GapLeft(was, buf[..], j, e.part);
      assert buf[..][..j] == buf[..j];
      return;
    }
    k := r;
    Patch16(buf, j, r - (j + 2));
    Patched(was, j, Be16(|e.out|), e.out);
    assert buf[..][..k] == buf[..k] && buf[..][..j] == buf[..j];
    assert s.b + Be16(|e.out|) + e.out == s.b + (Be16(|e.out|) + e.out);
  }

  /** The two bytes in front of what was written are as they were. */
  lemma GapLeft(was: seq<u8>, now: seq<u8>, j: nat, part: seq<u8>)
    requires j + 2 + |part| <= |was| && now == Overlaid(was, j + 2, part)
    ensures Begins(now, was, was[..j]) && now[..j] == was[..j]
  {
    hide Overlaid;
    assert now[..j] == now[..j + 2][..j] == was[..j + 2][..j];
    assert now[j] == now[..j + 2][j] == was[..j + 2][j];
  }

  /** Filled in, the length stands in front of the name. */
  lemma Patched(was: seq<u8>, j: nat, length: seq<u8>, out: seq<u8>)
    requires |length| == 2 && j + 2 + |out| <= |was|
    ensures Overlaid(Overlaid(was, j + 2, out), j, length) == Overlaid(was, j, length + out)
  {
    var mid := Overlaid(was, j + 2, out);
    assert mid[..j] == mid[..j + 2][..j] == was[..j];
    assert mid[j + 2..] == out + was[j + 2 + |out|..];
  }

  /** A record whose data is bytes. */
  method WriteRawData(buf: array<u8>, bufLen: nat, j: nat, it: Item, table: LabelTable) returns (ok: bool, k: nat)
    requires bufLen < buf.Length && j <= buf.Length && !it.isName
    modifies buf
    ensures buf[..j] == old(buf[..j])
    ensures var s := old(Now(buf, j, table));
            var r := PutAll(s, bufLen, ItemData(it, |it.data|));
            ok == r.Some? && (ok ==> j <= k <= buf.Length && r == Some(Now(buf, k, table)))
    ensures ok ==> Untouched(buf[..], old(buf[..]), k)
    ensures !ok ==> Begins(buf[..], old(buf[..]), Begun(old(Now(buf, j, table)), bufLen, ItemData(it, |it.data|)))
  {
    hide Be16, Overlaid, Begins, Untouched;
    ghost var s, was := Now(buf, j, table), buf[..];
    PutTwo(s, bufLen, Raw(Be16(|it.data|)), Raw(it.data));
    BegunRaw(s, bufLen, Be16(|it.data|), it.data);
    hide PutAll, Begun;
    ok, k := Append16(buf, bufLen, j, |it.data|);
    if !ok {
      AllUntouched(was, j);
      return;
    }
    ghost var c := buf[..];
    assert c[..k] == buf[..k] && c[..j] == was[..j];
    if k + |it.data| > bufLen {
      ok := false;
      BeginsAt(c, was, k);
      return;
    }
    var at := k;
    Memcpy(buf, at, it.data);
    k := at + |it.data|;
    ghost var d := buf[..];
    assert d[..k] == buf[..k] && d[..at] == c[..at] && d[..j] == d[..at][..j] == c[..j];
    OverlaidUntouched(c, at, it.data);
    UntouchedTrans(was, c, d, at, k);
  }

  lemma OverlaidUntouched(was: seq<u8>, j: nat, x: seq<u8>)
    requires j + |x| <= |was|
    ensures Untouched(Overlaid(was, j, x), was, j + |x|)
  {
  }

  lemma AllUntouched(was: seq<u8>, j: nat)
    requires j <= |was|
    ensures Untouched(was, was, j) && Begins(was, was, was[..j])
  {
  }

  lemma BegunRaw(s: Draft, room: nat, x: seq<u8>, y: seq<u8>)
    ensures |s.b| + |x| > room ==> Begun(s, room, [Raw(x), Raw(y)]) == s.b
    ensures |s.b| + |x| <= room < |s.b| + |x| + |y| ==> Begun(s, room, [Raw(x), Raw(y)]) == s.b + x
  {
    assert [Raw(x), Raw(y)] == [Raw(x)] + [Raw(y)];
    BegunFirst(s, room, Raw(x), [Raw(y)]);
  }

  /** Type, class and time to live of a record. */
  method WriteFixed(buf: array<u8>, bufLen: nat, j: nat, it: Item, table: LabelTable) returns (ok: bool, k: nat)
    requires bufLen < buf.Length && j <= buf.Length
    modifies buf
    ensures buf[..j] == old(buf[..j])
    ensures var s := old(Now(buf, j, table));
            var r := PutAll(s, bufLen, [Raw(Be16(it.itype)), Raw(Be16(it.iclass)), Raw(Be32(it.ttl))]);
            ok == r.Some? && (ok ==> j <= k <= bufLen && r == Some(Now(buf, k, table)))
    ensures ok ==> Untouched(buf[..], old(buf[..]), k)
    ensures !ok ==>
              Begins(buf[..], old(buf[..]),
                     Begun(old(Now(buf, j, table)), bufLen, [Raw(Be16(it.itype)), Raw(Be16(it.iclass)), Raw(Be32(it.ttl))]))
  {
    hide Be16, Be32, Begins, Untouched, Begun;
    ghost var s, was := Now(buf, j, table), buf[..];
    PutThree(s, bufLen, Raw(Be16(it.itype)), Raw(Be16(it.iclass)), Raw(Be32(it.ttl)));
    BegunThree(s, bufLen, Raw(Be16(it.itype)), Be16(it.iclass), Be32(it.ttl));
    hide PutAll;
    AllUntouched(was, j);
    ok, k := Append16(buf, bufLen, j, it.itype);
    if !ok {
      assert was[..j] == s.b + Part(s, bufLen, Raw(Be16(it.itype)));
      return;
    }
    ghost var b := buf[..];
    assert b[..k] == buf[..k] && b[..j] == was[..j];
    var at := k;
    ok, k := Append16(buf, bufLen, at, it.iclass);
    if !ok {
      BeginsAt(b, was, at);
      return;
    }
    ghost var c := buf[..];
    assert c[..k] == buf[..k] && c[..at] == buf[..at] && c[..j] == c[..at][..j];
    UntouchedTrans(was, b, c, at, k);
    at := k;
    ok, k := Append32(buf, bufLen, at, it.ttl);
    if !ok {
      BeginsAt(c, was, at);
      return;
    }
    ghost var d := buf[..];
    assert d[..k] == buf[..k] && d[..at] == buf[..at] && d[..j] == d[..at][..j];
    UntouchedTrans(was, c, d, at, k);
  }

  /** The data of a record. */
  method WriteData(buf: array<u8>, bufLen: nat, j: nat, it: Item, table: LabelTable) returns (ok: bool, k: nat)
    requires bufLen < buf.Length && j + 2 <= buf.Length && (it.isName ==> 0 !in it.data)
    modifies buf, table
    ensures buf[..j] == old(buf[..j])
    ensures var s := old(Now(buf, j, table));
            var r := PutAll(s, bufLen, ItemData(it, LengthAt(s, bufLen, it)));
            ok == r.Some? && (ok ==> j <= k <= buf.Length && r == Some(Now(buf, k, table)))
    ensures ok ==> Untouched(buf[..], old(buf[..]), k)
    ensures !ok ==> Begins(buf[..], old(buf[..]), BegunData(old(Now(buf, j, table)), bufLen, it))
  {
    hide PutAll, ItemData, Untouched, Begins, Begun, EncName;
    if it.isName {
      ok, k := WriteNameData(buf, bufLen, j, it, table);
    } else {
      ok, k := WriteRawData(buf, bufLen, j, it, table);
    }
  }

  /** A record in three parts: its name, what has a fixed length, and its data. */
  lemma ItemParts(s: Draft, room: nat, it: Item)
    ensures var a := Put(s, room, Name(it.name));
            var fixed := [Raw(Be16(it.itype)), Raw(Be16(it.iclass)), Raw(Be32(it.ttl))];
            && (a.None? ==> PutItem(s, room, it) == None && BegunItem(s, room, it) == s.b + Part(s, room, Name(it.name)))
            && (a.Some? ==>
                  var b := PutAll(a.value, room, fixed);
                  && (b.None? ==> PutItem(s, room, it) == None && BegunItem(s, room, it) == Begun(a.value, room, fixed))
                  && (b.Some? ==>
                        && PutItem(s, room, it) == PutAll(b.value, room, ItemData(it, LengthAt(b.value, room, it)))
                        && BegunItem(s, room, it) == BegunData(b.value, room, it)))
  {
    hide Be16, Be32, Begun, BegunData, PutAll, Put, ItemData, Part, LengthAt;
    var fixed := [Raw(Be16(it.itype)), Raw(Be16(it.iclass)), Raw(Be32(it.ttl))];
    PutAllAppend(s, room, [Name(it.name)], fixed);
    PutAllAppend(s, room, ItemHead(it), ItemData(it, DataLength(s, room, it)));
    PutOne(s, room, Name(it.name));
    BegunFirst(s, room, Name(it.name), fixed);
  }

  /** One round of the loop over the records of a section. */
  method WriteItem(buf: array<u8>, bufLen: nat, j: nat, it: Item, table: LabelTable) returns (ok: bool, k: nat)
    requires bufLen + 1 < buf.Length && j <= buf.Length && 0 !in it.name && (it.isName ==> 0 !in it.data)
    modifies buf, table
    ensures buf[..j] == old(buf[..j])
    ensures var s := old(Now(buf, j, table));
            var r := PutItem(s, bufLen, it);
            ok == r.Some? && (ok ==> j <= k <= buf.Length && r == Some(Now(buf, k, table)))
    ensures ok ==> Untouched(buf[..], old(buf[..]), k)
    ensures !ok ==> Begins(buf[..], old(buf[..]), BegunItem(old(Now(buf, j, table)), bufLen, it))
  {
    hide Be16, Be32, Begins, Untouched, Begun, BegunItem, BegunData, PutItem, PutAll, Put, ItemData, Part, LengthAt;
    ghost var s, was := Now(buf, j, table), buf[..];
    ItemParts(s, bufLen, it);
    ok, k := false, j;
    var r := WriteName(buf, bufLen, j, it.name, table);
    if r < 0 {
      return;
    }
    ghost var c := buf[..];
    assert c[..j] == buf[..j] && c[..j] == buf[..r][..j];
    ok, k := WriteFixed(buf, bufLen, r, it, table);
    ghost var d := buf[..];
    assert d[..j] == buf[..j] == buf[..r][..j];
    if !ok {
      BeginsLater(was, c, r, d, BegunItem(s, bufLen, it));
      return;
    }
    UntouchedTrans(was, c, d, r, k);
    var at := k;
    assert d[..at] == buf[..at];
    ok, k := WriteData(buf, bufLen, at, it, table);
    assert buf[..j] == buf[..at][..j];
    if ok {
      UntouchedTrans(was, d, buf[..], at, k);
    } else {
      BeginsLater(was, d, at, buf[..], BegunItem(s, bufLen, it));
    }
  }

  /** The i-th question is reached, and its name cannot be written. */
  ghost predicate NameFailsAt(s: Draft, room: nat, qs: seq<Question>, i: nat) {
    i < |qs| && var r := PutAll(s, room, QuestionsPieces(qs[..i])); r.Some? && Put(r.value, room, Name(qs[i].name)).None?
  }

  ghost predicate NameFails(s: Draft, room: nat, qs: seq<Question>) {
    exists i: nat :: NameFailsAt(s, room, qs, i)
  }

  lemma NameFailsNext(s: Draft, room: nat, qs: seq<Question>)
    requires |qs| > 0
    ensures var r := PutAll(s, room, QuestionPieces(qs[0]));
            NameFails(s, room, qs) <==> Put(s, room, Name(qs[0].name)).None? || (r.Some? && NameFails(r.value, room, qs[1..]))
  {
    hide PutAll, Put, QuestionPieces;
    var r := PutAll(s, room, QuestionPieces(qs[0]));
    assert qs[..0] == [];
    PutNothing(s, room);
    assert NameFailsAt(s, room, qs, 0) <==> Put(s, room, Name(qs[0].name)).None?;
    forall i: nat | 0 < i < |qs|
      ensures NameFailsAt(s, room, qs, i) <==> r.Some? && NameFailsAt(r.value, room, qs[1..], i - 1)
    {
      assert qs[..i][1..] == qs[1..][..i - 1];
      QuestionsNext(s, room, qs[..i]);
    }
    if r.Some? && NameFails(r.value, room, qs[1..]) {
      var k: nat :| NameFailsAt(r.value, room, qs[1..], k);
      assert NameFailsAt(s, room, qs, k + 1);
    }
  }

  /** The loop over the questions. */
  method WriteQuestions(buf: array<u8>, bufLen: nat, j: nat, qs: seq<Question>, table: LabelTable) returns (w: Wrote)
    requires bufLen < buf.Length && j <= buf.Length
    requires forall i {:trigger qs[i]} :: 0 <= i < |qs| ==> 0 !in qs[i].name
    modifies buf, table
    ensures buf[..j] == old(buf[..j])
    ensures var r := PutAll(old(Now(buf, j, table)), bufLen, QuestionsPieces(qs));
            w.At? == r.Some? && (w.At? ==> j <= w.k <= buf.Length && r == Some(Now(buf, w.k, table)))
    ensures w.BadName? ==> w.code < 0
    ensures w.BadName? <==> NameFails(old(Now(buf, j, table)), bufLen, qs)
    ensures w.At? ==> Untouched(buf[..], old(buf[..]), w.k)
    ensures w.Overflow? ==> Begins(buf[..], old(buf[..]), Begun(old(Now(buf, j, table)), bufLen, QuestionsPieces(qs)))
  {
    hide PutAll, Put, QuestionPieces, Begun, Begins, Untouched, NameFails;
    ghost var s, b, was := Now(buf, j, table), buf[..j], buf[..];
    AllUntouched(was, j);
    var i: nat, k: nat := 0, j;
    w := At(k);
    assert qs[0..] == qs;
    while i < |qs|
      invariant i <= |qs| && w == At(k) && j <= k <= buf.Length && buf[..j] == b
      invariant PutAll(Now(buf, k, table), bufLen, QuestionsPieces(qs[i..])) == PutAll(s, bufLen, QuestionsPieces(qs))
      invariant Begun(Now(buf, k, table), bufLen, QuestionsPieces(qs[i..])) == Begun(s, bufLen, QuestionsPieces(qs))
      invariant NameFails(Now(buf, k, table), bufLen, qs[i..]) <==> NameFails(s, bufLen, qs)
      invariant Untouched(buf[..], was, k)
    {
      ghost var t, c := Now(buf, k, table), buf[..];
      QuestionsNext(t, bufLen, qs[i..]);
      NameFailsNext(t, bufLen, qs[i..]);
      assert qs[i..][1..] == qs[i + 1..];
      var at := k;
      w := WriteQuestion(buf, bufLen, at, qs[i], table);
      assert buf[..j] == buf[..at][..j];
      if !w.At? {
        if w.Overflow? {
          BeginsLater(was, c, at, buf[..], Begun(s, bufLen, QuestionsPieces(qs)));
        }
        return;
      }
      k := w.k;
      UntouchedTrans(was, c, buf[..], at, k);
      i := i + 1;
    }
    assert qs[i..] == [];
    PutNothing(Now(buf, k, table), bufLen);
    NoneFails(Now(buf, k, table), bufLen);
  }

  lemma NoneFails(s: Draft, room: nat)
    ensures !NameFails(s, room, [])
  {
  }

  lemma PutNothing(s: Draft, room: nat)
    ensures PutAll(s, room, QuestionsPieces([])) == Some(s) && PutAll(s, room, []) == Some(s)
  {
  }

  lemma QuestionsNext(s: Draft, room: nat, qs: seq<Question>)
    requires |qs| > 0
    ensures var r := PutAll(s, room, QuestionPieces(qs[0]));
            && (r.None? ==> PutAll(s, room, QuestionsPieces(qs)) == None)
            && (r.Some? ==> PutAll(s, room, QuestionsPieces(qs)) == PutAll(r.value, room, QuestionsPieces(qs[1..])))
            && (r.None? ==> Begun(s, room, QuestionsPieces(qs)) == Begun(s, room, QuestionPieces(qs[0])))
            && (r.Some? ==> Begun(s, room, QuestionsPieces(qs)) == Begun(r.value, room, QuestionsPieces(qs[1..])))
  {
    PutAllAppend(s, room, QuestionPieces(qs[0]), QuestionsPieces(qs[1..]));
    BegunAppend(s, room, QuestionPieces(qs[0]), QuestionsPieces(qs[1..]));
    hide PutAll, Begun;
  }

  function PutItems(s: Draft, room: nat, its: seq<Item>): Option<Draft> {
    PutAll(s, room, ItemsPieces(s, room, its))
  }

  lemma ItemsNext(s: Draft, room: nat, its: seq<Item>)
    ensures |its| == 0 ==> PutItems(s, room, its) == Some(s)
    ensures |its| > 0 ==>
              var r := PutItem(s, room, its[0]);
              && (r.None? ==> PutItems(s, room, its) == None)
              && (r.Some? ==> PutItems(s, room, its) == PutItems(r.value, room, its[1..]))
              && (r.None? ==> BegunItems(s, room, its) == BegunItem(s, room, its[0]))
              && (r.Some? ==> BegunItems(s, room, its) == BegunItems(r.value, room, its[1..]))
  {
    hide BegunItem;
    if |its| > 0 {
      var r := PutItem(s, room, its[0]);
      if r.Some? {
        var ps := ItemPieces(its[0], DataLength(s, room, its[0]));
        PutAllAppend(s, room, ps, ItemsPieces(r.value, room, its[1..]));
        hide PutAll;
      }
    }
  }

  lemma {:induction false} ItemsAppend(s: Draft, room: nat, its: seq<Item>, more: seq<Item>)
    ensures var r := PutItems(s, room, its);
            && (r.None? ==> PutItems(s, room, its + more) == None)
            && (r.Some? ==> PutItems(s, room, its + more) == PutItems(r.value, room, more))
            && (r.None? ==> BegunItems(s, room, its + more) == BegunItems(s, room, its))
            && (r.Some? ==> BegunItems(s, room, its + more) == BegunItems(r.value, room, more))
    decreases |its|
  {
    hide PutItem, BegunItem;
    ItemsNext(s, room, its);
    ItemsNext(s, room, its + more);
    hide PutItems, BegunItems;
    if |its| == 0 {
      assert its + more == more;
    } else {
      assert (its + more)[1..] == its[1..] + more;
      var r := PutItem(s, room, its[0]);
      if r.Some? {
        ItemsAppend(r.value, room, its[1..], more);
      }
    }
  }

  predicate Printable(it: Item) {
    0 !in it.name && (it.isName ==> 0 !in it.data)
  }

  predicate AllPrintable(its: seq<Item>) {
    forall i {:trigger its[i]} :: 0 <= i < |its| ==> Printable(its[i])
  }

  /** The loop over the records of one section. */
  method WriteItems(buf: array<u8>, bufLen: nat, j: nat, its: seq<Item>, table: LabelTable) returns (ok: bool, k: nat)
    requires bufLen + 1 < buf.Length && j <= buf.Length
    requires AllPrintable(its)
    modifies buf, table
    ensures buf[..j] == old(buf[..j])
    ensures var r := PutItems(old(Now(buf, j, table)), bufLen, its);
            ok == r.Some? && (ok ==> j <= k <= buf.Length && r == Some(Now(buf, k, table)))
    ensures ok ==> Untouched(buf[..], old(buf[..]), k)
    ensures !ok ==> Begins(buf[..], old(buf[..]), BegunItems(old(Now(buf, j, table)), bufLen, its))
  {
    hide PutItems, PutItem, BegunItems, BegunItem, Begins, Untouched;
    ghost var s, b, was := Now(buf, j, table), buf[..j], buf[..];
    AllUntouched(was, j);
    var i := 0;
    ok, k := true, j;
    assert its[0..] == its;
    while i < |its|
      invariant i <= |its| && ok && j <= k <= buf.Length && buf[..j] == b
      invariant PutItems(Now(buf, k, table), bufLen, its[i..]) == PutItems(s, bufLen, its)
      invariant BegunItems(Now(buf, k, table), bufLen, its[i..]) == BegunItems(s, bufLen, its)
      invariant Untouched(buf[..], was, k)
    {
      ghost var t, c := Now(buf, k, table), buf[..];
      ItemsNext(t, bufLen, its[i..]);
      assert its[i..][1..] == its[i + 1..];
      var at := k;
      ok, k := WriteItem(buf, bufLen, at, its[i], table);
      assert buf[..j] == buf[..at][..j];
      if !ok {
        BeginsLater(was, c, at, buf[..], BegunItems(s, bufLen, its));
        return;
      }
      UntouchedTrans(was, c, buf[..], at, k);
      i := i + 1;
    }
    assert its[i..] == [];
    ItemsNext(Now(buf, k, table), bufLen, []);
  }

  /** The first twelve bytes: id, flags and the four counts. */
  function HeaderPieces(h: seq<nat>): seq<Piece> {
    seq(|h|, i requires 0 <= i < |h| => Raw(Be16(h[i])))
  }

  const EMPTY := Draft([], Some([]))

  /** Header and questions of a response. */
  function Front(h: seq<nat>, qs: seq<Question>): seq<Piece> {
    HeaderPieces(h) + QuestionsPieces(qs)
  }

  /** All pieces of a response with the records its. */
  function ResponsePieces(h: seq<nat>, qs: seq<Question>, its: seq<Item>): seq<Piece> {
    match PutAll(EMPTY, BUF_LEN, Front(h, qs))
    case None => Front(h, qs)
    case Some(s) => Front(h, qs) + ItemsPieces(s, BUF_LEN, its)
  }

  /** What these pieces come to in a buffer of BUF_LEN bytes. */
  function Response(h: seq<nat>, qs: seq<Question>, its: seq<Item>): Option<Draft> {
    PutAll(EMPTY, BUF_LEN, ResponsePieces(h, qs, its))
  }

  /** What the buffer holds when all has been tried, up to the first byte never written: of a response that
      fits the buffer, all of it. */
  function Formatted(h: seq<nat>, qs: seq<Question>, its: seq<Item>): seq<u8> {
    match PutAll(EMPTY, BUF_LEN, Front(h, qs))
    case None => Begun(EMPTY, BUF_LEN, Front(h, qs))
    case Some(s) => BegunItems(s, BUF_LEN, its)
  }

  lemma ResponseParts(h: seq<nat>, qs: seq<Question>, its: seq<Item>)
    requires PutAll(EMPTY, BUF_LEN, HeaderPieces(h)).Some?
    ensures var a := PutAll(EMPTY, BUF_LEN, HeaderPieces(h)).value;
            var b := PutAll(a, BUF_LEN, QuestionsPieces(qs));
            && (b.None? ==> Response(h, qs, its) == None && Formatted(h, qs, its) == Begun(a, BUF_LEN, QuestionsPieces(qs)))
            && (b.Some? ==>
                  Response(h, qs, its) == PutItems(b.value, BUF_LEN, its) && Formatted(h, qs, its) == BegunItems(b.value, BUF_LEN, its))
  {
    PutAllAppend(EMPTY, BUF_LEN, HeaderPieces(h), QuestionsPieces(qs));
    BegunAppend(EMPTY, BUF_LEN, HeaderPieces(h), QuestionsPieces(qs));
    var b := PutAll(EMPTY, BUF_LEN, Front(h, qs));
    hide Begun, BegunItems;
    if b.Some? {
      PutAllAppend(EMPTY, BUF_LEN, Front(h, qs), ItemsPieces(b.value, BUF_LEN, its));
    }
    hide PutAll;
  }

  lemma {:induction false} ItemsWhole(s: Draft, room: nat, its: seq<Item>)
    ensures PutItems(s, room, its).Some? ==> BegunItems(s, room, its) == PutItems(s, room, its).value.b
    decreases |its|
  {
    ItemsNext(s, room, its);
    hide PutItems, PutItem, BegunItem;
    if |its| > 0 {
      var r := PutItem(s, room, its[0]);
      if r.Some? {
        ItemsWhole(r.value, room, its[1..]);
      }
    }
  }

  /** The header: six numbers, which always fit. */
  method WriteHeader(buf: array<u8>, h: seq<nat>, table: LabelTable) returns (k: nat)
    requires BUF_LEN < buf.Length && |h| == 6 && table.labels == []
    modifies buf
    ensures k == 12 && PutAll(EMPTY, BUF_LEN, HeaderPieces(h)) == Some(Now(buf, k, table)) && Untouched(buf[..], old(buf[..]), k)
  {
    hide Be16, Untouched;
    ghost var was := buf[..];
    AllUntouched(was, 0);
    var i: nat, ok := 0, true;
    k := 0;
    ghost var ps := HeaderPieces(h);
    assert Now(buf, 0, table) == EMPTY;
    PutNothing(EMPTY, BUF_LEN);
    assert ps[..0] == [];
    while i < 6
      invariant i <= 6 && k == 2 * i && PutAll(EMPTY, BUF_LEN, ps[..i]) == Some(Now(buf, k, table))
      invariant Untouched(buf[..], was, k)
    {
      ghost var c := buf[..];
      PutAllAppend(EMPTY, BUF_LEN, ps[..i], [ps[i]]);
      PutOne(Now(buf, k, table), BUF_LEN, ps[i]);
      assert ps[..i + 1] == ps[..i] + [ps[i]];
      ok, k := Append16(buf, BUF_LEN, k, h[i]);
      UntouchedTrans(was, c, buf[..], 2 * i, k);
      i := i + 1;
    }
    assert ps[..6] == ps;
  }

  /** b with the truncated bit set. */
  function Truncated(b: seq<u8>): (r: seq<u8>)
    requires |b| > 2
    ensures |r| == |b| && r[2] / 2 % 2 == 1
  {
    if b[2] / 2 % 2 == 1 then b else b[2 := b[2] + 2]
  }

  /** What the buffer on the stack may hold before anything is written. */
  type Stack = b: seq<u8> | |b| == BUF_LEN + 2 witness seq(BUF_LEN + 2, _ => 0)

  /** A buffer on the stack, with what is there. */
  method OnStack(stack: Stack) returns (buf: array<u8>)
    ensures fresh(buf) && buf[..] == stack
  {
    buf := new u8[BUF_LEN + 2](i requires 0 <= i < BUF_LEN + 2 => stack[i]);
  }

  /** The part sent of a response that is cut, when w has been written over stack: only when w is shorter is
      something sent that was never written. */
  predicate Cut(w: seq<u8>, stack: Stack, sent: seq<u8>) {
    && |sent| == RESPONSE_MAX && |w| >= 12
    && (|w| >= RESPONSE_MAX ==> sent == Truncated(w[..RESPONSE_MAX]))
    && (|w| < RESPONSE_MAX ==> sent[..|w|] == Truncated(w) && sent[|w|] == stack[|w|])
  }

  lemma CutHere(buf: seq<u8>, w: seq<u8>, stack: Stack)
    requires |buf| == |stack| && |w| >= 12 && Begins(buf, stack, w)
    ensures Cut(w, stack, Truncated(buf[..RESPONSE_MAX]))
  {
    var b := buf[..RESPONSE_MAX];
    if |w| >= RESPONSE_MAX {
      assert buf[..|w|][..RESPONSE_MAX] == b;
    } else {
      assert b[..|w|] == w;
      assert w[2] == b[2];
      assert Truncated(b)[..|w|] == Truncated(w);
    }
  }

  // ---------------------------------------------------------------- reading a response

  /** The room for a name where packets are read. */
  const NAME_MAX: nat := 256

  /** The 16-bit number at p, high byte first, is x. */
  predicate Word16(b: seq<u8>, p: nat, x: nat) {
    p + 2 <= |b| && 256 * (b[p] as nat) + b[p + 1] == x % 0x1_0000
  }

  /** The 32-bit number at p, highest byte first, is x. */
  predicate Word32(b: seq<u8>, p: nat, x: nat) {
    p + 4 <= |b| && 0x100_0000 * (b[p] as nat) + 0x1_0000 * (b[p + 1] as nat) + 256 * (b[p + 2] as nat) + b[p + 3] == x % 0x1_0000_0000
  }

  /** The parser finds name at p. */
  predicate NameAt(b: seq<u8>, p: nat, name: seq<u8>) {
    Parse(b, p, 0, [], NAME_MAX) == Some(Trim(name)) && Spells(b, p, Path(name)) && NameEnd(b, p) <= |b|
  }

  /** The question at p is q, and ends at n. */
  predicate QuestionAt(b: seq<u8>, p: nat, q: Question, n: nat) {
    var e := NameEnd(b, p);
    NameAt(b, p, q.name) && Word16(b, e, q.qtype) && Word16(b, e + 2, q.qclass) && n == e + 4
  }

  /** The record at p is it, and ends at n: name, type, class, time to live, and as much data as the length says. */
  predicate ItemAt(b: seq<u8>, p: nat, it: Item, n: nat) {
    var e := NameEnd(b, p);
    && NameAt(b, p, it.name) && Word16(b, e, it.itype) && Word16(b, e + 2, it.iclass) && Word32(b, e + 4, it.ttl)
    && e + 10 <= n <= |b| && Word16(b, e + 8, n - (e + 10)) && n - (e + 10) < 0x1_0000
    && (it.isName ==> NameAt(b, e + 10, it.data) && NameEnd(b, e + 10) == n)
    && (!it.isName ==> b[e + 10..n] == it.data)
  }

  /** From p on, b holds these questions and then these records, one behind the other, and nothing else. */
  ghost predicate Holds(b: seq<u8>, p: nat, qs: seq<Question>, its: seq<Item>)
    decreases |qs| + |its|
  {
    if |qs| > 0 then exists n :: QuestionAt(b, p, qs[0], n) && Holds(b, n, qs[1..], its)
    else if |its| > 0 then exists n :: ItemAt(b, p, its[0], n) && Holds(b, n, [], its[1..])
    else p == |b|
  }

  lemma Be16At(b: seq<u8>, x: nat, w: seq<u8>)
    requires b + Be16(x) <= w
    ensures Word16(w, |b|, x)
  {
    var c := b + Be16(x);
    assert w[|b|] == c[|b|] == Be16(x)[0] && w[|b| + 1] == c[|b| + 1] == Be16(x)[1];
  }

  lemma Be32At(b: seq<u8>, x: nat, w: seq<u8>)
    requires b + Be32(x) <= w
    ensures Word32(w, |b|, x)
  {
    var hi, lo := x / 0x1_0000, x % 0x1_0000;
    hide Be16, Word16, Word32;
    assert b + Be32(x) == b + Be16(hi) + Be16(lo);
    Be16At(b, hi, w);
    Be16At(b + Be16(hi), lo, w);
    TwoWords(w, |b|, x);
  }

  lemma TwoWords(w: seq<u8>, p: nat, x: nat)
    requires Word16(w, p, x / 0x1_0000) && Word16(w, p + 2, x % 0x1_0000)
    ensures Word32(w, p, x)
  {
    WordsOf(x);
  }

  /** The two halves of the low 32 bits. */
  lemma WordsOf(x: nat)
    ensures x % 0x1_0000_0000 == 0x1_0000 * (x / 0x1_0000 % 0x1_0000) + x % 0x1_0000
  {
    var q, r := x / 0x1_0000_0000, x % 0x1_0000_0000;
    assert x / 0x1_0000 == 0x1_0000 * q + r / 0x1_0000;
  }

  /** A name that has been put is found there in every packet that goes on. */
  lemma NameRead(s: Draft, name: seq<u8>, w: seq<u8>)
    requires Sound(s) && Proper(name) && Put(s, BUF_LEN, Name(name)).Some?
    requires Put(s, BUF_LEN, Name(name)).value.b <= w
    ensures var r := Put(s, BUF_LEN, Name(name)).value;
            Sound(r) && s.b <= r.b && NameAt(w, |s.b|, name) && NameEnd(w, |s.b|) == |r.b|
  {
    PutSound(s, BUF_LEN, Name(name));
    TrimShort(name);
    assert |name| <= 255;
    hide Put, Sound, Proper, Written, Path, Spells, NameEnd, Parse, Trim;
    WrittenReadBack(Put(s, BUF_LEN, Name(name)).value.b, w, |s.b|, name, NAME_MAX);
  }

  lemma TrimShort(name: seq<u8>)
    ensures |Trim(name)| <= |name|
  {
  }

  lemma RawSound(s: Draft, x: seq<u8>)
    requires Sound(s) && |s.b| + |x| <= BUF_LEN
    ensures Put(s, BUF_LEN, Raw(x)) == Some(Draft(s.b + x, s.t)) && Sound(Draft(s.b + x, s.t))
  {
    PutSound(s, BUF_LEN, Raw(x));
  }

  lemma QuestionRead(s: Draft, q: Question, w: seq<u8>)
    requires Sound(s) && Proper(q.name) && PutAll(s, BUF_LEN, QuestionPieces(q)).Some?
    requires PutAll(s, BUF_LEN, QuestionPieces(q)).value.b <= w
    ensures var r := PutAll(s, BUF_LEN, QuestionPieces(q)).value;
            Sound(r) && s.b <= r.b && QuestionAt(w, |s.b|, q, |r.b|)
  {
    PutThree(s, BUF_LEN, Name(q.name), Raw(Be16(q.qtype)), Raw(Be16(q.qclass)));
    hide PutAll, Sound, Proper, Be16, NameAt;
    var a := Put(s, BUF_LEN, Name(q.name)).value;
    var b := a.b + Be16(q.qtype);
    assert a.b <= b <= b + Be16(q.qclass) <= w;
    Be16At(a.b, q.qtype, w);
    Be16At(b, q.qclass, w);
    NameRead(s, q.name, w);
    RawSound(a, Be16(q.qtype));
    RawSound(Draft(b, a.t), Be16(q.qclass));
  }

  /** Type, class and time to live. */
  lemma FixedRead(s: Draft, it: Item, w: seq<u8>)
    requires var r := PutAll(s, BUF_LEN, [Raw(Be16(it.itype)), Raw(Be16(it.iclass)), Raw(Be32(it.ttl))]);
             Sound(s) && r.Some? && r.value.b <= w
    ensures var r := PutAll(s, BUF_LEN, [Raw(Be16(it.itype)), Raw(Be16(it.iclass)), Raw(Be32(it.ttl))]).value;
            && Sound(r) && s.b <= r.b && |r.b| == |s.b| + 8
            && Word16(w, |s.b|, it.itype) && Word16(w, |s.b| + 2, it.iclass) && Word32(w, |s.b| + 4, it.ttl)
  {
    PutThree(s, BUF_LEN, Raw(Be16(it.itype)), Raw(Be16(it.iclass)), Raw(Be32(it.ttl)));
    hide PutAll, Sound, Be16, Be32, Word16, Word32;
    var b := s.b + Be16(it.itype);
    var c := b + Be16(it.iclass);
    assert b <= c <= c + Be32(it.ttl) <= w;
    Be16At(s.b, it.itype, w);
    Be16At(b, it.iclass, w);
    Be32At(c, it.ttl, w);
    RawSound(s, Be16(it.itype));
    RawSound(Draft(b, s.t), Be16(it.iclass));
    RawSound(Draft(c, s.t), Be32(it.ttl));
  }

  /** A name takes no more than the byte behind the limit. */
  lemma {:induction false} EncInside(j: nat, room: nat, t: Option<seq<Entry>>, name: seq<u8>)
    ensures var e := EncName(j, room, t, name); e.Encoding? ==> j + |e.out| <= room + 1
    decreases |name|
  {
    hide LookupIn, AddedTo, DotAt, Enc;
    EncStep(j, room, t, name);
    var d := DotAt(name);
    if LookupIn(t, name) < 0 && d <= 63 && d < |name| <= 255 {
      EncInside(j + d + 1, room, AddedTo(t, name, j), name[d + 1..]);
    }
  }

  /** Length and data. */
  lemma DataRead(s: Draft, it: Item, w: seq<u8>)
    requires Sound(s) && (it.isName ==> Proper(it.data))
    requires var r := PutAll(s, BUF_LEN, ItemData(it, LengthAt(s, BUF_LEN, it))); r.Some? && r.value.b <= w
    ensures var r := PutAll(s, BUF_LEN, ItemData(it, LengthAt(s, BUF_LEN, it))).value;
            var p, n := |s.b| + 2, |r.b|;
            && Sound(r) && s.b <= r.b && p <= n && Word16(w, |s.b|, n - p) && n - p < 0x1_0000
            && (it.isName ==> NameAt(w, p, it.data) && NameEnd(w, p) == n)
            && (!it.isName ==> w[p..n] == it.data)
  {
    var n := LengthAt(s, BUF_LEN, it);
    var b, p := Draft(s.b + Be16(n), s.t), if it.isName then Name(it.data) else Raw(it.data);
    PutTwo(s, BUF_LEN, Raw(Be16(n)), p);
    hide PutAll, Sound, Be16, Word16, NameAt, Proper, EncName;
    var r := PutAll(s, BUF_LEN, ItemData(it, n)).value;
    assert Put(s, BUF_LEN, Raw(Be16(n))).Some? && Put(b, BUF_LEN, p) == Some(r);
    RawSound(s, Be16(n));
    if it.isName {
      NameRead(b, it.data, w);
      EncInside(|b.b|, BUF_LEN, b.t, it.data);
    } else {
      RawSound(b, it.data);
      assert w[|b.b|..|r.b|] == r.b[|b.b|..] == it.data;
    }
    hide Put;
    assert |r.b| == |b.b| + n;
    Be16At(s.b, n, w);
  }

  lemma ItemRead(s: Draft, it: Item, w: seq<u8>)
    requires Sound(s) && ProperItem(it) && PutItem(s, BUF_LEN, it).Some? && PutItem(s, BUF_LEN, it).value.b <= w
    ensures var r := PutItem(s, BUF_LEN, it).value; Sound(r) && s.b <= r.b && ItemAt(w, |s.b|, it, |r.b|)
  {
    hide PutAll, PutItem, Put, Sound, Be16, Be32, Word16, Word32, NameAt, Proper, ItemData, LengthAt;
    ItemParts(s, BUF_LEN, it);
    var fixed := [Raw(Be16(it.itype)), Raw(Be16(it.iclass)), Raw(Be32(it.ttl))];
    var a := Put(s, BUF_LEN, Name(it.name)).value;
    var b := PutAll(a, BUF_LEN, fixed).value;
    PrefixKept(s, it.name, fixed, it);
    DataRead(b, it, w);
    FixedRead(a, it, w);
    NameRead(s, it.name, w);
  }

  /** Each part of a record is still there behind the next. */
  lemma PrefixKept(s: Draft, name: seq<u8>, fixed: seq<Piece>, it: Item)
    requires Sound(s) && Proper(name) && (it.isName ==> Proper(it.data))
    requires |fixed| == 3 && fixed[0].Raw? && fixed[1].Raw? && fixed[2].Raw?
    requires Put(s, BUF_LEN, Name(name)).Some?
    requires PutAll(Put(s, BUF_LEN, Name(name)).value, BUF_LEN, fixed).Some?
    ensures var a := Put(s, BUF_LEN, Name(name)).value;
            var b := PutAll(a, BUF_LEN, fixed).value;
            var r := PutAll(b, BUF_LEN, ItemData(it, LengthAt(b, BUF_LEN, it)));
            Sound(a) && Sound(b) && a.b <= b.b && (r.Some? ==> b.b <= r.value.b)
  {
    PutSound(s, BUF_LEN, Name(name));
    hide PutAll, Put, Sound, Proper, LengthAt, Be16, Written;
    var a := Put(s, BUF_LEN, Name(name)).value;
    PutAllKeeps(a, BUF_LEN, fixed);
    var b := PutAll(a, BUF_LEN, fixed).value;
    PutAllKeeps(b, BUF_LEN, ItemData(it, LengthAt(b, BUF_LEN, it)));
  }

  lemma {:induction false} ItemsRead(s: Draft, its: seq<Item>)
    requires Sound(s) && PutItems(s, BUF_LEN, its).Some?
    requires forall i {:trigger its[i]} :: 0 <= i < |its| ==> ProperItem(its[i])
    ensures var w := PutItems(s, BUF_LEN, its).value.b; s.b <= w && Holds(w, |s.b|, [], its)
    decreases |its|
  {
    hide PutItem, PutItems, Sound, ItemAt, ProperItem;
    ItemsNext(s, BUF_LEN, its);
    if |its| > 0 {
      var w, r := PutItems(s, BUF_LEN, its).value.b, PutItem(s, BUF_LEN, its[0]).value;
      ItemKept(s, its[0]);
      ItemsRead(r, its[1..]);
      ItemRead(s, its[0], w);
    }
  }

  lemma ItemKept(s: Draft, it: Item)
    requires Sound(s) && ProperItem(it)
    ensures PutItem(s, BUF_LEN, it).Some? ==> Sound(PutItem(s, BUF_LEN, it).value) && s.b <= PutItem(s, BUF_LEN, it).value.b
  {
    hide PutAll, Sound, Proper, ItemPieces;
    ItemProper(it, DataLength(s, BUF_LEN, it));
    PutAllKeeps(s, BUF_LEN, ItemPieces(it, DataLength(s, BUF_LEN, it)));
  }

  lemma {:induction false} QuestionsRead(s: Draft, qs: seq<Question>, w: seq<u8>, its: seq<Item>)
    requires Sound(s) && PutAll(s, BUF_LEN, QuestionsPieces(qs)).Some?
    requires forall i {:trigger qs[i]} :: 0 <= i < |qs| ==> Proper(qs[i].name)
    requires var r := PutAll(s, BUF_LEN, QuestionsPieces(qs)).value; r.b <= w && Holds(w, |r.b|, [], its)
    ensures Holds(w, |s.b|, qs, its)
    decreases |qs|
  {
    hide PutAll, Sound, QuestionAt, QuestionPieces, Proper;
    if |qs| == 0 {
      PutNothing(s, BUF_LEN);
      assert qs == [];
    } else {
      QuestionsNext(s, BUF_LEN, qs);
      var r := PutAll(s, BUF_LEN, QuestionPieces(qs[0])).value;
      QuestionKept(s, qs);
      QuestionRead(s, qs[0], w);
      QuestionsRead(r, qs[1..], w, its);
    }
  }

  lemma {:induction false} QuestionKept(s: Draft, qs: seq<Question>)
    requires Sound(s) && PutAll(s, BUF_LEN, QuestionsPieces(qs)).Some? && |qs| > 0
    requires forall i {:trigger qs[i]} :: 0 <= i < |qs| ==> Proper(qs[i].name)
    ensures var r := PutAll(s, BUF_LEN, QuestionPieces(qs[0])); r.Some? && r.value.b <= PutAll(s, BUF_LEN, QuestionsPieces(qs)).value.b
  {
    hide PutAll, Sound, Proper, Be16;
    QuestionsNext(s, BUF_LEN, qs);
    var r := PutAll(s, BUF_LEN, QuestionPieces(qs[0])).value;
    PutAllKeeps(s, BUF_LEN, QuestionPieces(qs[0]));
    QuestionsProper(qs[1..]);
    PutAllKeeps(r, BUF_LEN, QuestionsPieces(qs[1..]));
  }

  /** The numbers of the header stand at the places in the packet where they belong. */
  lemma {:induction false} HeaderRead(s: Draft, h: seq<nat>, w: seq<u8>)
    requires var r := PutAll(s, BUF_LEN, HeaderPieces(h)); |s.b| + 2 * |h| <= BUF_LEN && r.Some? && r.value.b <= w
    ensures forall i {:trigger h[i]} :: 0 <= i < |h| ==> Word16(w, |s.b| + 2 * i, h[i])
    decreases |h|
  {
    hide Be16, Word16;
    if |h| > 0 {
      assert HeaderPieces(h)[1..] == HeaderPieces(h[1..]);
      var t := Draft(s.b + Be16(h[0]), s.t);
      WordsPut(t, BUF_LEN, h[1..]);
      HeaderRead(t, h[1..], w);
      assert t.b <= w;
      Be16At(s.b, h[0], w);
    }
  }

  /** A question is reached behind the header, and its name cannot be written. */
  ghost predicate QuestionFails(h: seq<nat>, qs: seq<Question>) {
    var s := PutAll(EMPTY, BUF_LEN, HeaderPieces(h));
    s.Some? && NameFails(s.value, BUF_LEN, qs)
  }

  /** The packet starts with id, flag word and the four counts; a packet that is cut has the truncated bit,
      0x0200, besides the flags given. */
  predicate HeaderAt(b: seq<u8>, transId: nat, flags: nat, counts: seq<nat>, cut: bool)
    requires |counts| == 4
  {
    && Word16(b, 0, transId) && Word16(b, 2, if cut && flags / 0x200 % 2 == 0 then flags + 0x200 else flags)
    && Word16(b, 4, counts[0]) && Word16(b, 6, counts[1]) && Word16(b, 8, counts[2]) && Word16(b, 10, counts[3])
  }

  /** The numbers of the header. */
  predicate Numbers(b: seq<u8>, h: seq<nat>)
    requires |h| == 6
  {
    && Word16(b, 0, h[0]) && Word16(b, 2, h[1]) && Word16(b, 4, h[2]) && Word16(b, 6, h[3]) && Word16(b, 8, h[4])
    && Word16(b, 10, h[5])
  }

  lemma HeaderFormatted(h: seq<nat>, qs: seq<Question>, its: seq<Item>)
    requires |h| == 6
    ensures Numbers(Formatted(h, qs, its), h)
  {
    hide PutAll, Begun, BegunItems, HeaderPieces, Word16, Formatted, Response;
    WordsPut(EMPTY, BUF_LEN, h);
    ResponseParts(h, qs, its);
    var a := PutAll(EMPTY, BUF_LEN, HeaderPieces(h)).value;
    QuestionsBegun(a, qs);
    HeaderRead(EMPTY, h, Formatted(h, qs, its));
    assert h[0] + h[1] + h[2] + h[3] + h[4] + h[5] >= 0;
  }

  lemma {:induction false} QuestionsBegun(s: Draft, qs: seq<Question>)
    ensures var r := PutAll(s, BUF_LEN, QuestionsPieces(qs)); r.Some? ==> s.b <= r.value.b
  {
    BegunExtends(s, BUF_LEN, QuestionsPieces(qs));
  }

  /** The packet sent is the whole response when that is no longer than 512 bytes, and otherwise its first 512.
      Whole or cut it starts with this header, and whole it holds the questions and records. */
  ghost predicate Answers(b: seq<u8>, transId: nat, flags: nat, counts: seq<nat>, qs: seq<Question>, its: seq<Item>, stack: Stack)
    requires |counts| == 4
  {
    var h := [transId, flags] + counts;
    var r := Response(h, qs, its);
    var cut := r.None? || |r.value.b| > 512;
    && (if cut then |b| == 512 && Cut(Formatted(h, qs, its), stack, b) else b == r.value.b)
    && HeaderAt(b, transId, flags, counts, cut) && (!cut && ProperNames(qs, its) ==> Holds(b, 12, qs, its))
  }

  lemma AnswersWhole(transId: nat, flags: nat, counts: seq<nat>, qs: seq<Question>, its: seq<Item>, stack: Stack)
    requires var r := Response([transId, flags] + counts, qs, its); |counts| == 4 && r.Some? && |r.value.b| <= RESPONSE_MAX
    ensures Answers(Response([transId, flags] + counts, qs, its).value.b, transId, flags, counts, qs, its, stack)
  {
    hide Word16, Holds, ProperNames, Response, Formatted;
    var h := [transId, flags] + counts;
    HeaderFormatted(h, qs, its);
    ResponseRead(h, qs, its);
  }

  lemma AnswersCut(transId: nat, flags: nat, counts: seq<nat>, qs: seq<Question>, its: seq<Item>, stack: Stack, sent: seq<u8>)
    requires |counts| == 4 && flags < 0x1_0000
    requires var h := [transId, flags] + counts;
             && (Response(h, qs, its).None? || |Formatted(h, qs, its)| > RESPONSE_MAX) && Cut(Formatted(h, qs, its), stack, sent)
    ensures Answers(sent, transId, flags, counts, qs, its, stack)
  {
    hide Word16, Holds, ProperNames, Response, Formatted;
    assert |sent| == 512;
    hide Cut;
    var h := [transId, flags] + counts;
    HeaderFormatted(h, qs, its);
    NumbersCut(h, Formatted(h, qs, its), stack, sent);
    if Response(h, qs, its).Some? {
      ResponseRead(h, qs, its);
    }
  }

  lemma NumbersCut(h: seq<nat>, w: seq<u8>, stack: Stack, sent: seq<u8>)
    requires |h| == 6 && h[1] < 0x1_0000 && Numbers(w, h) && Cut(w, stack, sent)
    ensures Numbers(sent, h[1 := if h[1] / 0x200 % 2 == 0 then h[1] + 0x200 else h[1]])
  {
    var b := w[..12];
    CutPrefix(w, stack, sent, b);
    hide Cut;
    assert forall i {:trigger sent[i]} :: 0 <= i < 12 && i != 2 ==> sent[i] == sent[..12][i] == w[i];
    assert sent[2] == sent[..12][2];
    var hi, lo: nat := w[2], w[3];
    assert h[1] == 256 * hi + lo;
    assert h[1] / 0x200 == hi / 2;
  }

  /** No name has an empty label. */
  predicate ProperNames(qs: seq<Question>, its: seq<Item>) {
    && (forall i {:trigger qs[i]} :: 0 <= i < |qs| ==> Proper(qs[i].name))
    && (forall i {:trigger its[i]} :: 0 <= i < |its| ==> ProperItem(its[i]))
  }

  /** A response that fits, read from its first byte to its last, has the numbers of its header, then the
      questions and then the records. */
  lemma {:induction false} ResponseRead(h: seq<nat>, qs: seq<Question>, its: seq<Item>)
    requires |h| == 6 && Response(h, qs, its).Some?
    ensures Formatted(h, qs, its) == Response(h, qs, its).value.b
    ensures ProperNames(qs, its) ==> Holds(Response(h, qs, its).value.b, 12, qs, its)
  {
    hide PutAll, PutItems, HeaderPieces, Word16, Formatted, Response, Holds, Proper, ProperItem, BegunItems;
    WordsPut(EMPTY, BUF_LEN, h);
    ResponseParts(h, qs, its);
    var a := PutAll(EMPTY, BUF_LEN, HeaderPieces(h)).value;
    var b := PutAll(a, BUF_LEN, QuestionsPieces(qs)).value;
    ItemsWhole(b, BUF_LEN, its);
    if ProperNames(qs, its) {
      SoundStart(a.b);
      QuestionsProper(qs);
      PutAllKeeps(a, BUF_LEN, QuestionsPieces(qs));
      ItemsRead(b, its);
      QuestionsRead(a, qs, PutItems(b, BUF_LEN, its).value.b, its);
    }
  }

  // ---------------------------------------------------------------- what always fits

  /** A name of no more than 255 bytes and labels of no more than 63. */
  predicate Short(name: seq<u8>) {
    |name| <= 255 && forall i {:trigger NoDotFrom(name, i)} :: 0 <= i <= |name| ==> !NoDotFrom(name, i)
  }

  /** The most bytes a piece takes. */
  function Size(p: Piece): nat {
    match p
    case Raw(x) => |x|
    case Name(n) => |n| + 2
  }

  function Sizes(ps: seq<Piece>): nat {
    if |ps| == 0 then 0 else Size(ps[0]) + Sizes(ps[1..])
  }

  predicate ShortPiece(p: Piece) {
    p.Name? ==> Short(p.name)
  }

  lemma PutFits(s: Draft, room: nat, p: Piece)
    requires ShortPiece(p) && |s.b| + Size(p) <= room
    ensures Put(s, room, p).Some? && |Put(s, room, p).value.b| <= |s.b| + Size(p)
  {
    if p.Name? {
      hide Enc;
      EncRefused(|s.b|, room, s.t, p.name);
      EncSize(|s.b|, room, s.t, p.name);
    }
  }

  lemma {:induction false} PutAllFits(s: Draft, room: nat, ps: seq<Piece>)
    requires |s.b| + Sizes(ps) <= room && forall i {:trigger ps[i]} :: 0 <= i < |ps| ==> ShortPiece(ps[i])
    ensures PutAll(s, room, ps).Some? && |PutAll(s, room, ps).value.b| <= |s.b| + Sizes(ps)
    decreases |ps|
  {
    hide Put, ShortPiece, Size;
    if |ps| > 0 {
      PutFits(s, room, ps[0]);
      PutAllFits(Put(s, room, ps[0]).value, room, ps[1..]);
    }
  }

  /** The most bytes these questions and records take. */
  function QuestionsSize(qs: seq<Question>): nat {
    if |qs| == 0 then 0 else |qs[0].name| + 6 + QuestionsSize(qs[1..])
  }

  function ItemsSize(its: seq<Item>): nat {
    if |its| == 0 then 0 else |its[0].name| + 12 + |its[0].data| + (if its[0].isName then 2 else 0) + ItemsSize(its[1..])
  }

  predicate ShortNames(qs: seq<Question>, its: seq<Item>) {
    && (forall i {:trigger qs[i]} :: 0 <= i < |qs| ==> Short(qs[i].name))
    && (forall i {:trigger its[i]} :: 0 <= i < |its| ==> Short(its[i].name) && (its[i].isName ==> Short(its[i].data)))
  }

  lemma {:induction false} QuestionsFit(s: Draft, room: nat, qs: seq<Question>)
    requires |s.b| + QuestionsSize(qs) <= room && forall i {:trigger qs[i]} :: 0 <= i < |qs| ==> Short(qs[i].name)
    ensures var r := PutAll(s, room, QuestionsPieces(qs)); r.Some? && |r.value.b| <= |s.b| + QuestionsSize(qs)
    ensures !NameFails(s, room, qs)
    decreases |qs|
  {
    hide PutAll, Put, Short, NameFails, Be16;
    if |qs| == 0 {
      PutNothing(s, room);
      assert qs == [];
      NoneFails(s, room);
    } else {
      var q := qs[0];
      assert Short(q.name);
      PutFits(s, room, Name(q.name));
      PiecesSize(Name(q.name), [Raw(Be16(q.qtype)), Raw(Be16(q.qclass))]);
      PiecesSize(Raw(Be16(q.qtype)), [Raw(Be16(q.qclass))]);
      PiecesSize(Raw(Be16(q.qclass)), []);
      assert QuestionPieces(q) == [Name(q.name)] + ([Raw(Be16(q.qtype))] + ([Raw(Be16(q.qclass))] + []));
      PutAllFits(s, room, QuestionPieces(q));
      QuestionsNext(s, room, qs);
      NameFailsNext(s, room, qs);
      QuestionsFit(PutAll(s, room, QuestionPieces(q)).value, room, qs[1..]);
    }
  }

  lemma PiecesSize(p: Piece, ps: seq<Piece>)
    ensures Sizes([p] + ps) == Size(p) + Sizes(ps)
  {
    assert ([p] + ps)[1..] == ps;
  }

  lemma ItemFits(s: Draft, room: nat, it: Item)
    requires Short(it.name) && (it.isName ==> Short(it.data)) && |s.b| + ItemsSize([it]) <= room
    ensures PutItem(s, room, it).Some? && |PutItem(s, room, it).value.b| <= |s.b| + ItemsSize([it])
  {
    hide PutAll, Short, Be16, Be32, DataLength, Sizes;
    var n := DataLength(s, room, it);
    ItemPiecesSize(it, n);
    ItemPiecesShort(it, n);
    PutAllFits(s, room, ItemPieces(it, n));
  }

  lemma ItemPiecesShort(it: Item, n: nat)
    requires Short(it.name) && (it.isName ==> Short(it.data))
    ensures var ps := ItemPieces(it, n); forall i {:trigger ps[i]} :: 0 <= i < |ps| ==> ShortPiece(ps[i])
  {
    hide Short, Be16, Be32;
  }

  lemma ItemPiecesSize(it: Item, n: nat)
    ensures Sizes(ItemPieces(it, n)) == ItemsSize([it])
  {
    hide Be16, Be32, Sizes;
    var d := if it.isName then Name(it.data) else Raw(it.data);
    var e := [Raw(Be16(n))] + ([d] + []);
    var t := [Raw(Be16(it.itype))] + ([Raw(Be16(it.iclass))] + ([Raw(Be32(it.ttl))] + e));
    assert ItemPieces(it, n) == [Name(it.name)] + t;
    PiecesSize(Name(it.name), t);
    PiecesSize(Raw(Be16(it.itype)), [Raw(Be16(it.iclass))] + ([Raw(Be32(it.ttl))] + e));
    PiecesSize(Raw(Be16(it.iclass)), [Raw(Be32(it.ttl))] + e);
    PiecesSize(Raw(Be32(it.ttl)), e);
    PiecesSize(Raw(Be16(n)), [d] + []);
    PiecesSize(d, []);
    NoPieces();
    assert [it][1..] == [];
  }

  lemma NoPieces()
    ensures Sizes([]) == 0
  {
  }

  lemma {:induction false} ItemsFit(s: Draft, room: nat, its: seq<Item>)
    requires |s.b| + ItemsSize(its) <= room && ShortNames([], its)
    ensures var r := PutItems(s, room, its); r.Some? && |r.value.b| <= |s.b| + ItemsSize(its)
    decreases |its|
  {
    hide PutItems, PutItem, Short;
    ItemsNext(s, room, its);
    if |its| > 0 {
      assert [its[0]][1..] == [];
      ItemFits(s, room, its[0]);
      ItemsFit(PutItem(s, room, its[0]).value, room, its[1..]);
    }
  }

  /** Short names within 512 bytes are never refused and never cut. */
  lemma SmallWhole(h: seq<nat>, qs: seq<Question>, its: seq<Item>)
    requires |h| == 6 && ShortNames(qs, its) && 12 + QuestionsSize(qs) + ItemsSize(its) <= 512
    ensures !QuestionFails(h, qs) && Response(h, qs, its).Some? && |Response(h, qs, its).value.b| <= 512
  {
    hide PutAll, HeaderPieces, NameFails, Short, PutItems, Response, Formatted, BegunItems, Begun;
    WordsPut(EMPTY, BUF_LEN, h);
    ResponseParts(h, qs, its);
    var a := PutAll(EMPTY, BUF_LEN, HeaderPieces(h)).value;
    QuestionsFit(a, BUF_LEN, qs);
    ItemsFit(PutAll(a, BUF_LEN, QuestionsPieces(qs)).value, BUF_LEN, its);
  }

  /** What is sent of the buffer when writing ended at w. */
  method Sent(buf: array<u8>, w: Wrote, ghost transId: nat, ghost flags: nat, ghost counts: seq<nat>, ghost qs: seq<Question>,
              ghost its: seq<Item>, ghost stack: Stack) returns (b: seq<u8>)
    requires buf.Length == BUF_LEN + 2 && !w.BadName? && |counts| == 4 && flags < 0x1_0000
    requires var h := [transId, flags] + counts;
             var r, all := Response(h, qs, its), Formatted(h, qs, its);
             && (w.At? ==> w.k <= buf.Length && r.Some? && r.value.b == all == buf[..w.k])
             && (w.Overflow? ==> r == None)
             && |all| >= 12 && Begins(buf[..], stack, all)
    ensures Answers(b, transId, flags, counts, qs, its, stack)
  {
    hide Response, Formatted, Begins, Cut, Truncated, Answers;
    if w.Overflow? || w.k > RESPONSE_MAX {
      b := Truncated(buf[..RESPONSE_MAX]);
      CutHere(buf[..], Formatted([transId, flags] + counts, qs, its), stack);
      assert buf[..RESPONSE_MAX] == buf[..][..RESPONSE_MAX];
      AnswersCut(transId, flags, counts, qs, its, stack, b);
    } else {
      b := buf[..w.k];
      AnswersWhole(transId, flags, counts, qs, its, stack);
    }
  }

  class ServerRequest {
    var transId: nat
    var flags: bv16
    var questions: seq<Question>
    var answer: seq<Item>
    var authority: seq<Item>
    var additional: seq<Item>
    /** The counts the header states. */
    var counts: seq<nat>
    var response: Option<seq<u8>>

    constructor (transId: nat, flags: bv16, questions: seq<Question>)
      ensures this.transId == transId && this.flags == flags && this.questions == questions
      ensures answer == authority == additional == [] && counts == [|questions|, 0, 0, 0] && response == None
    {
      this.transId, this.flags, this.questions := transId, flags, questions;
      answer, authority, additional, response := [], [], [], None;
      counts := [|questions|, 0, 0, 0];
    }

    /** evdns_server_request_format_response: the response, cut at RESPONSE_MAX bytes with the truncated
        bit when it is longer or does not fit the buffer. A question whose name cannot be written
        refuses the response. */
    method FormatResponse(err: int, stack: Stack) returns (rc: int)
      requires |counts| == 4 && AllPrintable(answer) && AllPrintable(authority) && AllPrintable(additional)
      requires forall i {:trigger questions[i]} :: 0 <= i < |questions| ==> 0 !in questions[i].name
      modifies `response, `answer, `authority, `additional
      ensures err < 0 || err > 15 ==> rc == -1
      ensures rc == 0 || (rc < 0 && response == old(response))
      ensures rc == 0 <==> 0 <= err <= 15 && !QuestionFails(old(HeaderOf(err)), questions)
      ensures rc == 0 ==>
                && response.Some?
                && Answers(response.value, transId, (flags | 0x8000 | (err as bv16)) as nat, counts,
                           questions, old(answer + authority + additional), stack)
      ensures rc == 0 ==> answer == authority == additional == []
    {
      if err < 0 || err > 15 {
        return -1;
      }
      hide Answers, QuestionFails, AllPrintable;
      var h := HeaderOf(err);
      var packet;
      rc, packet := Format(h, h[1], stack);
      if rc == 0 {
        response := Some(packet);
        FreeAnswers();
      }
    }

    /** The packet, formatted in a buffer on the stack. */
    method Format(h: seq<nat>, ghost f: nat, stack: Stack) returns (rc: int, packet: seq<u8>)
      requires |counts| == 4 && f < 0x1_0000 && h == [transId, f] + counts
      requires AllPrintable(answer) && AllPrintable(authority) && AllPrintable(additional)
      requires forall i {:trigger questions[i]} :: 0 <= i < |questions| ==> 0 !in questions[i].name
      ensures rc <= 0 && (rc < 0 <==> QuestionFails(h, questions))
      ensures rc == 0 ==> Answers(packet, transId, f, counts, questions, answer + authority + additional, stack)
    {
      hide PutAll, Response, Formatted, AllPrintable, Answers, QuestionFails, Begins;
      var buf := OnStack(stack);
      var table := new LabelTable();
      var w := WriteAll(buf, h, table);
      if w.BadName? {
        return w.code, [];
      }
      rc := 0;
      packet := Sent(buf, w, transId, f, counts, questions, answer + authority + additional, stack);
    }

    /** server_request_free_answers */
    method FreeAnswers()
      modifies `answer, `authority, `additional
      ensures answer == authority == additional == []
    {
      answer, authority, additional := [], [], [];
    }

    /** Header, questions and records, up to what cannot be written. */
    method WriteAll(buf: array<u8>, h: seq<nat>, table: LabelTable) returns (w: Wrote)
      requires BUF_LEN + 1 < buf.Length && |h| == 6 && table.labels == []
      requires AllPrintable(answer) && AllPrintable(authority) && AllPrintable(additional)
      requires forall i {:trigger questions[i]} :: 0 <= i < |questions| ==> 0 !in questions[i].name
      modifies buf, table
      ensures w.BadName? ==> w.code < 0
      ensures w.BadName? <==> QuestionFails(h, questions)
      ensures var its := answer + authority + additional;
              var r, b := Response(h, questions, its), Formatted(h, questions, its);
              && (w.At? ==> w.k <= buf.Length && r == Some(Now(buf, w.k, table)) && b == buf[..w.k])
              && (w.Overflow? ==> r == None)
              && (!w.BadName? ==> |b| >= 12 && Begins(buf[..], old(buf[..]), b))
    {
      hide PutAll, PutItems, Put, Be16, Begun, BegunItems, Begins, Untouched, Response, Formatted, AllPrintable, HeaderPieces, NameFails;
      ghost var was, its := buf[..], answer + authority + additional;
      var j := WriteHeader(buf, h, table);
      ResponseParts(h, questions, its);
      ghost var b := buf[..];
      w := WriteQuestions(buf, BUF_LEN, j, questions, table);
      if !w.At? {
        if w.Overflow? {
          BeginsLater(was, b, 12, buf[..], Formatted(h, questions, its));
        }
        return;
      }
      ghost var c, s := buf[..], Now(buf, w.k, table);
      j := w.k;
      UntouchedTrans(was, b, c, 12, j);
      ItemsWhole(s, BUF_LEN, its);
      var ok, k := WriteSections(buf, j, table);
      if ok {
        UntouchedTrans(was, c, buf[..], j, k);
        BeginsAt(buf[..], was, k);
        assert buf[..][..k] == buf[..k];
        w := At(k);
      } else {
        BeginsLater(was, c, j, buf[..], Formatted(h, questions, its));
        w := Overflow;
      }
    }

    /** Id, flag word with the response bit and the error code, and the counts. */
    function HeaderOf(err: int): (h: seq<nat>)
      requires 0 <= err <= 15 && |counts| == 4
      reads this
      ensures |h| == 6
    {
      [transId, (flags | 0x8000 | (err as bv16)) as nat] + counts
    }

    /** The loop over the three sections. */
    method WriteSections(buf: array<u8>, j: nat, table: LabelTable) returns (ok: bool, k: nat)
      requires BUF_LEN + 1 < buf.Length && j <= buf.Length
      requires AllPrintable(answer) && AllPrintable(authority) && AllPrintable(additional)
      modifies buf, table
      ensures var r := PutItems(old(Now(buf, j, table)), BUF_LEN, answer + authority + additional);
              ok == r.Some? && (ok ==> j <= k <= buf.Length && r == Some(Now(buf, k, table)))
      ensures ok ==> Untouched(buf[..], old(buf[..]), k)
      ensures !ok ==> Begins(buf[..], old(buf[..]), BegunItems(old(Now(buf, j, table)), BUF_LEN, answer + authority + additional))
    {
      hide PutItems, AllPrintable, BegunItems, Begins, Untouched;
      ghost var s, was, its := Now(buf, j, table), buf[..], answer + authority + additional;
      ItemsAppend(s, BUF_LEN, answer + authority, additional);
      ItemsAppend(s, BUF_LEN, answer, authority);
      ok, k := WriteItems(buf, BUF_LEN, j, answer, table);
      if !ok {
        return;
      }
      ghost var b := buf[..];
      var at := k;
      ok, k := WriteItems(buf, BUF_LEN, at, authority, table);
      if !ok {
        BeginsLater(was, b, at, buf[..], BegunItems(s, BUF_LEN, its));
        return;
      }
      ghost var c := buf[..];
      UntouchedTrans(was, b, c, at, k);
      at := k;
      ok, k := WriteItems(buf, BUF_LEN, at, additional, table);
      if ok {
        UntouchedTrans(was, c, buf[..], at, k);
      } else {
        BeginsLater(was, c, at, buf[..], BegunItems(s, BUF_LEN, its));
      }
    }
  }

  /** Every name in it, including names that are data, has no empty label. */
  predicate ProperItem(it: Item) {
    Proper(it.name) && (it.isName ==> Proper(it.data))
  }

  predicate AllProper(ps: seq<Piece>) {
    forall i {:trigger ps[i]} :: 0 <= i < |ps| ==> ProperPiece(ps[i])
  }

  lemma AllProperAppend(ps: seq<Piece>, qs: seq<Piece>)
    requires AllProper(ps) && AllProper(qs)
    ensures AllProper(ps + qs)
  {
    forall i | 0 <= i < |ps + qs| ensures ProperPiece((ps + qs)[i]) {
      if i < |ps| {
        assert ProperPiece(ps[i]);
      } else {
        assert ProperPiece(qs[i - |ps|]);
      }
    }
  }

  lemma {:induction false} QuestionsProper(qs: seq<Question>)
    requires forall i {:trigger qs[i]} :: 0 <= i < |qs| ==> Proper(qs[i].name)
    ensures AllProper(QuestionsPieces(qs))
  {
    if |qs| > 0 {
      QuestionsProper(qs[1..]);
      AllProperAppend(QuestionPieces(qs[0]), QuestionsPieces(qs[1..]));
    }
  }

  lemma {:induction false} ItemsProper(s: Draft, room: nat, its: seq<Item>)
    requires forall i {:trigger its[i]} :: 0 <= i < |its| ==> ProperItem(its[i])
    ensures AllProper(ItemsPieces(s, room, its))
    decreases |its|
  {
    if |its| > 0 {
      var ps := ItemPieces(its[0], DataLength(s, room, its[0]));
      ItemProper(its[0], DataLength(s, room, its[0]));
      var r := PutAll(s, room, ps);
      hide PutAll, AllProper, ItemPieces;
      if r.Some? {
        ItemsProper(r.value, room, its[1..]);
        AllProperAppend(ps, ItemsPieces(r.value, room, its[1..]));
      }
    }
  }

  lemma ItemProper(it: Item, n: nat)
    requires ProperItem(it)
    ensures AllProper(ItemPieces(it, n))
  {
    hide Proper;
  }

  lemma {:induction false} PiecesProper(h: seq<nat>, qs: seq<Question>, its: seq<Item>)
    requires forall i {:trigger qs[i]} :: 0 <= i < |qs| ==> Proper(qs[i].name)
    requires forall i {:trigger its[i]} :: 0 <= i < |its| ==> ProperItem(its[i])
    ensures AllProper(ResponsePieces(h, qs, its))
  {
    QuestionsProper(qs);
    AllProperAppend(HeaderPieces(h), QuestionsPieces(qs));
    var s := PutAll(EMPTY, BUF_LEN, Front(h, qs));
    hide PutAll, AllProper, Proper;
    if s.Some? {
      ItemsProper(s.value, BUF_LEN, its);
      AllProperAppend(Front(h, qs), ItemsPieces(s.value, BUF_LEN, its));
    }
  }

  /** Every name in a response that is not truncated, a question's, a record's or a name that is the
      data of a record, is parsed where it starts, to its end. */
  lemma {:induction false} ResponseReadBack(h: seq<nat>, qs: seq<Question>, its: seq<Item>, i: nat, limit: nat)
    requires forall i {:trigger qs[i]} :: 0 <= i < |qs| ==> Proper(qs[i].name)
    requires forall i {:trigger its[i]} :: 0 <= i < |its| ==> ProperItem(its[i])
    requires Response(h, qs, its).Some?
    requires var ps := ResponsePieces(h, qs, its); i < |ps| && ps[i].Name? && |Trim(ps[i].name)| < limit
    ensures var ps := ResponsePieces(h, qs, its);
            && PutAll(EMPTY, BUF_LEN, ps[..i]).Some? && PutAll(EMPTY, BUF_LEN, ps[..i + 1]).Some?
            && var packet := Response(h, qs, its).value.b;
            var start, next := |PutAll(EMPTY, BUF_LEN, ps[..i]).value.b|, |PutAll(EMPTY, BUF_LEN, ps[..i + 1]).value.b|;
            && Parse(packet, start, 0, [], limit) == Some(Trim(ps[i].name)) && Spells(packet, start, Path(ps[i].name))
            && NameEnd(packet, start) == next <= |packet|
  {
    PiecesProper(h, qs, its);
    hide PutAll, ResponsePieces, Proper, Parse, Spells, Path, NameEnd, ProperItem;
    PieceReadBack(ResponsePieces(h, qs, its), i, limit);
  }

  lemma PieceReadBack(ps: seq<Piece>, i: nat, limit: nat)
    requires AllProper(ps) && PutAll(EMPTY, BUF_LEN, ps).Some?
    requires i < |ps| && ps[i].Name? && |Trim(ps[i].name)| < limit
    ensures PutAll(EMPTY, BUF_LEN, ps[..i]).Some? && PutAll(EMPTY, BUF_LEN, ps[..i + 1]).Some?
    ensures var packet := PutAll(EMPTY, BUF_LEN, ps).value.b;
            var start, next := |PutAll(EMPTY, BUF_LEN, ps[..i]).value.b|, |PutAll(EMPTY, BUF_LEN, ps[..i + 1]).value.b|;
            && Parse(packet, start, 0, [], limit) == Some(Trim(ps[i].name)) && Spells(packet, start, Path(ps[i].name))
            && NameEnd(packet, start) == next <= |packet|
  {
    var name := ps[i].name;
    assert ProperPiece(ps[i]);
    hide PutAll, Proper, Parse, Spells, Path, NameEnd;
    assert ps == ps[..i] + [Name(name)] + ps[i + 1..];
    assert ps[..i + 1] == ps[..i] + [Name(name)];
    NameReadBack(EMPTY, BUF_LEN, ps[..i], name, ps[i + 1..], limit);
  }

  // ---------------------------------------------------------------- what is left of a response that is cut

  lemma BegunPrefix(s: Draft, room: nat, ps: seq<Piece>, k: nat)
    requires k <= |ps| && PutAll(s, room, ps[..k]).Some?
    ensures PutAll(s, room, ps[..k]).value.b <= Begun(s, room, ps)
    ensures PutAll(s, room, ps).Some? ==> Begun(s, room, ps) == PutAll(s, room, ps).value.b
  {
    assert ps == ps[..k] + ps[k..];
    BegunAppend(s, room, ps[..k], ps[k..]);
    BegunExtends(s, room, ps);
    hide Begun, PutAll;
  }

  /** A name that has been put is in the buffer, whatever happens to its record. */
  lemma ItemBegun(s: Draft, room: nat, it: Item, k: nat)
    requires var ps := ItemPieces(it, DataLength(s, room, it)); k < |ps| && ps[k].Name? && PutAll(s, room, ps[..k + 1]).Some?
    ensures var x := PutAll(s, room, ItemPieces(it, DataLength(s, room, it))[..k + 1]).value.b;
            match PutItem(s, room, it)
            case None => x <= BegunItem(s, room, it)
            case Some(s') => x <= s'.b
  {
    hide PutAll, Begun, Be16, Be32, LengthAt, DataLength;
    var ps, head := ItemPieces(it, DataLength(s, room, it)), ItemHead(it);
    BegunPrefix(s, room, ps, k + 1);
    if PutItem(s, room, it).None? {
      assert ps[..6] == ps;
      assert k == 0;
      assert ps[..1] == head[..1];
      BegunPrefix(s, room, head, 1);
    }
  }

  lemma {:induction false} ItemsBegun(s: Draft, room: nat, its: seq<Item>, k: nat)
    requires var ps := ItemsPieces(s, room, its); k < |ps| && ps[k].Name? && PutAll(s, room, ps[..k + 1]).Some?
    ensures PutAll(s, room, ItemsPieces(s, room, its)[..k + 1]).value.b <= BegunItems(s, room, its)
    decreases |its|
  {
    if |its| > 0 {
      var p, ps := ItemPieces(its[0], DataLength(s, room, its[0])), ItemsPieces(s, room, its);
      var r := PutItem(s, room, its[0]);
      hide PutAll, BegunItem, DataLength, ItemPieces, ItemHead, ItemData;
      ItemsNext(s, room, its);
      if k < |p| {
        assert ps[..k + 1] == p[..k + 1] && ps[k] == p[k];
        ItemBegun(s, room, its[0], k);
      } else {
        var more := ps[|p|..];
        assert ps == p + more;
        assert ps[..k + 1] == p + more[..k + 1 - |p|];
        PutAllAppend(s, room, p, more[..k + 1 - |p|]);
        ItemsBegun(r.value, room, its[1..], k - |p|);
      }
    }
  }

  /** A name that has been put is in the buffer, whatever happens to the response. */
  lemma NameFormatted(h: seq<nat>, qs: seq<Question>, its: seq<Item>, i: nat)
    requires var ps := ResponsePieces(h, qs, its); i < |ps| && ps[i].Name? && PutAll(EMPTY, BUF_LEN, ps[..i + 1]).Some?
    ensures PutAll(EMPTY, BUF_LEN, ResponsePieces(h, qs, its)[..i + 1]).value.b <= Formatted(h, qs, its)
  {
    hide PutAll, Begun, BegunItems, ItemsPieces, Front;
    var ps, front := ResponsePieces(h, qs, its), Front(h, qs);
    var r := PutAll(EMPTY, BUF_LEN, front);
    if i < |front| {
      assert ps[..i + 1] == front[..i + 1];
      BegunPrefix(EMPTY, BUF_LEN, front, i + 1);
    } else {
      var more := ps[|front|..];
      assert ps[..i + 1] == front + more[..i + 1 - |front|];
      PutAllAppend(EMPTY, BUF_LEN, front, more[..i + 1 - |front|]);
      assert more == ItemsPieces(r.value, BUF_LEN, its);
      ItemsBegun(r.value, BUF_LEN, its, i - |front|);
    }
  }

  /** The same bytes behind a and behind b. */
  predicate Like(a: seq<u8>, b: seq<u8>, x: seq<u8>, y: seq<u8>) {
    |a| == |b| && a <= x && b <= y && x[|a|..] == y[|b|..]
  }

  lemma LikeTrans(a: seq<u8>, b: seq<u8>, c: seq<u8>, d: seq<u8>, x: seq<u8>, y: seq<u8>)
    requires |a| == |b| && (Like(a, b, c, d) || (c == a && d == b)) && (Like(c, d, x, y) || (x == c && y == d))
    ensures Like(a, b, x, y)
  {
    if Like(a, b, c, d) && Like(c, d, x, y) {
      assert x == c + x[|c|..] && y == d + x[|c|..];
      assert c == a + c[|a|..] && d == b + c[|a|..];
      assert x[|a|..] == c[|a|..] + x[|c|..] && y[|b|..] == c[|a|..] + x[|c|..];
    }
  }

  /** What is put does not depend on the bytes in front, but on how many there are. */
  lemma {:induction false} PutAllLike(s: Draft, v: Draft, room: nat, ps: seq<Piece>)
    requires |s.b| == |v.b| && s.t == v.t
    ensures var x, y := PutAll(s, room, ps), PutAll(v, room, ps);
            && x.Some? == y.Some?
            && (x.Some? ==> x.value.t == y.value.t && Like(s.b, v.b, x.value.b, y.value.b))
    decreases |ps|
  {
    hide Like;
    if |ps| == 0 {
      LikeTrans(s.b, v.b, s.b, v.b, s.b, v.b);
    } else {
      hide Put;
      var a, b := Put(s, room, ps[0]), Put(v, room, ps[0]);
      PutLike(s, v, room, ps[0]);
      if a.Some? {
        PutAllLike(a.value, b.value, room, ps[1..]);
        var x, y := PutAll(a.value, room, ps[1..]), PutAll(b.value, room, ps[1..]);
        if x.Some? {
          LikeTrans(s.b, v.b, a.value.b, b.value.b, x.value.b, y.value.b);
        }
      }
    }
  }

  lemma PutLike(s: Draft, v: Draft, room: nat, p: Piece)
    requires |s.b| == |v.b| && s.t == v.t
    ensures var x, y := Put(s, room, p), Put(v, room, p);
            && x.Some? == y.Some?
            && (x.Some? ==> x.value.t == y.value.t && Like(s.b, v.b, x.value.b, y.value.b))
  {
    match p
    case Raw(x) =>
    case Name(n) => hide EncName;
  }

  lemma {:induction false} WordsPut(s: Draft, room: nat, h: seq<nat>)
    requires |s.b| + 2 * |h| <= room
    ensures var r := PutAll(s, room, HeaderPieces(h));
            r.Some? && r.value.t == s.t && s.b <= r.value.b && |r.value.b| == |s.b| + 2 * |h|
    decreases |h|
  {
    if |h| > 0 {
      hide Be16;
      assert HeaderPieces(h)[1..] == HeaderPieces(h[1..]);
      WordsPut(Draft(s.b + Be16(h[0]), s.t), room, h[1..]);
    }
  }

  lemma CutPrefix(w: seq<u8>, stack: Stack, sent: seq<u8>, b: seq<u8>)
    requires Cut(w, stack, sent) && b <= w && 2 < |b| <= RESPONSE_MAX
    ensures sent[..|b|] == Truncated(b)
  {
    if |w| >= RESPONSE_MAX {
      assert w[..RESPONSE_MAX][..|b|] == b;
    } else {
      assert sent[..|b|] == sent[..|w|][..|b|] == Truncated(w)[..|b|];
    }
  }

  lemma TruncatedBehind(b: seq<u8>, out: seq<u8>)
    requires |b| > 2
    ensures Truncated(b) + out == Truncated(b + out)
  {
  }

  lemma HeaderFirst(h: seq<nat>, qs: seq<Question>, its: seq<Item>, i: nat)
    requires |h| == 6 && i < |ResponsePieces(h, qs, its)| && ResponsePieces(h, qs, its)[i].Name?
    ensures i >= 6 && ResponsePieces(h, qs, its)[..6] == HeaderPieces(h)
  {
    hide PutAll, ItemsPieces, QuestionsPieces;
    var ps := ResponsePieces(h, qs, its);
    assert ps[..6] == HeaderPieces(h);
  }

  lemma AllProperInside(ps: seq<Piece>, j: nat, i: nat)
    requires AllProper(ps) && j <= i < |ps|
    ensures AllProper(ps[j..i]) && ProperPiece(ps[i])
  {
    hide ProperPiece;
    forall k | 0 <= k < i - j ensures ProperPiece(ps[j..i][k]) {
      assert ps[j..i][k] == ps[j + k];
    }
  }

  lemma SoundStart(b: seq<u8>)
    ensures Sound(Draft(b, Some([])))
  {
  }

  /** A name put behind a and other pieces, in a packet that goes on with anything behind it, and with the
      truncated bit set in front. */
  lemma PieceInside(a: Draft, ps: seq<Piece>, name: seq<u8>, w: seq<u8>, stack: Stack, sent: seq<u8>, limit: nat)
    requires |a.b| > 2 && a.t == Some([]) && AllProper(ps) && Proper(name) && |Trim(name)| < limit && Cut(w, stack, sent)
    requires var x := PutAll(a, BUF_LEN, ps + [Name(name)]); x.Some? && x.value.b <= w && |x.value.b| <= RESPONSE_MAX
    ensures PutAll(a, BUF_LEN, ps).Some?
    ensures var start, next := |PutAll(a, BUF_LEN, ps).value.b|, |PutAll(a, BUF_LEN, ps + [Name(name)]).value.b|;
            && Parse(sent, start, 0, [], limit) == Some(Trim(name)) && Spells(sent, start, Path(name))
            && NameEnd(sent, start) == next <= |sent|
  {
    hide PutAll, Proper, Parse, Spells, Path, NameEnd, Truncated, Put, Sound, Trim;
    var v := Draft(Truncated(a.b), a.t);
    SoundStart(v.b);
    PutAllAppend(a, BUF_LEN, ps, [Name(name)]);
    PutAllLike(a, v, BUF_LEN, ps);
    PutAllLike(a, v, BUF_LEN, ps + [Name(name)]);
    var x, y := PutAll(a, BUF_LEN, ps + [Name(name)]).value, PutAll(v, BUF_LEN, ps + [Name(name)]).value;
    var out := x.b[|a.b|..];
    assert x.b == a.b + out && y.b == v.b + out;
    TruncatedBehind(a.b, out);
    CutPrefix(w, stack, sent, x.b);
    hide Cut;
    var tail := sent[|x.b|..];
    assert sent == y.b + tail;
    PutAllAppend(v, BUF_LEN, ps + [Name(name)], [Raw(tail)]);
    PutOne(y, BUF_LEN, Raw(tail));
    RawPut(y, BUF_LEN, tail);
    NameReadBack(v, BUF_LEN, ps, name, [Raw(tail)], limit);
  }

  lemma RawPut(s: Draft, room: nat, x: seq<u8>)
    requires |s.b| + |x| <= room
    ensures Put(s, room, Raw(x)) == Some(Draft(s.b + x, s.t))
  {
  }

  /** Every name that lies wholly in the part sent of a response that is cut is parsed where it starts, to
      its end, whatever the buffer held before. */
  lemma {:induction false} TruncatedReadBack(h: seq<nat>, qs: seq<Question>, its: seq<Item>, i: nat, limit: nat,
                                             stack: Stack, sent: seq<u8>)
    requires forall i {:trigger qs[i]} :: 0 <= i < |qs| ==> Proper(qs[i].name)
    requires forall i {:trigger its[i]} :: 0 <= i < |its| ==> ProperItem(its[i])
    requires |h| == 6 && Cut(Formatted(h, qs, its), stack, sent)
    requires var ps := ResponsePieces(h, qs, its);
             && i < |ps| && ps[i].Name? && |Trim(ps[i].name)| < limit
             && PutAll(EMPTY, BUF_LEN, ps[..i + 1]).Some? && |PutAll(EMPTY, BUF_LEN, ps[..i + 1]).value.b| <= RESPONSE_MAX
    ensures var ps := ResponsePieces(h, qs, its);
            && PutAll(EMPTY, BUF_LEN, ps[..i]).Some?
            && var start, next := |PutAll(EMPTY, BUF_LEN, ps[..i]).value.b|, |PutAll(EMPTY, BUF_LEN, ps[..i + 1]).value.b|;
            && Parse(sent, start, 0, [], limit) == Some(Trim(ps[i].name)) && Spells(sent, start, Path(ps[i].name))
            && NameEnd(sent, start) == next <= |sent|
  {
    hide PutAll, ResponsePieces, Formatted, Parse, Spells, Path, NameEnd, AllProper, HeaderPieces, Truncated, Cut, Trim;
    PiecesProper(h, qs, its);
    hide Proper, ProperItem;
    NameFormatted(h, qs, its, i);
    WordsPut(EMPTY, BUF_LEN, h);
    HeaderFirst(h, qs, its, i);
    NameInside(HeaderPieces(h), ResponsePieces(h, qs, its), i, Formatted(h, qs, its), stack, sent, limit);
  }

  lemma NameInside(front: seq<Piece>, ps: seq<Piece>, i: nat, w: seq<u8>, stack: Stack, sent: seq<u8>, limit: nat)
    requires |front| <= i < |ps| && ps[..|front|] == front && AllProper(ps) && ps[i].Name? && |Trim(ps[i].name)| < limit
    requires var a := PutAll(EMPTY, BUF_LEN, front); a.Some? && |a.value.b| > 2 && a.value.t == Some([])
    requires var x := PutAll(EMPTY, BUF_LEN, ps[..i + 1]); x.Some? && x.value.b <= w && |x.value.b| <= RESPONSE_MAX
    requires Cut(w, stack, sent)
    ensures PutAll(EMPTY, BUF_LEN, ps[..i]).Some?
    ensures var start, next := |PutAll(EMPTY, BUF_LEN, ps[..i]).value.b|, |PutAll(EMPTY, BUF_LEN, ps[..i + 1]).value.b|;
            && Parse(sent, start, 0, [], limit) == Some(Trim(ps[i].name)) && Spells(sent, start, Path(ps[i].name))
            && NameEnd(sent, start) == next <= |sent|
  {
    hide PutAll, Proper, Parse, Spells, Path, NameEnd, AllProper, Cut, Trim;
    var a, name, rest := PutAll(EMPTY, BUF_LEN, front).value, ps[i].name, ps[|front|..i];
    assert ps[..i] == front + rest;
    assert ps[..i + 1] == front + (rest + [Name(name)]);
    PutAllAppend(EMPTY, BUF_LEN, front, rest);
    PutAllAppend(EMPTY, BUF_LEN, front, rest + [Name(name)]);
    AllProperInside(ps, |front|, i);
    PieceInside(a, rest, name, w, stack, sent, limit);
  }

  /** A first record whose name is too long, or starts with a label that is: behind the header nothing is
      written, and yet RESPONSE_MAX bytes are sent. */
  lemma EarlyRefusal(h: seq<nat>, it: Item, more: seq<Item>)
    requires |h| == 6 && (|it.name| > 255 || DotAt(it.name) > 63)
    ensures Response(h, [], [it] + more) == None && |Formatted(h, [], [it] + more)| == 12
  {
    var fixed := [Raw(Be16(it.itype)), Raw(Be16(it.iclass)), Raw(Be32(it.ttl))];
    hide PutAll, Be16, Be32, HeaderPieces, DotAt, Enc, Begun, BegunItems, Response, Formatted;
    WordsPut(EMPTY, BUF_LEN, h);
    var a, its := PutAll(EMPTY, BUF_LEN, HeaderPieces(h)).value, [it] + more;
    ResponseParts(h, [], its);
    PutNothing(a, BUF_LEN);
    EncStep(|a.b|, BUF_LEN, a.t, it.name);
    assert Put(a, BUF_LEN, Name(it.name)).None? && Part(a, BUF_LEN, Name(it.name)) == [];
    BegunFirst(a, BUF_LEN, Name(it.name), fixed);
    PutFirst(a, BUF_LEN, Name(it.name), fixed);
    hide Put, Part;
    PutAllAppend(a, BUF_LEN, ItemHead(it), ItemData(it, DataLength(a, BUF_LEN, it)));
    ItemsNext(a, BUF_LEN, its);
  }
}
