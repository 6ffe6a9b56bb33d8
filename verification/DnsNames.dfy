/** Domain names in packets: compression by a table of suffixes, and the parser that follows pointers. */
module DnsNames {
  import opened Bytes
  import opened Options

  const DOT: u8 := 46
  const MAX_LABELS: nat := 128
  /** Offsets a pointer can hold. */
  const POINTER_MAX: nat := 0x4000

  /** A suffix of a name written before, and where. */
  datatype Entry = Entry(v: seq<u8>, pos: nat)

  class LabelTable {
    var labels: seq<Entry>

    constructor ()
      ensures labels == []
    {
      labels := [];
    }

    /** dnslabel_table_get_pos: where the first entry for suffix is, or -1. */
    method GetPos(suffix: seq<u8>) returns (pos: int)
      ensures pos == Lookup(labels, suffix)
    {
      var i := 0;
      while i < |labels|
        invariant i <= |labels| && Lookup(labels, suffix) == Lookup(labels[i..], suffix)
      {
        if suffix == labels[i].v {
          return labels[i].pos;
        }
        assert labels[i..][1..] == labels[i + 1..];
        i := i + 1;
      }
      pos := -1;
    }

    /** dnslabel_table_add: a full table stays as it is. */
    method Add(suffix: seq<u8>, pos: nat) returns (ok: bool)
      modifies this
      ensures labels == Added(old(labels), suffix, pos)
      ensures ok == (|old(labels)| != 128) && labels == old(labels) + if ok then [Entry(suffix, pos)] else []
    {
      if |labels| == MAX_LABELS {
        return false;
      }
      labels := labels + [Entry(suffix, pos)];
      ok := true;
    }
  }

  function Lookup(t: seq<Entry>, v: seq<u8>): (p: int)
    ensures p >= -1
  {
    if |t| == 0 then -1 else if t[0].v == v then t[0].pos else Lookup(t[1..], v)
  }

  function Added(t: seq<Entry>, v: seq<u8>, pos: nat): seq<Entry> {
    if |t| == MAX_LABELS then t else t + [Entry(v, pos)]
  }

  function LookupIn(t: Option<seq<Entry>>, v: seq<u8>): (p: int)
    ensures p >= -1
  {
    match t
    case None => -1
    case Some(es) => Lookup(es, v)
  }

  function AddedTo(t: Option<seq<Entry>>, v: seq<u8>, pos: nat): Option<seq<Entry>> {
    match t
    case None => None
    case Some(es) => Some(Added(es, v, pos))
  }

  /** Where the first label of name ends. */
  function DotAt(name: seq<u8>): (d: nat)
    ensures d <= |name| && DOT !in name[..d] && (d < |name| ==> name[d] == DOT)
  {
    if |name| == 0 || name[0] == DOT then 0 else
      var d := DotAt(name[1..]);
      assert name[..1 + d] == [name[0]] + name[1..][..d];
      1 + d
  }

  // ---------------------------------------------------------------- writing

  /** What is written; of a name that is refused, the labels in front of the place where it was. */
  datatype Encoding = Encoding(out: seq<u8>, table: Option<seq<Entry>>) | Refused(code: int, part: seq<u8>)

  /** The two bytes of a pointer. */
  function Pointer(ref: nat): (p: seq<u8>)
    ensures |p| == 2
  {
    [192 + ref / 256 % 64, ref % 256]
  }

  /** What writing name at offset j of a buffer of room bytes appends, with table t. */
  function Enc(j: nat, room: nat, t: Option<seq<Entry>>, name: seq<u8>): Encoding
    decreases |name|
  {
    var ref := LookupIn(t, name);
    if ref >= 0 then
      if j + 2 > room then Refused(-2, []) else Encoding(Pointer(ref), t)
    else
      var d := DotAt(name);
      if d > 63 then Refused(-1, [])
      else if j + d + 1 > room then Refused(-2, [])
      else
        var t' := AddedTo(t, name, j);
        if d == |name| then Encoding(Lab(name[..d]) + if d == 0 then [] else [0], t')
        else Behind(Lab(name[..d]), Enc(j + d + 1, room, t', name[d + 1..]))
  }

  /** A label with its length in front. */
  function Lab(v: seq<u8>): (b: seq<u8>)
    requires |v| <= 63
    ensures |b| == |v| + 1
  {
    [|v|] + v
  }

  function Behind(head: seq<u8>, e: Encoding): Encoding {
    match e
    case Refused(c, part) => Refused(c, head + part)
    case Encoding(out, t) => Encoding(head + out, t)
  }

  function EncName(j: nat, room: nat, t: Option<seq<Entry>>, name: seq<u8>): Encoding {
    if |name| > 255 then Refused(-2, []) else Enc(j, room, t, name)
  }

  ghost function TableOf(table: LabelTable?): Option<seq<Entry>>
    reads table
  {
    if table == null then None else Some(table.labels)
  }

  lemma BehindBehind(a: seq<u8>, b: seq<u8>, e: Encoding)
    ensures Behind(a, Behind(b, e)) == Behind(a + b, e)
  {
    match e
    case Refused(c, part) => assert a + (b + part) == (a + b) + part;
    case Encoding(out, t) => assert a + (b + out) == (a + b) + out;
  }

  /** The bytes of data with src over those from at on. */
  function Overlaid(data: seq<u8>, at: nat, src: seq<u8>): (r: seq<u8>)
    requires at + |src| <= |data|
    ensures |r| == |data| && r[..at] == data[..at] && r[..at + |src|] == data[..at] + src
    ensures r[at + |src|..] == data[at + |src|..]
  {
    data[..at] + src + data[at + |src|..]
  }

  lemma OverlaidNothing(data: seq<u8>, at: nat)
    requires at <= |data|
    ensures Overlaid(data, at, []) == data
  {
  }

  lemma OverlaidTwice(data: seq<u8>, at: nat, a: seq<u8>, b: seq<u8>)
    requires at + |a| + |b| <= |data|
    ensures Overlaid(Overlaid(data, at, a), at + |a|, b) == Overlaid(data, at, a + b)
  {
    assert data[at + |a|..][|b|..] == data[at + |a| + |b|..];
  }

  /** Copies src to data[at..]. */
  method Memcpy(data: array<u8>, at: nat, src: seq<u8>)
    requires at + |src| <= data.Length
    modifies data
    ensures data[..] == Overlaid(old(data[..]), at, src)
    ensures data[..at + |src|] == old(data[..at]) + src
  {
    forall k | 0 <= k < |src| {
      data[at + k] := src[k];
    }
  }

  /** Looks suffix up, when there is a table. */
  method Position(table: LabelTable?, suffix: seq<u8>) returns (pos: int)
    ensures pos == LookupIn(TableOf(table), suffix)
  {
    pos := -1;
    if table != null {
      pos := table.GetPos(suffix);
    }
  }

  /** Enters suffix, when there is a table. */
  method Remember(table: LabelTable?, suffix: seq<u8>, pos: nat)
    modifies table
    ensures TableOf(table) == AddedTo(old(TableOf(table)), suffix, pos)
  {
    if table != null {
      var _ := table.Add(suffix, pos);
    }
  }

  // ---------------------------------------------------------------- byte by byte

  /** A label of name starts at place i. */
  predicate Starts(name: seq<u8>, i: nat) {
    i == 0 || (i <= |name| && name[i - 1] == DOT)
  }

  /** The byte in front of place i of name: the length of the label that starts there, or else the byte of
      name that stands there. */
  predicate LabelByte(name: seq<u8>, i: nat, x: u8) {
    && i <= |name|
    && (Starts(name, i) ==> x == DotAt(name[i..]) <= 63)
    && (!Starts(name, i) ==> x == name[i - 1])
  }

  predicate LabelBytes(name: seq<u8>, k: nat, out: seq<u8>) {
    k <= |out| && forall i {:trigger out[i]} :: 0 <= i < k ==> LabelByte(name, i, out[i])
  }

  /** The table knows no suffix of name that starts in front of place k. */
  predicate Unseen(t: Option<seq<Entry>>, name: seq<u8>, k: nat) {
    forall i: nat {:trigger Starts(name, i)} :: i < k && Starts(name, i) ==> i > |name| || LookupIn(t, name[i..]) < 0
  }

  /** Behind the labels: a known suffix as the 16-bit number 0xc000 plus where it is, or the zero byte that ends
      the name, unless an empty label has put it there. */
  predicate NameTail(t: Option<seq<Entry>>, name: seq<u8>, k: nat, tail: seq<u8>) {
    && (k <= |name| ==>
          Starts(name, k) && LookupIn(t, name[k..]) >= 0 && Refers(tail, LookupIn(t, name[k..])))
    && (k > |name| ==> k == |name| + 1 && (Starts(name, |name|) ==> tail == []) && (!Starts(name, |name|) ==> tail == [0]))
  }

  /** The 16-bit number, high byte first, is 0xc000 plus the position p. */
  predicate Refers(two: seq<u8>, p: nat) {
    |two| == 2 && 256 * (two[0] as nat) + two[1] == 0xc000 + p % 0x4000
  }

  /** The bytes written for name through table t: the labels in front of place k, each behind its length, and
      in place of the first suffix that the table knows a pointer to it. */
  predicate Wire(t: Option<seq<Entry>>, name: seq<u8>, k: nat, out: seq<u8>) {
    LabelBytes(name, k, out) && Unseen(t, name, k) && NameTail(t, name, k, out[k..])
  }

  /** These bytes, at offset j, with the table after as well. */
  ghost predicate WireWith(t: Option<seq<Entry>>, name: seq<u8>, j: nat, k: nat, out: seq<u8>, u: Option<seq<Entry>>) {
    Wire(t, name, k, out) && t.Some? == u.Some? && (t.Some? ==> Entered(t.value, name, j, k, u.value))
  }

  /** Whatever the table, a name that is written has this form. */
  lemma {:induction false} EncWire(j: nat, room: nat, t: Option<seq<Entry>>, name: seq<u8>) returns (k: nat)
    ensures var e := Enc(j, room, t, name); e.Encoding? ==> WireWith(t, name, j, k, e.out, e.table)
    decreases |name|
  {
    hide Enc, LookupIn, DotAt, Lab, Wire, Pointer, Refers, Entered, Added;
    EncStep(j, room, t, name);
    k := 0;
    ghost var es := if t.Some? then t.value else [];
    EnteredNone(es, name, j);
    var e, d := Enc(j, room, t, name), DotAt(name);
    if e.Encoding? {
      if LookupIn(t, name) >= 0 {
        PointerRefers(LookupIn(t, name));
        WirePointer(t, name, e.out);
      } else if d == |name| {
        k := |name| + 1;
        WireLast(t, name, e.out);
        EnteredLast(es, name, j);
      } else {
        var t', rest := AddedTo(t, name, j), name[d + 1..];
        var n := EncWire(j + d + 1, room, t', rest);
        k := n + d + 1;
        DotFacts(name, d);
        WireFirst(t, name, name[..d], d + 1, j, n, Enc(j + d + 1, room, t', rest).out, e.out);
        if t.Some? {
          EnteredNext(es, name, j, d + 1, n, e.table.value);
        }
      }
    }
  }

  /** Name has 64 bytes in a row without a dot. */
  ghost predicate LongLabel(name: seq<u8>) {
    exists i: nat :: NoDotFrom(name, i)
  }

  predicate NoDotFrom(name: seq<u8>, i: nat) {
    i + 64 <= |name| && DOT !in name[i..i + 64]
  }

  /** Why a name is refused. */
  lemma {:induction false} EncRefused(j: nat, room: nat, t: Option<seq<Entry>>, name: seq<u8>)
    ensures var e := Enc(j, room, t, name);
            e.Refused? ==> (e.code == -1 && LongLabel(name)) || (e.code == -2 && j + |name| + 2 > room)
    decreases |name|
  {
    hide Enc, LookupIn, AddedTo, Lab, LongLabel;
    EncStep(j, room, t, name);
    var d := DotAt(name);
    if LookupIn(t, name) < 0 {
      if d > 63 {
        LongHere(name, d);
      } else if d < |name| && j + d + 1 <= room {
        EncRefused(j + d + 1, room, AddedTo(t, name, j), name[d + 1..]);
        LongLater(name, d + 1);
      }
    }
  }

  /** A name takes no more than its dots, the length in front and the end behind. */
  lemma {:induction false} EncSize(j: nat, room: nat, t: Option<seq<Entry>>, name: seq<u8>)
    ensures var e := Enc(j, room, t, name); e.Encoding? ==> |e.out| <= |name| + 2
    decreases |name|
  {
    hide Enc, LookupIn, AddedTo;
    EncStep(j, room, t, name);
    var d := DotAt(name);
    if LookupIn(t, name) < 0 && d <= 63 && d < |name| && j + d + 1 <= room {
      EncSize(j + d + 1, room, AddedTo(t, name, j), name[d + 1..]);
    }
  }

  lemma LongHere(name: seq<u8>, d: nat)
    requires 64 <= d <= |name| && DOT !in name[..d]
    ensures LongLabel(name)
  {
    assert name[0..64] == name[..d][..64];
    assert NoDotFrom(name, 0);
  }

  lemma LongLater(name: seq<u8>, h: nat)
    requires h <= |name|
    ensures LongLabel(name[h..]) ==> LongLabel(name)
  {
    if LongLabel(name[h..]) {
      var i: nat :| NoDotFrom(name[h..], i);
      assert name[h + i..h + i + 64] == name[h..][i..i + 64];
      assert NoDotFrom(name, h + i);
    }
  }

  /** The suffixes of name that start with a label in front of place k are entered in the table with their places,
      name itself being at j, and nothing else is, as long as there is room for them. */
  ghost predicate Entered(t: seq<Entry>, name: seq<u8>, j: nat, k: nat, u: seq<Entry>) {
    && t <= u
    && (forall n {:trigger u[n]} :: |t| <= n < |u| ==> SuffixAt(name, j, k, u[n]))
    && (|u| < 128 ==>
          forall i: nat {:trigger Starts(name, i)} :: i < k && i <= |name| && Starts(name, i) ==> Entry(name[i..], j + i) in u)
  }

  ghost predicate SuffixAt(name: seq<u8>, j: nat, k: nat, e: Entry) {
    exists i: nat {:trigger Starts(name, i)} :: i < k && i <= |name| && Starts(name, i) && e == Entry(name[i..], j + i)
  }

  lemma EnteredNone(t: seq<Entry>, name: seq<u8>, j: nat)
    ensures Entered(t, name, j, 0, t)
  {
  }

  /** A suffix of what follows the label in front. */
  lemma SuffixLater(name: seq<u8>, j: nat, h: nat, n: nat, e: Entry)
    requires 0 < h <= |name| && name[h - 1] == DOT && SuffixAt(name[h..], j + h, n, e)
    ensures SuffixAt(name, j, n + h, e)
  {
    var i: nat :| i < n && i <= |name[h..]| && Starts(name[h..], i) && e == Entry(name[h..][i..], j + h + i);
    assert name[h..][i..] == name[h + i..];
    assert Starts(name, h + i);
  }

  lemma SuffixFirst(name: seq<u8>, j: nat, k: nat)
    requires k > 0
    ensures SuffixAt(name, j, k, Entry(name, j))
  {
    assert name[0..] == name;
    assert Starts(name, 0);
  }

  lemma EnteredLast(t: seq<Entry>, name: seq<u8>, j: nat)
    requires DOT !in name
    ensures Entered(t, name, j, |name| + 1, Added(t, name, j))
  {
    SuffixFirst(name, j, |name| + 1);
    assert name[0..] == name;
    hide SuffixAt;
  }

  lemma EnteredNext(t: seq<Entry>, name: seq<u8>, j: nat, h: nat, n: nat, u: seq<Entry>)
    requires 0 < h <= |name| && name[h - 1] == DOT && DOT !in name[..h - 1]
    requires Entered(Added(t, name, j), name[h..], j + h, n, u)
    ensures Entered(t, name, j, n + h, u)
  {
    hide SuffixAt;
    var t' := Added(t, name, j);
    forall m {:trigger u[m]} | |t| <= m < |u| ensures SuffixAt(name, j, n + h, u[m]) {
      if m < |t'| {
        assert u[m] == t'[m];
        SuffixFirst(name, j, n + h);
      } else {
        SuffixLater(name, j, h, n, u[m]);
      }
    }
    if |u| < 128 {
      forall i: nat {:trigger Starts(name, i)} | i < n + h && i <= |name| && Starts(name, i)
        ensures Entry(name[i..], j + i) in u
      {
        if i == 0 {
          assert name[0..] == name && t'[|t|] == Entry(name, j) && u[|t|] == t'[|t|];
        } else if i < h {
          assert false;
        } else {
          assert Starts(name[h..], i - h);
          assert name[h..][i - h..] == name[i..];
        }
      }
    }
  }

  lemma WirePointer(t: Option<seq<Entry>>, name: seq<u8>, out: seq<u8>)
    requires LookupIn(t, name) >= 0 && Refers(out, LookupIn(t, name))
    ensures Wire(t, name, 0, out)
  {
    hide LookupIn, Refers, LabelByte;
    assert name[0..] == name && out[0..] == out;
  }

  lemma PointerRefers(p: nat)
    ensures Refers(Pointer(p), p)
  {
  }

  lemma WireLast(t: Option<seq<Entry>>, name: seq<u8>, out: seq<u8>)
    requires LookupIn(t, name) < 0 && DotAt(name) == |name| <= 63
    requires out == Lab(name[..|name|]) + if |name| == 0 then [] else [0]
    ensures Wire(t, name, |name| + 1, out)
  {
    hide LookupIn;
    assert name[0..] == name;
    assert forall i {:trigger name[i]} :: 0 <= i < |name| ==> name[i] == name[..|name|][i] != DOT;
  }

  /** A label v and the dot behind it, in front of what was written for the rest. */
  lemma WireFirst(t: Option<seq<Entry>>, name: seq<u8>, v: seq<u8>, h: nat, j: nat, n: nat, out: seq<u8>, p: seq<u8>)
    requires |v| + 1 == h <= |name| && v + [DOT] <= name && DOT !in v && |v| <= 63 && DotAt(name[0..]) == |v|
    requires LookupIn(t, name) < 0 && Wire(AddedTo(t, name, j), name[h..], n, out) && p == Lab(v) + out
    ensures Wire(t, name, n + h, p)
  {
    assert name[h - 1] == DOT;
    hide LookupIn, AddedTo, Starts, Lab, DotAt, LabelBytes, Unseen, NameTail;
    FrontBytes(name, v, h, n, out);
    FrontUnseen(t, name, v, h, j, n);
    assert p[n + h..] == out[n..];
    FrontTail(t, name, h, j, n, out[n..]);
  }

  lemma {:induction false} DotFacts(name: seq<u8>, d: nat)
    requires d == DotAt(name) < |name|
    ensures name[..d] + [DOT] <= name && DOT !in name[..d] && DotAt(name[0..]) == d
  {
    hide DotAt;
    assert name[0..] == name;
    assert name[..d] + [DOT] == name[..d + 1];
  }

  lemma FrontBytes(name: seq<u8>, v: seq<u8>, h: nat, n: nat, out: seq<u8>)
    requires |v| + 1 == h <= |name| && v + [DOT] <= name && DOT !in v && |v| <= 63 && DotAt(name[0..]) == |v|
    requires LabelBytes(name[h..], n, out)
    ensures LabelBytes(name, n + h, Lab(v) + out)
  {
    var lab := Lab(v);
    hide DotAt;
    assert name[h - 1] == DOT;
    forall i {:trigger (lab + out)[i]} | 0 <= i < n + h ensures LabelByte(name, i, (lab + out)[i]) {
      if i < h {
        FirstByte(name, v, i);
      } else {
        LaterByte(name, h, i, out[i - h]);
      }
    }
  }

  lemma FrontUnseen(t: Option<seq<Entry>>, name: seq<u8>, v: seq<u8>, h: nat, j: nat, n: nat)
    requires |v| + 1 == h <= |name| && v + [DOT] <= name && DOT !in v
    requires LookupIn(t, name) < 0 && Unseen(AddedTo(t, name, j), name[h..], n)
    ensures Unseen(t, name, n + h)
  {
    hide LookupIn, AddedTo, Starts;
    assert name[h - 1] == DOT;
    forall i: nat {:trigger Starts(name, i)} | i < n + h && Starts(name, i) && i <= |name| ensures LookupIn(t, name[i..]) < 0 {
      if i < h {
        FirstStarts(name, v, i);
      } else {
        LaterStarts(name, h, i);
        LookupSame(t, name, j, name[i..]);
      }
    }
  }

  lemma FrontTail(t: Option<seq<Entry>>, name: seq<u8>, h: nat, j: nat, n: nat, tail: seq<u8>)
    requires 0 < h <= |name| && name[h - 1] == DOT && NameTail(AddedTo(t, name, j), name[h..], n, tail)
    ensures NameTail(t, name, n + h, tail)
  {
    hide LookupIn, AddedTo, Starts, Refers;
    var k := n + h;
    if k <= |name| {
      LaterStarts(name, h, k);
      LookupSame(t, name, j, name[k..]);
    } else {
      LaterStarts(name, h, |name|);
    }
  }

  lemma FirstByte(name: seq<u8>, v: seq<u8>, i: nat)
    requires i <= |v| <= 63 && v + [DOT] <= name && DOT !in v && DotAt(name[0..]) == |v|
    ensures LabelByte(name, i, Lab(v)[i])
  {
    FirstStarts(name, v, i);
    hide DotAt;
    if i > 0 {
      assert name[i - 1] == (v + [DOT])[i - 1];
    }
  }

  lemma FirstStarts(name: seq<u8>, v: seq<u8>, i: nat)
    requires i <= |v| && v + [DOT] <= name && DOT !in v
    ensures Starts(name, i) <==> i == 0
    ensures name[0..] == name
  {
    if i > 0 {
      assert name[i - 1] == (v + [DOT])[i - 1];
    }
  }

  /** What starts behind a dot, seen from there. */
  lemma LaterStarts(name: seq<u8>, h: nat, i: nat)
    requires 0 < h <= i <= |name| && name[h - 1] == DOT
    ensures Starts(name, i) == Starts(name[h..], i - h) && name[i..] == name[h..][i - h..]
  {
  }

  lemma LaterByte(name: seq<u8>, h: nat, i: nat, x: u8)
    requires 0 < h <= i <= |name| && name[h - 1] == DOT && LabelByte(name[h..], i - h, x)
    ensures LabelByte(name, i, x)
  {
    hide DotAt;
    LaterStarts(name, h, i);
  }

  lemma LookupSame(t: Option<seq<Entry>>, name: seq<u8>, pos: nat, v: seq<u8>)
    requires |v| < |name|
    ensures LookupIn(AddedTo(t, name, pos), v) == LookupIn(t, v)
  {
    hide Lookup;
    if t.Some? {
      LookupAdded(t.value, Entry(name, pos), v);
    }
  }

  lemma {:induction false} LookupAdded(t: seq<Entry>, e: Entry, v: seq<u8>)
    requires e.v != v
    ensures Lookup(t + [e], v) == Lookup(t, v)
  {
    if |t| == 0 {
      assert (t + [e])[1..] == [];
    } else {
      LookupAdded(t[1..], e, v);
      assert (t + [e])[1..] == t[1..] + [e];
    }
  }

  /** One round of writing a name: a pointer, a refusal, the last label, or a label and the rest. */
  lemma EncStep(j: nat, room: nat, t: Option<seq<Entry>>, name: seq<u8>)
    ensures var e, ref, d, t' := Enc(j, room, t, name), LookupIn(t, name), DotAt(name), AddedTo(t, name, j);
            && (ref >= 0 ==> e == if j + 2 > room then Refused(-2, []) else Encoding(Pointer(ref), t))
            && (ref < 0 && d > 63 ==> e == Refused(-1, []))
            && (ref < 0 && d <= 63 && j + d + 1 > room ==> e == Refused(-2, []))
            && (ref < 0 && d <= 63 && j + d + 1 <= room && d == |name| ==>
                  e == Encoding(Lab(name[..d]) + if d == 0 then [] else [0], t'))
            && (ref < 0 && d <= 63 && j + d + 1 <= room && d < |name| ==>
                  e == Behind(Lab(name[..d]), Enc(j + d + 1, room, t', name[d + 1..])))
  {
    assert name[..|name|] == name;
  }

  /** How a buffer and a table stand after e was carried out at offset j: r is the result. */
  ghost predicate Carried(e: Encoding, before: seq<u8>, j: nat, after: seq<u8>, r: int, t: Option<seq<Entry>>) {
    && (e.Refused? ==> r == e.code && j + |e.part| <= |before| && after == Overlaid(before, j, e.part))
    && (e.Encoding? ==> r == j + |e.out| <= |before| && t == e.table && after == Overlaid(before, j, e.out))
  }

  /** The byte in front of what follows a label is zero exactly when the label is empty. */
  lemma LabEnds(buf: seq<u8>, was: seq<u8>, j: nat, v: seq<u8>)
    requires |v| <= 63 && j + |v| + 1 <= |was| && buf == Overlaid(was, j, Lab(v)) && 0 !in v
    ensures |buf| == |was| && (|v| == 0 <==> buf[j + |v|] == 0)
  {
    hide Overlaid;
    var p := buf[..j + |v| + 1];
    assert p == was[..j] + Lab(v);
    assert buf[j + |v|] == p[j + |v|] == Lab(v)[|v|];
    if |v| > 0 {
      assert Lab(v)[|v|] == v[|v| - 1];
    }
  }

  /** The terminator behind the last label v, which has been written at j over was. */
  method EndLabel(buf: array<u8>, ghost was: seq<u8>, j: nat, v: seq<u8>) returns (r: nat)
    requires |v| <= 63 && j + |v| + 1 < buf.Length == |was| && buf[..] == Overlaid(was, j, Lab(v)) && 0 !in v
    modifies buf
    ensures var out := Lab(v) + if |v| == 0 then [] else [0];
            r == j + |out| <= buf.Length && buf[..] == Overlaid(was, j, out)
  {
    hide Overlaid, Lab;
    LabEnds(buf[..], was, j, v);
    r := Terminate(buf, j + |v| + 1, |v| == 0);
    OverlaidTwice(was, j, Lab(v), if |v| == 0 then [] else [0]);
  }

  /** One round of dnsname_to_labels; r is the new offset or, when there is no more, the result. */
  method LabelRound(buf: array<u8>, bufLen: nat, j: nat, rest: seq<u8>, table: LabelTable?) returns (more: bool, r: int)
    requires bufLen < buf.Length && j <= buf.Length && 0 !in rest
    modifies buf, table
    ensures !more ==> Carried(Enc(j, bufLen, old(TableOf(table)), rest), old(buf[..]), j, buf[..], r, TableOf(table))
    ensures more ==>
              var d := DotAt(rest);
              && d < |rest| && d <= 63 && r == j + d + 1 <= bufLen && buf[..] == Overlaid(old(buf[..]), j, Lab(rest[..d]))
              && Enc(j, bufLen, old(TableOf(table)), rest)
              == Behind(Lab(rest[..d]), Enc(r, bufLen, TableOf(table), rest[d + 1..]))
  {
    hide Enc, LookupIn, AddedTo, Pointer, TableOf, DotAt, Overlaid, Lab;
    EncStep(j, bufLen, TableOf(table), rest);
    ghost var was := buf[..];
    OverlaidNothing(was, j);
    more := false;
    var ref := Position(table, rest);
    if ref >= 0 {
      if j + 2 > bufLen {
        return false, -2;
      }
      Memcpy(buf, j, Pointer(ref));
      return false, j + 2;
    }
    var d := Strchr(rest);
    if d > 63 {
      return false, -1;
    }
    if j + d + 1 > bufLen {
      return false, -2;
    }
    Remember(table, rest, j);
    Memcpy(buf, j, Lab(rest[..d]));
    r := j + d + 1;
    if d == |rest| {
      r := EndLabel(buf, was, j, rest[..d]);
    } else {
      more := true;
    }
  }

  lemma {:induction false} EncNegative(j: nat, room: nat, t: Option<seq<Entry>>, name: seq<u8>)
    ensures var e := Enc(j, room, t, name); e.Refused? ==> e.code < 0
    decreases |name|
  {
    hide Enc, LookupIn, AddedTo, DotAt, Lab;
    EncStep(j, room, t, name);
    var d := DotAt(name);
    if LookupIn(t, name) < 0 && d < |name| && d <= 63 && j + d + 1 <= room {
      EncNegative(j + d + 1, room, AddedTo(t, name, j), name[d + 1..]);
    }
  }

  /** dnsname_to_labels. The terminator is not counted against bufLen: the buffer has a byte to spare. */
  method DnsnameToLabels(buf: array<u8>, bufLen: nat, j0: nat, name: seq<u8>, table: LabelTable?) returns (r: int)
    requires bufLen < buf.Length && j0 <= buf.Length && 0 !in name
    modifies buf, table
    ensures Carried(EncName(j0, bufLen, old(TableOf(table)), name), old(buf[..]), j0, buf[..], r, TableOf(table))
    ensures r >= 0 ==> j0 <= r <= buf.Length && |name| <= 255
    ensures r >= 0 ==> exists k :: WireWith(old(TableOf(table)), name, j0, k, buf[j0..r], TableOf(table))
    ensures r < 0 ==> |name| > 255 || (r == -1 && LongLabel(name)) || (r == -2 && j0 + |name| + 2 > bufLen)
  {
    hide Enc, LookupIn, AddedTo, TableOf, DotAt, Overlaid, Lab;
    hide WireWith, LongLabel;
    OverlaidNothing(buf[..], j0);
    if |name| > 255 {
      return -2;
    }
    ghost var before := buf[..];
    ghost var head: seq<u8> := [];
    ghost var whole := Enc(j0, bufLen, TableOf(table), name);
    var j: nat, rest: seq<u8> := j0, name;
    var more := true;
    r := j;
    BehindNothing(whole);
    while more
      invariant more ==> j0 <= j == r <= buf.Length && 0 !in rest
      invariant more ==> j == j0 + |head| && buf[..] == Overlaid(before, j0, head)
      invariant more ==> whole == Behind(head, Enc(j, bufLen, TableOf(table), rest))
      invariant !more ==> Carried(whole, before, j0, buf[..], r, TableOf(table))
      decreases more, |rest|
    {
      ghost var e := Enc(j, bufLen, TableOf(table), rest);
      more, r := LabelRound(buf, bufLen, j, rest, table);
      if more {
        var d := r - j - 1;
        var lab: seq<u8> := Lab(rest[..d]);
        OverlaidTwice(before, j0, head, lab);
        BehindBehind(head, lab, Enc(r, bufLen, TableOf(table), rest[d + 1..]));
        head := head + lab;
        j, rest := r, rest[d + 1..];
      } else {
        CarriedBehind(head, e, before, j0, buf[..], r, TableOf(table));
      }
    }
    NameCarried(j0, bufLen, old(TableOf(table)), name, before, buf[..], r, TableOf(table));
    assert r >= 0 ==> buf[..][j0..r] == buf[j0..r];
  }

  lemma NameCarried(j: nat, room: nat, t: Option<seq<Entry>>, name: seq<u8>, before: seq<u8>, after: seq<u8>, r: int,
                    u: Option<seq<Entry>>)
    requires j <= |before| && Carried(Enc(j, room, t, name), before, j, after, r, u)
    ensures r >= 0 ==> j <= r <= |after| && exists k :: WireWith(t, name, j, k, after[j..r], u)
    ensures r < 0 ==> (r == -1 && LongLabel(name)) || (r == -2 && j + |name| + 2 > room)
  {
    hide Enc, WireWith, LongLabel, Overlaid;
    EncRefused(j, room, t, name);
    EncNegative(j, room, t, name);
    var k := EncWire(j, room, t, name);
    var e := Enc(j, room, t, name);
    if e.Encoding? {
      assert after[j..r] == after[..r][j..] == e.out;
    }
  }

  lemma CarriedBehind(head: seq<u8>, e: Encoding, before: seq<u8>, j: nat, after: seq<u8>, r: int, t: Option<seq<Entry>>)
    requires j + |head| <= |before| && Carried(e, Overlaid(before, j, head), j + |head|, after, r, t)
    ensures Carried(Behind(head, e), before, j, after, r, t)
  {
    hide Overlaid;
    match e
    case Refused(c, part) => OverlaidTwice(before, j, head, part);
    case Encoding(out, t) => OverlaidTwice(before, j, head, out);
  }

  /** The zero byte behind the labels, unless a label without bytes has put it there. */
  method Terminate(buf: array<u8>, j0: nat, ghost there: bool) returns (j: nat)
    requires 0 < j0 < buf.Length && (there <==> buf[j0 - 1] == 0)
    modifies buf
    ensures j == j0 + (if there then 0 else 1) <= buf.Length
    ensures buf[..] == Overlaid(old(buf[..]), j0, if there then [] else [0])
  {
    j := j0;
    ghost var was := buf[..];
    OverlaidNothing(was, j0);
    if j == 0 || buf[j - 1] != 0 {
      buf[j] := 0;
      j := j + 1;
    }
  }

  lemma BehindNothing(e: Encoding)
    ensures Behind([], e) == e
  {
    match e
    case Refused(c, part) => assert [] + part == part;
    case Encoding(out, t) => assert [] + out == out;
  }

  /** The place of the first dot, or the end. */
  method Strchr(name: seq<u8>) returns (d: nat)
    ensures d == DotAt(name)
  {
    d := 0;
    while d < |name| && name[d] != DOT
      invariant d <= |name| && DotAt(name) == d + DotAt(name[d..])
    {
      assert name[d..][1..] == name[d + 1..];
      d := d + 1;
    }
  }

  // ---------------------------------------------------------------- reading

  /** What parsing the name at j of packet b yields behind the text out, after jumps pointers. */
  function Parse(b: seq<u8>, j: nat, jumps: nat, out: seq<u8>, limit: nat): Option<seq<u8>>
    requires jumps <= |b|
    decreases |b| - jumps, |b| - j
  {
    if j >= |b| then None
    else if b[j] == 0 then if |out| >= limit then None else Some(out)
    else if b[j] >= 64 then
      if j + 1 >= |b| || Target(b, j) >= |b| || jumps + 1 > |b| then None
      else Parse(b, Target(b, j), jumps + 1, out, limit)
    else
      if j + 1 + b[j] > |b| then None else
      match MoreText(out, b[j + 1..j + 1 + b[j]], limit)
      case None => None
      case Some(o) => Parse(b, j + 1 + b[j], jumps, o, limit)
  }

  /** The text out with one more label, when that leaves room for a terminator within limit. */
  function MoreText(out: seq<u8>, lab: seq<u8>, limit: nat): Option<seq<u8>> {
    if (|out| > 0 && |out| + 1 >= limit) || |Dotted(out)| + |lab| >= limit then None else Some(Dotted(out) + lab)
  }

  /** The offset a pointer at j holds. */
  function Target(b: seq<u8>, j: nat): (t: nat)
    requires j + 1 < |b|
    ensures t < POINTER_MAX
  {
    var hi: nat := b[j] % 64;
    hi * 256 + b[j + 1]
  }

  function Dotted(out: seq<u8>): seq<u8> {
    if |out| == 0 then out else out + [DOT]
  }

  /** The offset behind the name at j: behind its zero byte or its first pointer; none within b if it
      is greater than |b|. */
  function NameEnd(b: seq<u8>, j: nat): (e: nat)
    ensures e > j
    decreases |b| - j
  {
    if j >= |b| then j + 1
    else if b[j] == 0 then j + 1
    else if b[j] >= 64 then j + 2
    else NameEnd(b, j + 1 + b[j])
  }

  /** Appends a label to the text in nameOut, after a dot unless it is the first. */
  method PutLabel(nameOut: array<u8>, cp: nat, lab: seq<u8>) returns (ok: bool, size: nat)
    requires cp <= nameOut.Length
    modifies nameOut
    ensures ok <==> MoreText(old(nameOut[..cp]), lab, nameOut.Length).Some?
    ensures ok ==> size <= nameOut.Length && MoreText(old(nameOut[..cp]), lab, nameOut.Length) == Some(nameOut[..size])
  {
    ok, size := false, cp;
    ghost var text := nameOut[..cp];
    if cp != 0 {
      if cp + 1 >= nameOut.Length {
        return;
      }
      Memcpy(nameOut, cp, [DOT]);
      size := cp + 1;
    }
    assert nameOut[..size] == Dotted(text);
    if size + |lab| >= nameOut.Length {
      return;
    }
    Memcpy(nameOut, size, lab);
    ok, size := true, size + |lab|;
  }

  lemma ParseLabel(b: seq<u8>, j: nat, jumps: nat, out: seq<u8>, limit: nat)
    requires jumps <= |b| && j < |b| && 0 < b[j] < 64
    ensures NameEnd(b, j) == NameEnd(b, j + 1 + b[j])
    ensures j + 1 + b[j] > |b| ==> Parse(b, j, jumps, out, limit) == None
    ensures j + 1 + b[j] <= |b| ==>
              var o := MoreText(out, b[j + 1..j + 1 + b[j]], limit);
              && (o.None? ==> Parse(b, j, jumps, out, limit) == None)
              && (o.Some? ==> Parse(b, j, jumps, out, limit) == Parse(b, j + 1 + b[j], jumps, o.value, limit))
  {
  }

  lemma ParseOther(b: seq<u8>, j: nat, jumps: nat, out: seq<u8>, limit: nat)
    requires jumps <= |b|
    ensures j >= |b| ==> Parse(b, j, jumps, out, limit) == None
    ensures j < |b| && b[j] == 0 ==>
              NameEnd(b, j) == j + 1 && Parse(b, j, jumps, out, limit) == if |out| >= limit then None else Some(out)
    ensures j < |b| && b[j] >= 64 ==> NameEnd(b, j) == j + 2
    ensures j < |b| && b[j] >= 64 ==>
              if j + 1 >= |b| || Target(b, j) >= |b| || jumps + 1 > |b| then Parse(b, j, jumps, out, limit) == None
              else Parse(b, j, jumps, out, limit) == Parse(b, Target(b, j), jumps + 1, out, limit)
  {
  }

  /** name_parse: the result code, the text, and the offset behind the name. It halts on every packet,
      looping pointers included. */
  method NameParse(packet: seq<u8>, idx: nat, nameOut: array<u8>) returns (rc: int, newIdx: nat, size: nat)
    modifies nameOut
    ensures rc == 0 || rc == -1
    ensures rc == 0 <==> Parse(packet, idx, 0, [], nameOut.Length).Some?
    ensures rc == 0 ==> size < nameOut.Length && nameOut[size] == 0
    ensures rc == 0 ==> Parse(packet, idx, 0, [], nameOut.Length) == Some(nameOut[..size])
    ensures rc == 0 ==> newIdx == NameEnd(packet, idx)
    ensures rc == -1 ==> newIdx == idx
  {
    hide Parse, NameEnd, MoreText;
    var length: nat := |packet|;
    var nameEnd: int, j: nat, ptrCount: nat, cp: nat := -1, idx, 0, 0;
    rc, newIdx, size := -1, idx, 0;
    ghost var whole := Parse(packet, idx, 0, [], nameOut.Length);
    while true
      invariant ptrCount <= length && cp <= nameOut.Length
      invariant Parse(packet, j, ptrCount, nameOut[..cp], nameOut.Length) == whole
      invariant nameEnd < 0 ==> NameEnd(packet, j) == NameEnd(packet, idx)
      invariant nameEnd >= 0 ==> nameEnd == NameEnd(packet, idx)
      decreases length - ptrCount, length - j
    {
      ParseOther(packet, j, ptrCount, nameOut[..cp], nameOut.Length);
      if j >= length {
        return;
      }
      var labelLen: nat := packet[j];
      j := j + 1;
      if labelLen == 0 {
        break;
      }
      if labelLen >= 64 {
        if j >= length {
          return;
        }
        var ptrLow := packet[j];
        j := j + 1;
        if nameEnd < 0 {
          nameEnd := j;
        }
        j := labelLen % 64 * 256 + ptrLow;
        if j >= length {
          return;
        }
        ptrCount := ptrCount + 1;
        if ptrCount > length {
          return;
        }
      } else {
        ParseLabel(packet, j - 1, ptrCount, nameOut[..cp], nameOut.Length);
        if j + labelLen > length {
          return;
        }
        var ok, size := PutLabel(nameOut, cp, packet[j..j + labelLen]);
        if !ok {
          return;
        }
        cp := size;
        j := j + labelLen;
      }
    }
    if cp >= nameOut.Length {
      return;
    }
    ghost var text := nameOut[..cp];
    nameOut[cp] := 0;
    assert nameOut[..cp] == text;
    rc, size := 0, cp;
    newIdx := if nameEnd < 0 then j else nameEnd;
  }
}
