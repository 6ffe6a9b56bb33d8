/** Names written through one suffix table are read back from the finished packet. */
module DnsRoundTrip {
  import opened Bytes
  import opened Options
  import opened DnsNames

  /** The labels of a name; a dot at its end starts no further label. */
  function Path(name: seq<u8>): seq<seq<u8>>
    decreases |name|
  {
    if |name| == 0 then [] else
      var d := DotAt(name);
      if d == |name| then [name] else [name[..d]] + Path(name[d + 1..])
  }

  /** No label is empty. */
  predicate Proper(name: seq<u8>)
    decreases |name|
  {
    var d := DotAt(name);
    |name| == 0 || (d > 0 && (d < |name| ==> Proper(name[d + 1..])))
  }

  /** The labels behind the text out, with dots between labels. */
  function Text(out: seq<u8>, ls: seq<seq<u8>>): seq<u8>
    decreases |ls|
  {
    if |ls| == 0 then out else Text(Dotted(out) + ls[0], ls[1..])
  }

  /** The name at j of b has the labels ls: every length byte on the way is below 64, every pointer starts
      with two set bits, and it is followed to a name that ends before it. */
  predicate Spells(b: seq<u8>, j: nat, ls: seq<seq<u8>>)
    decreases NameEnd(b, j), |ls|
  {
    && NameEnd(b, j) <= |b|
    && (b[j] == 0 ==> |ls| == 0)
    && (0 < b[j] < 64 ==> |ls| > 0 && |ls[0]| == b[j] && j + 1 + b[j] <= |b| && b[j + 1..j + 1 + b[j]] == ls[0])
    && (0 < b[j] < 64 ==> Spells(b, j + 1 + b[j], ls[1..]))
    && (b[j] >= 64 ==> b[j] >= 192 && NameEnd(b, Target(b, j)) <= j && Spells(b, Target(b, j), ls))
  }

  lemma {:induction false} EndMonotone(b: seq<u8>, c: seq<u8>, j: nat)
    requires NameEnd(b, j) <= |b|
    ensures NameEnd(b + c, j) == NameEnd(b, j)
    decreases |b| - j
  {
    assert (b + c)[j] == b[j];
    if 0 < b[j] < 64 {
      EndMonotone(b, c, j + 1 + b[j]);
    }
  }

  /** Appending to the packet leaves the names in it as they are. */
  lemma {:induction false} SpellsMonotone(b: seq<u8>, c: seq<u8>, j: nat, ls: seq<seq<u8>>)
    requires Spells(b, j, ls)
    ensures Spells(b + c, j, ls) && NameEnd(b + c, j) == NameEnd(b, j)
    decreases NameEnd(b, j), |ls|
  {
    EndMonotone(b, c, j);
    var e := b + c;
    assert e[j] == b[j];
    if 0 < b[j] < 64 {
      assert e[j + 1..j + 1 + b[j]] == b[j + 1..j + 1 + b[j]];
      SpellsMonotone(b, c, j + 1 + b[j], ls[1..]);
    } else if b[j] >= 64 {
      assert Target(e, j) == Target(b, j);
      SpellsMonotone(b, c, Target(b, j), ls);
      EndMonotone(b, c, Target(b, j));
    }
  }

  /** Every entry of the table for a suffix of at most n bytes points to that suffix. */
  ghost predicate Exact(b: seq<u8>, t: Option<seq<Entry>>, n: nat) {
    t.Some? ==> forall i {:trigger t.value[i]} :: 0 <= i < |t.value| && |t.value[i].v| <= n ==>
      t.value[i].pos < |b| && t.value[i].pos < POINTER_MAX && Spells(b, t.value[i].pos, Path(t.value[i].v))
  }

  /** t is old with entries behind it that point to their suffixes. */
  ghost predicate Grown(b: seq<u8>, old_: Option<seq<Entry>>, t: Option<seq<Entry>>) {
    && old_.Some? == t.Some?
    && (t.Some? ==> old_.value <= t.value)
    && (t.Some? ==> forall i {:trigger t.value[i]} :: |old_.value| <= i < |t.value| ==>
          t.value[i].pos < |b| && t.value[i].pos < POINTER_MAX && Spells(b, t.value[i].pos, Path(t.value[i].v)))
  }

  lemma ExactMonotone(b: seq<u8>, c: seq<u8>, t: Option<seq<Entry>>, n: nat)
    requires Exact(b, t, n)
    ensures Exact(b + c, t, n)
  {
    if t.Some? {
      forall i {:trigger t.value[i]} | 0 <= i < |t.value| && |t.value[i].v| <= n
        ensures t.value[i].pos < |b + c| && t.value[i].pos < POINTER_MAX && Spells(b + c, t.value[i].pos, Path(t.value[i].v))
      {
        SpellsMonotone(b, c, t.value[i].pos, Path(t.value[i].v));
      }
    }
  }

  lemma ExactGrown(b: seq<u8>, old_: Option<seq<Entry>>, t: Option<seq<Entry>>, n: nat)
    requires Exact(b, old_, n) && Grown(b, old_, t)
    ensures Exact(b, t, n)
  {
    if t.Some? {
      forall i {:trigger t.value[i]} | 0 <= i < |t.value| && |t.value[i].v| <= n
        ensures t.value[i].pos < |b| && t.value[i].pos < POINTER_MAX && Spells(b, t.value[i].pos, Path(t.value[i].v))
      {
        if i < |old_.value| {
          assert t.value[i] == old_.value[i];
        }
      }
    }
  }

  lemma {:induction false} LookupFinds(t: seq<Entry>, v: seq<u8>) returns (i: nat)
    requires Lookup(t, v) >= 0
    ensures i < |t| && t[i].v == v && t[i].pos == Lookup(t, v)
  {
    i := 0;
    if t[0].v != v {
      var k := LookupFinds(t[1..], v);
      i := k + 1;
    }
  }

  /** From j to its end, b is name. */
  ghost predicate Written(b: seq<u8>, j: nat, name: seq<u8>) {
    Spells(b, j, Path(name)) && NameEnd(b, j) == |b|
  }

  /** A pointer to an entry spells what the entry is for. */
  lemma PointerSpells(b: seq<u8>, ref: nat, ls: seq<seq<u8>>)
    requires ref < POINTER_MAX && Spells(b, ref, ls)
    ensures Spells(b + Pointer(ref), |b|, ls) && NameEnd(b + Pointer(ref), |b|) == |b| + 2
  {
    var e := b + Pointer(ref);
    assert e[|b|] == 192 + ref / 256 % 64 && e[|b| + 1] == ref % 256;
    assert Target(e, |b|) == ref;
    SpellsMonotone(b, Pointer(ref), ref, ls);
  }

  lemma LabAt(b: seq<u8>, v: seq<u8>, out: seq<u8>, p: seq<u8>)
    requires |v| <= 63 && p == b + (Lab(v) + out)
    ensures p == b + Lab(v) + out && |p| == |b| + 1 + |v| + |out|
    ensures p[|b|] == |v| && p[|b| + 1..|b| + 1 + |v|] == v
    ensures |out| > 0 ==> p[|b| + 1 + |v|] == out[0]
  {
  }

  /** The last label of a name, with the terminator. */
  lemma LastLabel(e: seq<u8>, j: nat, name: seq<u8>)
    requires DotAt(name) == |name| <= 63 && j < |e| && e[j] == |name|
    requires |name| == 0 ==> |e| == j + 1
    requires |name| > 0 ==> |e| == j + |name| + 2 && e[j + 1..j + 1 + |name|] == name && e[j + 1 + |name|] == 0
    ensures Written(e, j, name)
  {
    if |name| > 0 {
      assert Spells(e, j + 1 + |name|, []);
      SpellsLabel(e, j, name, []);
      assert Path(name) == [name] + [];
    }
  }

  /** A label in front of other labels. */
  lemma SpellsLabel(e: seq<u8>, j: nat, lab: seq<u8>, ls: seq<seq<u8>>)
    requires j + 1 + |lab| <= |e| && 0 < |lab| < 64 && e[j] == |lab| && e[j + 1..j + 1 + |lab|] == lab
    requires Spells(e, j + 1 + |lab|, ls)
    ensures Spells(e, j, [lab] + ls) && NameEnd(e, j) == NameEnd(e, j + 1 + |lab|)
  {
    assert ([lab] + ls)[1..] == ls;
  }

  lemma PathNext(name: seq<u8>)
    requires DotAt(name) < |name|
    ensures Path(name) == [name[..DotAt(name)]] + Path(name[DotAt(name) + 1..])
  {
  }

  lemma ProperNext(name: seq<u8>)
    requires Proper(name) && DotAt(name) < |name|
    ensures DotAt(name) > 0 && Proper(name[DotAt(name) + 1..])
  {
  }

  /** An entry for the whole name does not matter to the names behind its first label. */
  lemma ExactAdded(b: seq<u8>, c: seq<u8>, t: Option<seq<Entry>>, name: seq<u8>, n: nat)
    requires Exact(b, t, |name|) && n < |name|
    ensures Exact(b + c, AddedTo(t, name, |b|), n)
  {
    ExactMonotone(b, c, t, |name|);
    if t.Some? {
      var t' := AddedTo(t, name, |b|);
      assert forall i {:trigger t'.value[i]} :: 0 <= i < |t'.value| && |t'.value[i].v| <= n ==> t'.value[i] == t.value[i];
    }
  }

  lemma GrownAdded(j: nat, p: seq<u8>, t: Option<seq<Entry>>, name: seq<u8>, u: Option<seq<Entry>>)
    requires j < POINTER_MAX && j < |p| && Spells(p, j, Path(name)) && Grown(p, AddedTo(t, name, j), u)
    ensures Grown(p, t, u)
  {
  }

  lemma GrownSame(b: seq<u8>, t: Option<seq<Entry>>)
    ensures Grown(b, t, t)
  {
  }

  /** Writing name at offset j left the packet p and the table u. */
  ghost predicate Good(j: nat, t: Option<seq<Entry>>, name: seq<u8>, p: seq<u8>, u: Option<seq<Entry>>) {
    Written(p, j, name) && Grown(p, t, u)
  }

  /** Writing a name at the end of b through a table that is exact for it and its suffixes spells it,
      and the entries that are added point to what they are for. */
  lemma {:induction false} EncSpells(b: seq<u8>, room: nat, t: Option<seq<Entry>>, name: seq<u8>)
    requires Exact(b, t, |name|) && Proper(name) && room <= POINTER_MAX
    ensures var e := Enc(|b|, room, t, name);
            e.Encoding? ==> Good(|b|, t, name, b + e.out, e.table)
    decreases |name|
  {
    EncStep(|b|, room, t, name);
    var e, ref, d, t' := Enc(|b|, room, t, name), LookupIn(t, name), DotAt(name), AddedTo(t, name, |b|);
    hide Lab, Enc, AddedTo, DotAt, Proper, Spells, Path, Grown, Pointer;
    if e.Encoding? {
      if ref >= 0 {
        var i := LookupFinds(t.value, name);
        hide Exact, LookupIn;
        PointerSpells(b, ref, Path(name));
        GrownSame(b + e.out, t);
      } else if d == |name| {
        hide Exact, LookupIn, Lookup;
        assert name[..d] == name;
        EncSpellsLast(b, name, t, e.out, b + e.out);
      } else {
        hide Exact, LookupIn, Lookup;
        EncSpellsNext(b, room, t, name);
      }
    }
  }

  /** The case of EncSpells in which name is a single label. */
  lemma EncSpellsLast(b: seq<u8>, name: seq<u8>, t: Option<seq<Entry>>, out: seq<u8>, p: seq<u8>)
    requires DotAt(name) == |name| <= 63 && |b| < POINTER_MAX && p == b + out
    requires |name| == 0 ==> out == Lab(name) + []
    requires |name| > 0 ==> out == Lab(name) + [0]
    ensures Good(|b|, t, name, p, AddedTo(t, name, |b|))
  {
    hide Lab, Grown, AddedTo, DotAt, Path, Spells;
    LabAt(b, name, if |name| == 0 then [] else [0], p);
    LastLabel(p, |b|, name);
    GrownSame(p, AddedTo(t, name, |b|));
    GrownAdded(|b|, p, t, name, AddedTo(t, name, |b|));
  }

  /** The case of EncSpells in which a first label is followed by others. */
  lemma {:induction false} EncSpellsNext(b: seq<u8>, room: nat, t: Option<seq<Entry>>, name: seq<u8>)
    requires Exact(b, t, |name|) && Proper(name) && room <= POINTER_MAX
    requires LookupIn(t, name) < 0 && DotAt(name) < |name| && DotAt(name) <= 63 && |b| + DotAt(name) + 1 <= room
    requires Enc(|b|, room, t, name).Encoding?
    ensures var e := Enc(|b|, room, t, name); Good(|b|, t, name, b + e.out, e.table)
    decreases |name|, 0
  {
    hide Lab, Enc, AddedTo, DotAt, Proper, Spells, Path, Grown, Exact, LookupIn, Good, NameEnd;
    EncStep(|b|, room, t, name);
    ProperNext(name);
    PathNext(name);
    var v, t', rest := name[..DotAt(name)], AddedTo(t, name, |b|), name[DotAt(name) + 1..];
    ExactAdded(b, Lab(v), t, name, |rest|);
    var h := b + Lab(v);
    EncSpells(h, room, t', rest);
    var e := Enc(|h|, room, t', rest);
    var p := b + Enc(|b|, room, t, name).out;
    LabAt(b, v, e.out, p);
    FrontGood(|b|, v, p, t, name, rest, e.table);
  }

  /** A label in front of a name that was written. */
  lemma FrontGood(j: nat, v: seq<u8>, p: seq<u8>, t: Option<seq<Entry>>, name: seq<u8>, rest: seq<u8>,
                  u: Option<seq<Entry>>)
    requires 0 < |v| <= 63 && Path(name) == [v] + Path(rest) && j < POINTER_MAX
    requires j + 1 + |v| <= |p| && p[j] == |v| && p[j + 1..j + 1 + |v|] == v
    requires Good(j + 1 + |v|, AddedTo(t, name, j), rest, p, u)
    ensures Good(j, t, name, p, u)
  {
    hide AddedTo, Spells, Path, Grown, NameEnd;
    SpellsLabel(p, j, v, Path(rest));
    GrownAdded(j, p, t, name, u);
  }

  // ---------------------------------------------------------------- reading back

  lemma {:induction false} TextGrows(out: seq<u8>, ls: seq<seq<u8>>)
    ensures |Text(out, ls)| >= |out|
    decreases |ls|
  {
    if |ls| > 0 {
      TextGrows(Dotted(out) + ls[0], ls[1..]);
    }
  }

  /** A spelled name is parsed to its labels: the bound on jumps never gets in the way. */
  lemma {:induction false} ParseSpells(b: seq<u8>, j: nat, ls: seq<seq<u8>>, jumps: nat, out: seq<u8>, limit: nat)
    requires Spells(b, j, ls) && jumps + NameEnd(b, j) <= |b| && |Text(out, ls)| < limit
    ensures Parse(b, j, jumps, out, limit) == Some(Text(out, ls))
    decreases NameEnd(b, j), |ls|
  {
    ParseOther(b, j, jumps, out, limit);
    if 0 < b[j] < 64 {
      ParseLabel(b, j, jumps, out, limit);
      TextGrows(Dotted(out) + ls[0], ls[1..]);
      ParseSpells(b, j + 1 + b[j], ls[1..], jumps, Dotted(out) + ls[0], limit);
    } else if b[j] >= 64 {
      ParseSpells(b, Target(b, j), ls, jumps + 1, out, limit);
    }
  }

  /** Whatever packet b is, sound or not: the name at j has the labels ls when n pointers are followed. Every
      length byte from 64 up is taken for a pointer. */
  predicate Follows(b: seq<u8>, j: nat, ls: seq<seq<u8>>, n: nat)
    decreases n, |ls|
  {
    && j < |b|
    && (b[j] == 0 ==> |ls| == 0 && n == 0)
    && (0 < b[j] < 64 ==> |ls| > 0 && j + 1 + b[j] <= |b| && ls[0] == b[j + 1..j + 1 + b[j]])
    && (0 < b[j] < 64 ==> Follows(b, j + 1 + b[j], ls[1..], n))
    && (b[j] >= 64 ==> n > 0 && j + 1 < |b| && Follows(b, (b[j] as nat) % 64 * 256 + b[j + 1], ls, n - 1))
  }

  /** Labels that are there, with no more pointers than the packet has bytes and with room for the text, are
      parsed. */
  lemma {:induction false} ParseFollows(b: seq<u8>, j: nat, ls: seq<seq<u8>>, n: nat, jumps: nat, out: seq<u8>, limit: nat)
    requires Follows(b, j, ls, n) && jumps + n <= |b| && |Text(out, ls)| < limit
    ensures Parse(b, j, jumps, out, limit) == Some(Text(out, ls))
    decreases n, |ls|
  {
    hide Parse, NameEnd;
    ParseOther(b, j, jumps, out, limit);
    if 0 < b[j] < 64 {
      ParseLabel(b, j, jumps, out, limit);
      TextGrows(Dotted(out) + ls[0], ls[1..]);
      ParseFollows(b, j + 1 + b[j], ls[1..], n, jumps, Dotted(out) + ls[0], limit);
    } else if b[j] >= 64 {
      ParseFollows(b, Target(b, j), ls, n - 1, jumps + 1, out, limit);
    }
  }

  /** What is parsed is there. */
  lemma {:induction false} ParseSound(b: seq<u8>, j: nat, jumps: nat, out: seq<u8>, limit: nat)
    returns (ls: seq<seq<u8>>, n: nat)
    requires jumps <= |b| && Parse(b, j, jumps, out, limit).Some?
    ensures Follows(b, j, ls, n) && jumps + n <= |b| && Parse(b, j, jumps, out, limit) == Some(Text(out, ls))
    ensures |Text(out, ls)| < limit
    decreases |b| - jumps, |b| - j
  {
    ParseOther(b, j, jumps, out, limit);
    ls, n := [], 0;
    if 0 < b[j] < 64 {
      ParseLabel(b, j, jumps, out, limit);
      var v := b[j + 1..j + 1 + b[j]];
      var more, m := ParseSound(b, j + 1 + b[j], jumps, Dotted(out) + v, limit);
      ls, n := [v] + more, m;
      TextCons(out, v, more);
      assert ls[1..] == more;
    } else if b[j] >= 64 {
      var more, m := ParseSound(b, Target(b, j), jumps + 1, out, limit);
      ls, n := more, m + 1;
    }
  }

  /** A name without the dot at its end. */
  function Trim(name: seq<u8>): seq<u8> {
    if |name| > 0 && name[|name| - 1] == DOT then name[..|name| - 1] else name
  }

  /** The labels of a name, joined again. */
  lemma {:induction false} TextPath(out: seq<u8>, name: seq<u8>)
    requires Proper(name)
    ensures Text(out, Path(name)) == if |name| == 0 then out else Dotted(out) + Trim(name)
    decreases |name|
  {
    if |name| > 0 {
      var d := DotAt(name);
      var o := Dotted(out) + name[..d];
      if d == |name| {
        assert name[..d] == name;
        assert name[|name| - 1] in name[..d];
        TextOne(out, name);
      } else {
        var rest := name[d + 1..];
        PathNext(name);
        TextCons(out, name[..d], Path(rest));
        TextPath(o, rest);
        TrimNext(name, d);
        hide Path, Proper, DotAt;
        if |rest| > 0 {
          JoinText(Dotted(out), name[..d], Trim(rest));
        }
      }
    }
  }

  lemma TextOne(out: seq<u8>, v: seq<u8>)
    ensures Text(out, [v]) == Dotted(out) + v
  {
  }

  lemma TextCons(out: seq<u8>, v: seq<u8>, ls: seq<seq<u8>>)
    ensures Text(out, [v] + ls) == Text(Dotted(out) + v, ls)
  {
    assert ([v] + ls)[1..] == ls;
  }

  lemma TrimNext(name: seq<u8>, d: nat)
    requires 0 < d < |name| && name[d] == DOT
    ensures Trim(name) == if d + 1 == |name| then name[..d] else name[..d] + [DOT] + Trim(name[d + 1..])
  {
  }

  lemma JoinText(a: seq<u8>, v: seq<u8>, c: seq<u8>)
    requires |v| > 0
    ensures Dotted(a + v) + c == a + (v + [DOT] + c)
  {
  }

  /** A packet in the making. */
  datatype Draft = Draft(b: seq<u8>, t: Option<seq<Entry>>)

  /** What is appended to a packet: fixed bytes, or a name. */
  datatype Piece = Raw(bytes: seq<u8>) | Name(name: seq<u8>)

  function Put(s: Draft, room: nat, p: Piece): Option<Draft> {
    match p
    case Raw(x) => if |s.b| + |x| > room then None else Some(Draft(s.b + x, s.t))
    case Name(n) =>
      match EncName(|s.b|, room, s.t, n)
      case Refused(_, _) => None
      case Encoding(out, t) => Some(Draft(s.b + out, t))
  }

  function PutAll(s: Draft, room: nat, ps: seq<Piece>): Option<Draft>
    decreases |ps|
  {
    if |ps| == 0 then Some(s) else
      match Put(s, room, ps[0])
      case None => None
      case Some(s') => PutAll(s', room, ps[1..])
  }

  ghost predicate Sound(s: Draft) {
    Exact(s.b, s.t, 255)
  }

  predicate ProperPiece(p: Piece) {
    p.Name? ==> Proper(p.name)
  }

  lemma PutSound(s: Draft, room: nat, p: Piece)
    requires Sound(s) && ProperPiece(p) && room <= POINTER_MAX
    ensures Put(s, room, p).Some? ==> Sound(Put(s, room, p).value)
    ensures Put(s, room, p).Some? && p.Name? ==> Written(Put(s, room, p).value.b, |s.b|, p.name)
    ensures Put(s, room, p).Some? ==> s.b <= Put(s, room, p).value.b
  {
    match p
    case Raw(x) => ExactMonotone(s.b, x, s.t, 255);
    case Name(n) =>
      if |n| <= 255 {
        ExactLess(s.b, s.t, |n|);
        EncSpells(s.b, room, s.t, n);
        var e := Enc(|s.b|, room, s.t, n);
        if e.Encoding? {
          ExactMonotone(s.b, e.out, s.t, 255);
          ExactGrown(s.b + e.out, s.t, e.table, 255);
        }
      }
  }

  lemma ExactLess(b: seq<u8>, t: Option<seq<Entry>>, n: nat)
    requires Exact(b, t, 255) && n <= 255
    ensures Exact(b, t, n)
  {
  }

  lemma {:induction false} PutAllKeeps(s: Draft, room: nat, ps: seq<Piece>)
    requires Sound(s) && room <= POINTER_MAX && forall i {:trigger ps[i]} :: 0 <= i < |ps| ==> ProperPiece(ps[i])
    ensures var r := PutAll(s, room, ps); r.Some? ==> Sound(r.value) && s.b <= r.value.b
    decreases |ps|
  {
    if |ps| > 0 {
      PutSound(s, room, ps[0]);
      var r := Put(s, room, ps[0]);
      if r.Some? {
        PutAllKeeps(r.value, room, ps[1..]);
      }
    }
  }

  lemma {:induction false} PutAllAppend(s: Draft, room: nat, ps: seq<Piece>, qs: seq<Piece>)
    ensures PutAll(s, room, ps + qs)
         == if PutAll(s, room, ps).None? then None else PutAll(PutAll(s, room, ps).value, room, qs)
    decreases |ps|
  {
    if |ps| > 0 {
      assert (ps + qs)[1..] == ps[1..] + qs;
      var r := Put(s, room, ps[0]);
      if r.Some? {
        PutAllAppend(r.value, room, ps[1..], qs);
      }
    } else {
      assert ps + qs == qs;
    }
  }

  /** In a finished packet, made of any pieces in any order through one table, each name is read back
      where it was written: the parser finds the name and the offset at which the next piece starts. */
  lemma {:induction false} NameReadBack(s: Draft, room: nat, ps: seq<Piece>, name: seq<u8>, qs: seq<Piece>, limit: nat)
    requires Sound(s) && room <= POINTER_MAX && Proper(name) && |Trim(name)| < limit
    requires forall i {:trigger ps[i]} :: 0 <= i < |ps| ==> ProperPiece(ps[i])
    requires forall i {:trigger qs[i]} :: 0 <= i < |qs| ==> ProperPiece(qs[i])
    requires PutAll(s, room, ps + [Name(name)] + qs).Some?
    ensures PutAll(s, room, ps).Some? && PutAll(s, room, ps + [Name(name)]).Some?
    ensures var packet := PutAll(s, room, ps + [Name(name)] + qs).value.b;
            var start, next := |PutAll(s, room, ps).value.b|, |PutAll(s, room, ps + [Name(name)]).value.b|;
            && Parse(packet, start, 0, [], limit) == Some(Trim(name)) && Spells(packet, start, Path(name))
            && NameEnd(packet, start) == next <= |packet|
  {
    PutAllAppend(s, room, ps + [Name(name)], qs);
    PutAllAppend(s, room, ps, [Name(name)]);
    PutAllKeeps(s, room, ps);
    hide Sound, Put, Proper, Path, Spells, NameEnd, Parse;
    var s1 := PutAll(s, room, ps).value;
    PutOne(s1, room, Name(name));
    PutSound(s1, room, Name(name));
    var s2 := Put(s1, room, Name(name)).value;
    PutAllKeeps(s2, room, qs);
    WrittenReadBack(s2.b, PutAll(s2, room, qs).value.b, |s1.b|, name, limit);
  }

  lemma PutOne(s: Draft, room: nat, p: Piece)
    ensures PutAll(s, room, [p]) == Put(s, room, p)
  {
    match Put(s, room, p)
    case None =>
    case Some(s') => assert PutAll(s', room, [p][1..]) == Some(s');
  }

  lemma WrittenReadBack(b: seq<u8>, packet: seq<u8>, j: nat, name: seq<u8>, limit: nat)
    requires Written(b, j, name) && Proper(name) && b <= packet && |Trim(name)| < limit
    ensures Parse(packet, j, 0, [], limit) == Some(Trim(name)) && NameEnd(packet, j) == |b| && Spells(packet, j, Path(name))
  {
    var c := packet[|b|..];
    assert packet == b + c;
    SpellsMonotone(b, c, j, Path(name));
    TextPath([], name);
    assert Dotted([]) + Trim(name) == Trim(name);
    ParseSpells(packet, j, Path(name), 0, [], limit);
  }

  // ---------------------------------------------------------------- where reading ends

  /** None of the labels in front of the first suffix that the table knows is empty. */
  predicate FrontProper(t: Option<seq<Entry>>, name: seq<u8>)
    decreases |name|
  {
    var d := DotAt(name);
    || LookupIn(t, name) >= 0 || |name| == 0
    || (d > 0 && (d < |name| ==> FrontProper(t, name[d + 1..])))
  }

  /** An entry for a longer name does not matter. */
  lemma {:induction false} FrontSame(t: Option<seq<Entry>>, name: seq<u8>, pos: nat, v: seq<u8>)
    requires |v| < |name|
    ensures FrontProper(AddedTo(t, name, pos), v) == FrontProper(t, v)
    decreases |v|
  {
    hide DotAt, Lookup;
    var d := DotAt(v);
    if t.Some? {
      LookupAdded(t.value, Entry(name, pos), v);
    }
    if d < |v| {
      FrontSame(t, name, pos, v[d + 1..]);
    }
  }

  lemma FrontStep(t: Option<seq<Entry>>, name: seq<u8>)
    ensures var d := DotAt(name);
            FrontProper(t, name) ==
            (LookupIn(t, name) >= 0 || |name| == 0 || (d > 0 && (d < |name| ==> FrontProper(t, name[d + 1..]))))
  {
    hide DotAt, LookupIn;
  }

  /**
   * Written through any table, a name is read to its end exactly when none of its labels is empty up to
   * the first suffix that the table knows: behind that a pointer stands for all the rest.
   */
  lemma {:induction false} EndThroughTable(b: seq<u8>, room: nat, t: Option<seq<Entry>>, name: seq<u8>, p: seq<u8>)
    requires Enc(|b|, room, t, name).Encoding?
    requires p == b + Enc(|b|, room, t, name).out
    ensures NameEnd(p, |b|) == |p| <==> FrontProper(t, name)
    ensures NameEnd(p, |b|) <= |p|
    decreases |name|
  {
    hide Enc, Lab, DotAt, NameEnd, LookupIn, AddedTo, Pointer, FrontProper;
    EncStep(|b|, room, t, name);
    FrontStep(t, name);
    var d := DotAt(name);
    if LookupIn(t, name) >= 0 {
      EndPointer(p, b, LookupIn(t, name));
    } else if d == |name| {
      assert name[..d] == name;
      LabAt(b, name, if d == 0 then [] else [0], p);
      EndLabel(p, |b|);
      if d > 0 {
        EndLabel(p, |b| + d + 1);
      }
    } else {
      var v, rest, t' := name[..d], name[d + 1..], AddedTo(t, name, |b|);
      var h := b + Lab(v);
      var out := Enc(|h|, room, t', rest).out;
      LabAt(b, v, out, p);
      EncNonempty(|h|, room, t', rest);
      EndLabel(p, |b|);
      if d > 0 {
        EndThroughTable(h, room, t', rest, p);
        FrontSame(t, name, |b|, rest);
      }
    }
  }

  lemma EndPointer(p: seq<u8>, b: seq<u8>, ref: nat)
    requires p == b + Pointer(ref)
    ensures NameEnd(p, |b|) == |p|
  {
    assert p[|b|] == Pointer(ref)[0];
  }

  lemma {:induction false} FrontOfAll(t: Option<seq<Entry>>, name: seq<u8>)
    ensures Proper(name) ==> FrontProper(t, name)
    ensures t.None? && FrontProper(t, name) ==> Proper(name)
    decreases |name|
  {
    hide DotAt;
    var d := DotAt(name);
    if d < |name| {
      FrontOfAll(t, name[d + 1..]);
    }
  }

  /** Written without a table, a name is read to its end exactly when none of its labels is empty. */
  lemma EndExact(b: seq<u8>, room: nat, name: seq<u8>, p: seq<u8>)
    requires Enc(|b|, room, None, name).Encoding?
    requires p == b + Enc(|b|, room, None, name).out
    ensures NameEnd(p, |b|) == |p| <==> Proper(name)
  {
    hide Enc, Proper, NameEnd, FrontProper;
    EndThroughTable(b, room, None, name, p);
    FrontOfAll(None, name);
  }

  lemma EncNonempty(j: nat, room: nat, t: Option<seq<Entry>>, name: seq<u8>)
    ensures var e := Enc(j, room, t, name); e.Encoding? ==> |e.out| > 0
  {
  }

  lemma EndLabel(p: seq<u8>, j: nat)
    requires j < |p| && p[j] < 64
    ensures NameEnd(p, j) == if p[j] == 0 then j + 1 else NameEnd(p, j + 1 + p[j])
  {
  }

  const A_DOT_DOT_B: seq<u8> := [97, DOT, DOT, 98]

  /** The name a..b is written in six bytes, of which three are read. */
  lemma EmptyLabel()
    ensures !Proper(A_DOT_DOT_B)
    ensures Enc(0, 512, None, A_DOT_DOT_B) == Encoding([1, 97, 0, 1, 98, 0], None)
    ensures NameEnd([1, 97, 0, 1, 98, 0], 0) == 3
  {
    var n := A_DOT_DOT_B;
    assert n[1..] == [DOT, DOT, 98] && n[2..] == [DOT, 98] && n[3..] == [98] && n[2..][1..] == [98];
    assert DotAt(n) == 1 && DotAt(n[2..]) == 0;
    assert [98][1..] == [] && DotAt([98]) == 1;
    assert n[..1] == [97] && [DOT, 98][..0] == [] && [98][..1] == [98];
    EncStep(0, 512, None, n);
    EncStep(2, 512, None, [DOT, 98]);
    EncStep(3, 512, None, [98]);
    hide Enc;
    assert Lab([98]) + [0] == [1, 98, 0];
    assert Lab([]) + [1, 98, 0] == [0, 1, 98, 0];
    assert Lab([97]) + [0, 1, 98, 0] == [1, 97, 0, 1, 98, 0];
  }

  // ---------------------------------------------------------------- the byte past the limit

  /** Neither name nor what follows one of its dots is in the table. */
  predicate Unknown(t: Option<seq<Entry>>, name: seq<u8>)
    decreases |name|
  {
    LookupIn(t, name) < 0 && (DotAt(name) < |name| ==> Unknown(t, name[DotAt(name) + 1..]))
  }

  predicate EndsInLabel(name: seq<u8>) {
    |name| > 0 && name[|name| - 1] != DOT
  }

  lemma {:induction false} UnknownSame(t: Option<seq<Entry>>, name: seq<u8>, pos: nat, v: seq<u8>)
    requires |v| < |name|
    ensures Unknown(AddedTo(t, name, pos), v) == Unknown(t, v)
    decreases |v|
  {
    hide DotAt, Lookup;
    var d := DotAt(v);
    if t.Some? {
      LookupAdded(t.value, Entry(name, pos), v);
    }
    if d < |v| {
      UnknownSame(t, name, pos, v[d + 1..]);
    }
  }

  lemma LastLabelEnds(name: seq<u8>)
    ensures DotAt(name) == |name| ==> (EndsInLabel(name) <==> |name| > 0)
    ensures DotAt(name) < |name| ==>
              (EndsInLabel(name) <==> EndsInLabel(name[DotAt(name) + 1..]))
  {
    hide DotAt;
    var d := DotAt(name);
    if d == |name| && |name| > 0 {
      assert name[..d][|name| - 1] == name[|name| - 1];
    } else if d < |name| && d + 1 < |name| {
      assert name[d + 1..][|name| - d - 2] == name[|name| - 1];
    }
  }

  /**
   * What is written ends within the limit or one byte behind it; and behind it exactly when no part of the
   * name is in the table, its last label is not empty, and the labels fill the buffer to the limit. That
   * byte is the terminator, which is written unchecked.
   */
  lemma {:induction false} TerminatorPastLimit(j: nat, room: nat, t: Option<seq<Entry>>, name: seq<u8>)
    requires Enc(j, room, t, name).Encoding?
    ensures j + |Enc(j, room, t, name).out| <= room + 1
    ensures j + |Enc(j, room, t, name).out| == room + 1
            <==> Unknown(t, name) && EndsInLabel(name) && j + |name| + 1 == room
    decreases |name|
  {
    hide Enc, Lab, DotAt, LookupIn, AddedTo, Pointer, EndsInLabel;
    EncStep(j, room, t, name);
    LastLabelEnds(name);
    var d := DotAt(name);
    if LookupIn(t, name) < 0 && d < |name| {
      var rest := name[d + 1..];
      TerminatorPastLimit(j + d + 1, room, AddedTo(t, name, j), rest);
      UnknownSame(t, name, j, rest);
    }
  }

  /** The name ab fills three bytes, and its terminator goes behind them. */
  lemma FilledBuffer()
    ensures Enc(0, 3, None, [97, 98]) == Encoding([2, 97, 98, 0], None)
  {
    var n: seq<u8> := [97, 98];
    assert n[1..] == [98] && n[1..][1..] == [];
    assert DotAt(n) == 2;
    assert n[..2] == n;
    EncStep(0, 3, None, n);
    assert Lab(n) + [0] == [2, 97, 98, 0];
  }
}
