/** The chunks of a byte buffer, and lists of chunks seen as one byte sequence. */
module Chunks {
  import opened Bytes

  const CHAIN_SIZE: nat := 48
  const MIN_BUFFER_SIZE: nat := 1024
  /** The storage of the smallest chunk. */
  const SMALLEST: nat := MIN_BUFFER_SIZE - CHAIN_SIZE
  const CHAIN_MAX: nat := 0x7fff_ffff_ffff_ffff
  const SIZE_MAX: nat := 0xffff_ffff_ffff_ffff
  const MAX_AUTO_SIZE: nat := 4096
  const MAX_TO_COPY_IN_EXPAND: nat := 4096
  const MAX_TO_REALIGN_IN_EXPAND: nat := 2048

  /** The address of a chunk. */
  class Addr {
    constructor () {}
  }

  /** A chunk: off bytes of data, misalign bytes into its storage. */
  datatype Chunk = Chunk(addr: Addr, mem: seq<u8>, misalign: nat, off: nat) {
    predicate Ok() {
      misalign + off <= |mem| && 0 < |mem|
    }

    function Data(): (d: seq<u8>)
      requires Ok()
      ensures |d| == off
    {
      mem[misalign..misalign + off]
    }

    function Space(): nat
      requires Ok()
    {
      |mem| - (misalign + off)
    }

    /** A chunk of the smallest size with n bytes at its start. */
    predicate Small(n: nat) {
      |mem| == SMALLEST && misalign == 0 && off == n <= |mem|
    }

    /** src copied into the free space behind the data. */
    function Append(src: seq<u8>): (c: Chunk)
      requires Ok() && |src| <= Space()
      ensures c.Ok() && c.Data() == Data() + src && c.addr == addr && |c.mem| == |mem|
      ensures c.off == off + |src|
    {
      var at := misalign + off;
      var m := mem[..at] + src + mem[at + |src|..];
      SplicedData(mem, misalign, at, src);
      this.(mem := m, off := off + |src|)
    }

    /** src copied into the free space before the data. */
    function PutBefore(src: seq<u8>): (c: Chunk)
      requires Ok() && |src| <= misalign
      ensures c.Ok() && c.Data() == src + Data() && c.addr == addr && c.off == off + |src|
    {
      var at := misalign - |src|;
      var m := mem[..at] + src + mem[misalign..];
      SplicedFront(mem, at, src, off);
      this.(mem := m, misalign := at, off := off + |src|)
    }

    /** The first n bytes of the data given up. */
    function Skip(n: nat): (c: Chunk)
      requires Ok() && n <= off
      ensures c.Ok() && c.Data() == Data()[n..] && c.addr == addr && c.off == off - n
    {
      this.(misalign := misalign + n, off := off - n)
    }

    /** The data moved to the start of the storage. */
    function Align(): (c: Chunk)
      requires Ok()
      ensures c.Ok() && c.misalign == 0 && c.Data() == Data() && c.addr == addr && c.off == off
      ensures |c.mem| == |mem|
    {
      this.(mem := Data() + mem[off..], misalign := 0)
    }

    predicate ShouldRealign(datlen: nat)
      requires Ok()
    {
      |mem| - off >= datlen && off < |mem| / 2 && off <= MAX_TO_REALIGN_IN_EXPAND
    }
  }

  lemma SplicedData(mem: seq<u8>, from: nat, at: nat, src: seq<u8>)
    requires from <= at && at + |src| <= |mem|
    ensures (mem[..at] + src + mem[at + |src|..])[from..at + |src|] == mem[from..at] + src
  {
    assert (mem[..at] + src + mem[at + |src|..])[..at + |src|] == mem[..at] + src;
  }

  lemma SplicedFront(mem: seq<u8>, at: nat, src: seq<u8>, n: nat)
    requires at + |src| + n <= |mem|
    ensures (mem[..at] + src + mem[at + |src|..])[at..at + |src| + n] == src + mem[at + |src|..at + |src| + n]
  {
    var m := mem[..at] + src + mem[at + |src|..];
    assert m[at..] == src + mem[at + |src|..];
    assert m[at..at + |src| + n] == m[at..][..|src| + n];
  }

  ghost function Pow2(k: nat): (p: nat)
    ensures p > 0
  {
    if k == 0 then 1 else 2 * Pow2(k - 1)
  }

  /** The storage a chunk gets when size bytes are asked for: while that is cheap, the least
      power-of-two multiple of the smallest allocation that fits the header too. */
  method Capacity(size: nat) returns (cap: nat)
    ensures size <= cap && 0 < cap
    ensures size + CHAIN_SIZE >= CHAIN_MAX / 2 ==> cap == size
    ensures size + CHAIN_SIZE < CHAIN_MAX / 2 ==>
              exists k: nat :: cap + CHAIN_SIZE == MIN_BUFFER_SIZE * Pow2(k)
                            && (k > 0 ==> MIN_BUFFER_SIZE * Pow2(k - 1) < size + CHAIN_SIZE)
  {
    var want := size + CHAIN_SIZE;
    var toAlloc;
    if want < CHAIN_MAX / 2 {
      toAlloc := MIN_BUFFER_SIZE;
      ghost var k: nat := 0;
      while toAlloc < want
        invariant toAlloc == MIN_BUFFER_SIZE * Pow2(k)
        invariant k > 0 ==> MIN_BUFFER_SIZE * Pow2(k - 1) < want
        decreases want - toAlloc
      {
        toAlloc := 2 * toAlloc;
        k := k + 1;
      }
      assert toAlloc == MIN_BUFFER_SIZE * Pow2(k);
    } else {
      toAlloc := want;
    }
    cap := toAlloc - CHAIN_SIZE;
  }

  /** evbuffer_chain_new: an empty chunk with a new address, away from those in live. */
  method NewChunk(size: nat, ghost live: set<Addr>) returns (c: Chunk)
    ensures fresh(c.addr) && c.addr !in live
    ensures c.Ok() && size <= |c.mem| && c.misalign == 0 && c.off == 0 && c.Data() == []
    ensures size <= SMALLEST ==> |c.mem| == SMALLEST
  {
    var cap := Capacity(size);
    if size <= SMALLEST {
      ghost var k: nat :| cap + CHAIN_SIZE == MIN_BUFFER_SIZE * Pow2(k)
                          && (k > 0 ==> MIN_BUFFER_SIZE * Pow2(k - 1) < size + CHAIN_SIZE);
      assert k == 0;
    }
    var a := new Addr();
    c := Chunk(a, seq(cap, _ => 0), 0, 0);
  }

  // ---------------------------------------------------------------- lists of chunks

  ghost predicate AllOk(cs: seq<Chunk>) {
    forall i {:trigger cs[i]} :: 0 <= i < |cs| ==> cs[i].Ok()
  }

  ghost predicate Distinct(cs: seq<Chunk>) {
    forall i, j {:trigger cs[i].addr, cs[j].addr} :: 0 <= i < j < |cs| ==> cs[i].addr != cs[j].addr
  }

  /** The bytes of all chunks, in order. */
  ghost function Flat(cs: seq<Chunk>): seq<u8>
    requires AllOk(cs)
  {
    if |cs| == 0 then [] else cs[0].Data() + Flat(cs[1..])
  }

  ghost function Addrs(cs: seq<Chunk>): set<Addr> {
    set i {:trigger cs[i]} | 0 <= i < |cs| :: cs[i].addr
  }

  /** A pointer to a next pointer: the buffer's first field, or the next field of a chunk. */
  datatype Link = First | NextOf(addr: Addr)

  /** Link l holds the pointer to chunk number k (to null when k is |cs|). */
  ghost predicate Points(cs: seq<Chunk>, l: Link, k: nat) {
    if k == 0 then l == First else k <= |cs| && l == NextOf(cs[k - 1].addr)
  }

  /** k is the place of the last chunk with data, or 0 when no chunk has data. */
  ghost predicate LastData(cs: seq<Chunk>, k: nat) {
    && (|cs| == 0 ==> k == 0)
    && (|cs| > 0 ==> k < |cs|)
    && (k > 0 ==> cs[k].off > 0)
    && forall i {:trigger cs[i]} :: k < i < |cs| ==> cs[i].off == 0
  }

  /** The structural invariant: sound chunks, no chunk twice, and lwdp, at place lwd,
      designating the last chunk with data. */
  ghost predicate Core(cs: seq<Chunk>, lwdp: Link, lwd: nat) {
    AllOk(cs) && Distinct(cs) && LastData(cs, lwd) && Points(cs, lwdp, lwd)
  }

  function Last(cs: seq<Chunk>): Addr? {
    if |cs| == 0 then null else cs[|cs| - 1].addr
  }

  /** How many chunks remain when the empty ones at the end go. */
  ghost function Kept(cs: seq<Chunk>, lwd: nat): nat {
    if lwd < |cs| && cs[lwd].off > 0 then lwd + 1 else 0
  }

  lemma Assoc<T>(a: seq<T>, b: seq<T>, c: seq<T>)
    ensures a + (b + c) == (a + b) + c
  {
  }

  lemma FlatFirst(cs: seq<Chunk>)
    requires |cs| > 0 && cs[0].Ok() && AllOk(cs[1..])
    ensures AllOk(cs) && Flat(cs) == cs[0].Data() + Flat(cs[1..])
  {
    hide Chunk.Ok, Chunk.Data;
    assert cs == [cs[0]] + cs[1..];
  }

  lemma {:induction false} FlatAppend(a: seq<Chunk>, b: seq<Chunk>)
    requires AllOk(a) && AllOk(b)
    ensures AllOk(a + b) && Flat(a + b) == Flat(a) + Flat(b)
  {
    if |a| == 0 {
      assert a + b == b;
    } else {
      hide Chunk.Ok, Chunk.Data, Flat;
      FlatFirst(a);
      FlatAppend(a[1..], b);
      assert (a + b)[0] == a[0] && (a + b)[1..] == a[1..] + b;
      FlatFirst(a + b);
    }
  }

  lemma FlatOne(c: Chunk)
    requires c.Ok()
    ensures AllOk([c]) && Flat([c]) == c.Data()
  {
    assert Flat([c][1..]) == [];
  }

  lemma {:induction false} FlatEmpties(cs: seq<Chunk>)
    requires AllOk(cs)
    requires forall i {:trigger cs[i]} :: 0 <= i < |cs| ==> cs[i].off == 0
    ensures Flat(cs) == []
  {
    if |cs| > 0 {
      FlatEmpties(cs[1..]);
    }
  }

  lemma FlatCut(cs: seq<Chunk>, n: nat)
    requires AllOk(cs) && n <= |cs|
    ensures AllOk(cs[..n]) && AllOk(cs[n..]) && Flat(cs) == Flat(cs[..n]) + Flat(cs[n..])
  {
    FlatAppend(cs[..n], cs[n..]);
    assert cs == cs[..n] + cs[n..];
  }

  /** The list's bytes, around chunk number k. */
  lemma FlatSplit(cs: seq<Chunk>, k: nat)
    requires AllOk(cs) && k < |cs|
    ensures AllOk(cs[..k]) && AllOk(cs[k + 1..])
    ensures Flat(cs) == Flat(cs[..k]) + cs[k].Data() + Flat(cs[k + 1..])
  {
    FlatCut(cs, k);
    var t := cs[k..];
    assert t[0] == cs[k] && t[1..] == cs[k + 1..];
    Assoc(Flat(cs[..k]), cs[k].Data(), Flat(t[1..]));
  }

  /** Chunk k replaced by one at the same address. */
  lemma FlatSet(cs: seq<Chunk>, k: nat, c: Chunk)
    requires AllOk(cs) && Distinct(cs) && k < |cs| && c.Ok() && c.addr == cs[k].addr
    ensures AllOk(cs[k := c]) && Distinct(cs[k := c]) && AllOk(cs[..k]) && AllOk(cs[k + 1..])
    ensures Flat(cs[k := c]) == Flat(cs[..k]) + c.Data() + Flat(cs[k + 1..])
    ensures Addrs(cs[k := c]) == Addrs(cs)
  {
    var e := cs[k := c];
    FlatSplit(e, k);
    assert e[..k] == cs[..k] && e[k + 1..] == cs[k + 1..];
    forall a ensures a in Addrs(e) <==> a in Addrs(cs) {
      if a in Addrs(e) {
        var i :| 0 <= i < |e| && e[i].addr == a;
        assert cs[i].addr == a;
      }
      if a in Addrs(cs) {
        var i :| 0 <= i < |cs| && cs[i].addr == a;
        assert e[i].addr == a;
      }
    }
  }

  lemma EmptyAfter(cs: seq<Chunk>, lwd: nat)
    requires AllOk(cs) && LastData(cs, lwd) && lwd < |cs|
    ensures AllOk(cs[lwd + 1..]) && Flat(cs[lwd + 1..]) == []
    ensures AllOk(cs[..lwd]) && Flat(cs) == Flat(cs[..lwd]) + cs[lwd].Data()
  {
    FlatEmpties(cs[lwd + 1..]);
    FlatSplit(cs, lwd);
  }

  lemma {:induction false} FlatTake(cs: seq<Chunk>, n: nat)
    requires AllOk(cs) && n <= |cs|
    requires forall i {:trigger cs[i]} :: n <= i < |cs| ==> cs[i].off == 0
    ensures AllOk(cs[..n]) && Flat(cs[..n]) == Flat(cs)
  {
    FlatCut(cs, n);
    FlatEmpties(cs[n..]);
  }

  lemma AddrsCut(cs: seq<Chunk>, n: nat)
    requires n <= |cs|
    ensures Addrs(cs) == Addrs(cs[..n]) + Addrs(cs[n..])
  {
    AddrsAppend(cs[..n], cs[n..]);
    assert cs[..n] + cs[n..] == cs;
  }

  lemma DistinctCut(cs: seq<Chunk>, n: nat)
    requires Distinct(cs) && n <= |cs|
    ensures Distinct(cs[..n]) && Distinct(cs[n..]) && Addrs(cs[..n]) !! Addrs(cs[n..])
  {
  }

  /** The empty chunks at the end cut off. */
  lemma CutTail(cs: seq<Chunk>, lwdp: Link, lwd: nat, n: nat)
    requires Core(cs, lwdp, lwd) && n == Kept(cs, lwd)
    ensures n <= |cs| && Core(cs[..n], lwdp, lwd) && Flat(cs[..n]) == Flat(cs)
    ensures Addrs(cs[..n]) <= Addrs(cs)
  {
    hide Flat, Addrs, Distinct, AllOk;
    AddrsCut(cs, n);
    DistinctCut(cs, n);
    assert n == 0 ==> lwd == 0;
    FlatTake(cs, n);
    var e := cs[..n];
    assert LastData(e, lwd);
    assert Points(e, lwdp, lwd);
  }

  /** A chunk added behind the others. */
  lemma PushLast(cs: seq<Chunk>, lwdp: Link, lwd: nat, c: Chunk, chp: Link)
    requires Core(cs, lwdp, lwd) && c.Ok() && c.addr !in Addrs(cs)
    requires Points(cs, chp, |cs|)
    ensures c.off > 0 ==> Core(cs + [c], chp, |cs|)
    ensures c.off == 0 ==> Core(cs + [c], lwdp, lwd)
    ensures AllOk(cs + [c]) && Flat(cs + [c]) == Flat(cs) + c.Data()
    ensures Addrs(cs + [c]) == Addrs(cs) + {c.addr}
  {
    hide Flat, Addrs, Distinct, LastData, Points, AllOk, Chunk.Data, Chunk.Ok;
    AddrsOne(c);
    AddrsAppend(cs, [c]);
    DistinctAppend(cs, [c]);
    FlatOne(c);
    FlatAppend(cs, [c]);
    PushLinks(cs, lwdp, lwd, c, chp);
  }

  lemma PushLinks(cs: seq<Chunk>, lwdp: Link, lwd: nat, c: Chunk, chp: Link)
    requires AllOk(cs) && c.Ok() && LastData(cs, lwd) && Points(cs, lwdp, lwd) && Points(cs, chp, |cs|)
    ensures AllOk(cs + [c])
    ensures c.off > 0 ==> LastData(cs + [c], |cs|) && Points(cs + [c], chp, |cs|)
    ensures c.off == 0 ==> LastData(cs + [c], lwd) && Points(cs + [c], lwdp, lwd)
  {
  }

  lemma AddrsAllocated(cs: seq<Chunk>)
    ensures forall a :: a in Addrs(cs) ==> allocated(a)
  {
  }

  lemma AddrsOne(c: Chunk)
    ensures Addrs([c]) == {c.addr} && Distinct([c])
  {
    assert [c][0] == c;
  }

  lemma AddrsAppend(a: seq<Chunk>, b: seq<Chunk>)
    ensures Addrs(a + b) == Addrs(a) + Addrs(b)
  {
    var e := a + b;
    forall x ensures x in Addrs(e) <==> x in Addrs(a) + Addrs(b) {
      if x in Addrs(e) {
        var i :| 0 <= i < |e| && e[i].addr == x;
        assert i < |a| ==> a[i].addr == x;
        assert i >= |a| ==> b[i - |a|].addr == x;
      }
      if x in Addrs(a) {
        var i :| 0 <= i < |a| && a[i].addr == x;
        assert e[i].addr == x;
      }
      if x in Addrs(b) {
        var i :| 0 <= i < |b| && b[i].addr == x;
        assert e[|a| + i].addr == x;
      }
    }
  }

  lemma DistinctAppend(a: seq<Chunk>, b: seq<Chunk>)
    requires Distinct(a) && Distinct(b) && Addrs(a) !! Addrs(b)
    ensures Distinct(a + b)
  {
    var e := a + b;
    forall i, j | 0 <= i < j < |e| ensures e[i].addr != e[j].addr {
      if i < |a| <= j {
        assert e[i] == a[i] && e[j] == b[j - |a|];
        assert a[i].addr in Addrs(a) && b[j - |a|].addr in Addrs(b);
      }
    }
  }

  /** The last chunk with data extended by src. */
  lemma GrowLast(cs: seq<Chunk>, lwdp: Link, lwd: nat, c: Chunk, src: seq<u8>)
    requires Core(cs, lwdp, lwd) && lwd < |cs|
    requires c.Ok() && c.addr == cs[lwd].addr && c.Data() == cs[lwd].Data() + src
    ensures Core(cs[lwd := c], lwdp, lwd) && Flat(cs[lwd := c]) == Flat(cs) + src
    ensures Addrs(cs[lwd := c]) == Addrs(cs)
  {
    hide Flat, Chunk.Data;
    EmptyAfter(cs, lwd);
    FlatSet(cs, lwd, c);
  }

  /** The bytes in front of chunk i + 1. */
  lemma FlatNext(cs: seq<Chunk>, i: nat)
    requires AllOk(cs) && i < |cs|
    ensures AllOk(cs[..i]) && AllOk(cs[..i + 1])
    ensures Flat(cs[..i + 1]) == Flat(cs[..i]) + cs[i].Data()
  {
    FlatOne(cs[i]);
    FlatAppend(cs[..i], [cs[i]]);
    assert cs[..i + 1] == cs[..i] + [cs[i]];
  }

  /** The bytes of a part of chunk i, seen from the whole. */
  lemma FlatWindow(cs: seq<Chunk>, i: nat, a: nat, b: nat)
    requires AllOk(cs) && i < |cs| && a <= b <= cs[i].off
    ensures AllOk(cs[..i])
    ensures |Flat(cs[..i])| + b <= |Flat(cs)|
    ensures var p := |Flat(cs[..i])|; Flat(cs)[p + a..p + b] == cs[i].Data()[a..b]
  {
    FlatSplit(cs, i);
    hide Flat;
    var x, y, z := Flat(cs[..i]), cs[i].Data(), Flat(cs[i + 1..]);
    assert (x + y + z)[|x| + a..|x| + b] == y[a..b];
  }

  /** What remains when the chunks before i go and chunk i loses r bytes. */
  ghost function Rest(cs: seq<Chunk>, i: nat, r: nat): seq<Chunk>
    requires AllOk(cs) && i < |cs| && r <= cs[i].off
  {
    [cs[i].Skip(r)] + cs[i + 1..]
  }

  lemma RestBytes(cs: seq<Chunk>, i: nat, r: nat)
    requires AllOk(cs) && i < |cs| && r <= cs[i].off
    ensures AllOk(cs[..i]) && AllOk(Rest(cs, i, r))
    ensures |Flat(cs[..i])| + r <= |Flat(cs)|
    ensures Flat(Rest(cs, i, r)) == Flat(cs)[|Flat(cs[..i])| + r..]
  {
    hide Flat, Chunk.Data;
    FlatSplit(cs, i);
    var c := cs[i].Skip(r);
    FlatOne(c);
    FlatAppend([c], cs[i + 1..]);
    DropInside(Flat(cs[..i]), cs[i].Data(), Flat(cs[i + 1..]), r);
  }

  lemma DropInside(x: seq<u8>, y: seq<u8>, z: seq<u8>, r: nat)
    requires r <= |y|
    ensures (x + y + z)[|x| + r..] == y[r..] + z
  {
  }

  lemma RestAddrs(cs: seq<Chunk>, i: nat, r: nat)
    requires AllOk(cs) && Distinct(cs) && i < |cs| && r <= cs[i].off
    ensures Distinct(Rest(cs, i, r))
    ensures Addrs(Rest(cs, i, r)) == Addrs(cs[i..]) <= Addrs(cs)
    ensures Addrs(cs[..i]) !! Addrs(cs[i..])
  {
    var e := Rest(cs, i, r);
    assert |e| == |cs| - i;
    assert forall j {:trigger e[j]} :: 0 <= j < |e| ==> e[j].addr == cs[i + j].addr;
    SameAddrs(e, cs[i..]);
    AddrsCut(cs, i);
    DistinctCut(cs, i);
  }

  lemma {:induction false} SameAddrs(a: seq<Chunk>, b: seq<Chunk>)
    requires |a| == |b| && forall j {:trigger a[j]} {:trigger b[j]} :: 0 <= j < |a| ==> a[j].addr == b[j].addr
    ensures Addrs(a) == Addrs(b)
  {
    forall x ensures x in Addrs(a) <==> x in Addrs(b) {
      if x in Addrs(a) {
        var i :| 0 <= i < |a| && a[i].addr == x;
        assert b[i].addr == x;
      }
      if x in Addrs(b) {
        var i :| 0 <= i < |b| && b[i].addr == x;
        assert a[i].addr == x;
      }
    }
  }

  /** Giving up bytes at the front keeps the invariant, with lwdp reset once its chunk is first. */
  lemma DropFront(cs: seq<Chunk>, lwdp: Link, lwd: nat, i: nat, r: nat)
    requires Core(cs, lwdp, lwd) && i <= lwd < |cs| && r <= cs[i].off
    ensures i < lwd ==> Core(Rest(cs, i, r), lwdp, lwd - i)
    ensures i == lwd ==> Core(Rest(cs, i, r), First, 0)
  {
    RestBytes(cs, i, r);
    RestAddrs(cs, i, r);
    hide Flat, Addrs, Distinct, AllOk;
    var e := Rest(cs, i, r);
    assert forall j {:trigger e[j]} :: 0 < j < |e| ==> e[j] == cs[i + j];
    assert LastData(e, lwd - i);
    if i < lwd {
      assert e[lwd - i - 1].addr == cs[lwd - 1].addr;
    }
  }

  lemma LastDataPushFirst(cs: seq<Chunk>, lwd: nat, c: Chunk)
    requires LastData(cs, lwd)
    ensures lwd > 0 ==> LastData([c] + cs, lwd + 1)
    ensures |cs| > 0 && lwd == 0 && cs[0].off > 0 ==> LastData([c] + cs, 1)
    ensures lwd == 0 && (|cs| == 0 || cs[0].off == 0) ==> LastData([c] + cs, 0)
  {
    var e := [c] + cs;
    assert forall j {:trigger e[j]} :: 0 < j < |e| ==> e[j] == cs[j - 1];
  }

  lemma PointsPushFirst(cs: seq<Chunk>, lwdp: Link, lwd: nat, c: Chunk)
    requires Points(cs, lwdp, lwd)
    ensures lwd > 0 ==> Points([c] + cs, lwdp, lwd + 1)
    ensures lwd == 0 <==> lwdp == First
    ensures Points([c] + cs, NextOf(c.addr), 1) && Points([c] + cs, First, 0)
  {
  }

  /** A chunk put in front of the others. */
  lemma PushFirst(cs: seq<Chunk>, lwdp: Link, lwd: nat, c: Chunk)
    requires Core(cs, lwdp, lwd) && c.Ok() && c.addr !in Addrs(cs)
    ensures lwd > 0 ==> Core([c] + cs, lwdp, lwd + 1)
    ensures |cs| > 0 && lwd == 0 && cs[0].off > 0 ==> Core([c] + cs, NextOf(c.addr), 1)
    ensures lwd == 0 && (|cs| == 0 || cs[0].off == 0) ==> Core([c] + cs, First, 0)
    ensures lwd == 0 <==> lwdp == First
    ensures Flat([c] + cs) == c.Data() + Flat(cs)
    ensures Addrs([c] + cs) == {c.addr} + Addrs(cs)
    ensures |cs| > 0 ==> Last([c] + cs) == Last(cs) && ([c] + cs)[1] == cs[0]
  {
    FlatOne(c);
    FlatAppend([c], cs);
    AddrsOne(c);
    AddrsAppend([c], cs);
    DistinctAppend([c], cs);
    LastDataPushFirst(cs, lwd, c);
    PointsPushFirst(cs, lwdp, lwd, c);
    LastPush(c, cs);
    hide Flat, Addrs, Distinct, AllOk, LastData, Points, Last;
    var e := [c] + cs;
    if lwd > 0 {
      assert Core(e, lwdp, lwd + 1);
    } else if |cs| > 0 && cs[0].off > 0 {
      assert Core(e, NextOf(c.addr), 1);
    } else {
      assert Core(e, First, 0);
    }
  }

  lemma LastPush(c: Chunk, cs: seq<Chunk>)
    ensures |cs| > 0 ==> Last([c] + cs) == Last(cs) && ([c] + cs)[1] == cs[0]
  {
  }

  /** Bytes put before the data of the first chunk. */
  lemma GrowFirst(cs: seq<Chunk>, lwdp: Link, lwd: nat, c: Chunk, src: seq<u8>)
    requires Core(cs, lwdp, lwd) && |cs| > 0
    requires c.Ok() && c.addr == cs[0].addr && c.Data() == src + cs[0].Data()
    ensures Core(cs[0 := c], lwdp, lwd) && Flat(cs[0 := c]) == src + Flat(cs)
    ensures Addrs(cs[0 := c]) == Addrs(cs)
  {
    FlatSet(cs, 0, c);
    FlatSplit(cs, 0);
    hide Flat, Addrs, Distinct, AllOk;
    var y, z := cs[0].Data(), Flat(cs[1..]);
    Assoc(src, y, z);
    assert |cs[..0]| == 0;
    assert LastData(cs[0 := c], lwd);
    assert Points(cs[0 := c], lwdp, lwd);
  }
}
