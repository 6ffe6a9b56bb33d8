/** Making room at the end of a chained buffer, and committing bytes written into that room. */
module EvbufferReserve {
  import opened Bytes
  import opened Chunks
  import opened Evbuffers
  import opened Options

  /** The place of the first chunk from the last one with data on that has room. */
  function FirstWithSpace(cs: seq<Chunk>, lwd: nat): nat
    requires lwd < |cs| && cs[lwd].Ok()
  {
    if cs[lwd].Space() == 0 then lwd + 1 else lwd
  }

  /** The room in the chunks from a up to b. */
  ghost function Room(cs: seq<Chunk>, a: nat, b: nat): nat
    requires AllOk(cs) && b <= |cs|
  {
    if a >= b then 0 else Room(cs, a, b - 1) + cs[b - 1].Space()
  }

  lemma {:induction false} RoomSame(cs: seq<Chunk>, ds: seq<Chunk>, a: nat, b: nat)
    requires AllOk(cs) && AllOk(ds) && b <= |cs| && b <= |ds|
    requires forall j {:trigger cs[j]} {:trigger ds[j]} :: a <= j < b ==> cs[j].Space() == ds[j].Space()
    ensures Room(cs, a, b) == Room(ds, a, b)
  {
    if a < b {
      RoomSame(cs, ds, a, b - 1);
      assert cs[b - 1].Space() == ds[b - 1].Space();
    }
  }

  lemma {:induction false} RoomGrows(cs: seq<Chunk>, a: nat, b: nat, c: nat)
    requires AllOk(cs) && b <= c <= |cs|
    ensures Room(cs, a, b) <= Room(cs, a, c)
  {
    if b < c {
      RoomGrows(cs, a, b, c - 1);
    }
  }

  /** A chunk replaced by one with the same data at another address. */
  lemma SwapChunk(cs: seq<Chunk>, lwdp: Link, lwd: nat, c: Chunk)
    requires Core(cs, lwdp, lwd) && lwd < |cs| && c.Ok() && c.Data() == cs[lwd].Data() && c.addr !in Addrs(cs)
    ensures Core(cs[lwd := c], lwdp, lwd) && Flat(cs[lwd := c]) == Flat(cs)
    ensures forall a :: a in Addrs(cs[lwd := c]) ==> a in Addrs(cs) || a == c.addr
  {
    hide Flat;
    SwapBytes(cs, lwd, c);
    SameLength(cs[lwd], c);
    hide Chunk.Ok, Chunk.Data;
    var e := cs[lwd := c];
    assert forall j {:trigger e[j]} :: 0 <= j < |e| && j != lwd ==> e[j] == cs[j] && cs[j].addr in Addrs(cs);
  }

  lemma SameLength(a: Chunk, c: Chunk)
    requires a.Ok() && c.Ok() && a.Data() == c.Data()
    ensures a.off == c.off
  {
    assert |a.Data()| == a.off && |c.Data()| == c.off;
  }

  lemma SwapBytes(cs: seq<Chunk>, k: nat, c: Chunk)
    requires AllOk(cs) && k < |cs| && c.Ok() && c.Data() == cs[k].Data()
    ensures AllOk(cs[k := c]) && Flat(cs[k := c]) == Flat(cs)
  {
    FlatSplit(cs, k);
    var e := cs[k := c];
    FlatSplit(e, k);
    assert e[..k] == cs[..k] && e[k + 1..] == cs[k + 1..];
  }

  /** evbuffer_chain_insert_new */
  method InsertNew(b: Evbuffer, datlen: nat) returns (r: nat)
    requires b.Valid()
    modifies b
    ensures b.Valid() && b.Contents() == old(b.Contents())
    ensures forall a :: a in Addrs(b.chain) ==> a in old(Addrs(b.chain)) || fresh(a)
    ensures b.lwd <= r < |b.chain| && r == |b.chain| - 1 && b.chain[r].Ok() && b.chain[r].Space() >= datlen
    ensures b.chain[r].off == 0 && b.chain[r].misalign == 0
    ensures |old(b.chain)| == 0 ==> r == 0
  {
    hide Flat, AllOk, Addrs, Distinct, LastData;
    var c := NewChunk(datlen, Addrs(b.chain));
    b.ChainInsert(c);
    LwdFacts(b.chain, b.lwdp, b.lwd);
    assert b.Contents() == old(b.Contents());
    r := |b.chain| - 1;
  }

  /** The first chunk with room holds data, cannot take len bytes and is not worth resizing, while
      the one behind it can take them and is not the last one. */
  predicate Skips(cs: seq<Chunk>, lwd: nat, len: nat) {
    && lwd + 2 < |cs| && cs[lwd].Ok() && cs[lwd + 1].Ok()
    && cs[lwd].off > 0 && 0 < cs[lwd].Space() < len && !cs[lwd].ShouldRealign(len)
    && (cs[lwd].Space() < |cs[lwd].mem| / 8 || cs[lwd].off > MAX_TO_COPY_IN_EXPAND || len >= CHAIN_MAX - cs[lwd].off)
    && cs[lwd + 1].Space() >= len
  }

  /** evbuffer_expand_singlechain: room for datlen bytes in one chunk, whose place is returned. */
  method ExpandSinglechain(b: Evbuffer, datlen: nat) returns (r: nat)
    requires b.Valid()
    modifies b
    ensures b.Valid() && b.Contents() == old(b.Contents())
    ensures forall a :: a in Addrs(b.chain) ==> a in old(Addrs(b.chain)) || fresh(a)
    ensures b.lwd <= r < |b.chain| && b.chain[r].Ok() && b.chain[r].Space() >= datlen
    ensures old(Skips(b.chain, b.lwd, datlen)) <==> r != |b.chain| - 1 && r != FirstWithSpace(b.chain, b.lwd)
  {
    hide Flat, AllOk, Addrs, Distinct, LastData;
    LwdFacts(b.chain, b.lwdp, b.lwd);
    var cs := b.chain;
    var i := Evbuffer.Deref(cs, b.lwdp, b.lwd);
    if i < |cs| && cs[i].Space() == 0 {
      i := i + 1;
    }
    if i == |cs| {
      r := InsertNew(b, datlen);
      return;
    }
    OkAt(cs, i);
    var c := cs[i];
    if c.Space() >= datlen {
      r := i;
    } else if c.off == 0 {
      r := InsertNew(b, datlen);
    } else {
      NotBehind(cs, b.lwd, i);
      r := ExpandUsed(b, i, datlen);
    }
  }

  lemma NotBehind(cs: seq<Chunk>, lwd: nat, i: nat)
    requires LastData(cs, lwd) && i < |cs| && cs[i].off > 0
    ensures i <= lwd
  {
  }

  /** evbuffer_expand_singlechain, when the first chunk with room holds data and is too small. */
  method ExpandUsed(b: Evbuffer, i: nat, datlen: nat) returns (r: nat)
    requires b.Valid() && i == b.lwd < |b.chain| && b.chain[i].Ok() && 0 < b.chain[i].Space() < datlen
    requires b.chain[i].off > 0
    modifies b
    ensures b.Valid() && b.Contents() == old(b.Contents())
    ensures forall a :: a in Addrs(b.chain) ==> a in old(Addrs(b.chain)) || fresh(a)
    ensures b.lwd <= r < |b.chain| && b.chain[r].Ok() && b.chain[r].Space() >= datlen
    ensures old(Skips(b.chain, b.lwd, datlen)) <==> r != |b.chain| - 1 && r != FirstWithSpace(b.chain, b.lwd)
  {
    hide Core, Flat, AllOk, Addrs, Distinct, LastData, Points;
    var cs := b.chain;
    LwdFacts(cs, b.lwdp, b.lwd);
    var c := cs[i];
    if c.ShouldRealign(datlen) {
      GrowLast(cs, b.lwdp, b.lwd, c.Align(), []);
      b.chain := cs[i := c.Align()];
      r := i;
    } else if c.Space() < |c.mem| / 8 || c.off > MAX_TO_COPY_IN_EXPAND || datlen >= CHAIN_MAX - c.off {
      if i + 1 < |cs| {
        OkAt(cs, i + 1);
      }
      if i + 1 < |cs| && cs[i + 1].Space() >= datlen {
        r := i + 1;
      } else {
        r := InsertNew(b, datlen);
      }
    } else {
      ReplaceLarger(b, i, datlen);
      r := i;
    }
  }

  /** The data of the last chunk with data goes into a new chunk with room for datlen bytes more. */
  method ReplaceLarger(b: Evbuffer, i: nat, datlen: nat)
    requires b.Valid() && i == b.lwd < |b.chain| && b.chain[i].Ok()
    modifies b
    ensures b.Valid() && b.Contents() == old(b.Contents()) && b.lwd == old(b.lwd) && |b.chain| == |old(b.chain)|
    ensures forall a :: a in Addrs(b.chain) ==> a in old(Addrs(b.chain)) || fresh(a)
    ensures b.chain[i].Ok() && b.chain[i].Space() >= datlen && b.chain[i].off == old(b.chain)[i].off
  {
    hide Core, Flat, AllOk, Addrs, Distinct, LastData, Points;
    var cs := b.chain;
    LwdFacts(cs, b.lwdp, b.lwd);
    var c := cs[i];
    var tmp := NewChunk(c.off + datlen, Addrs(cs));
    tmp := tmp.Append(c.Data());
    SwapChunk(cs, b.lwdp, b.lwd, tmp);
    if b.last == c.addr {
      DistinctLast(cs, i);
      b.last := tmp.addr;
    }
    b.chain := cs[i := tmp];
  }

  lemma DistinctLast(cs: seq<Chunk>, i: nat)
    requires Distinct(cs) && i < |cs| && Last(cs) == cs[i].addr
    ensures i == |cs| - 1
  {
  }

  /** The first n chunks with room offer at least len bytes. */
  ghost predicate Roomy(cs: seq<Chunk>, lwd: nat, n: nat, len: nat) {
    && AllOk(cs) && lwd < |cs|
    && Room(cs, FirstWithSpace(cs, lwd), Min(FirstWithSpace(cs, lwd) + n, |cs|)) >= len
  }

  /** The state of the scan in evbuffer_expand_fast_ in front of chunk i: the chunks before i that
      have room are used, and the empty ones among them have been realigned. */
  ghost predicate ScanInv(cs: seq<Chunk>, lwdp: Link, lwd: nat, i: nat, avail: nat, used: nat) {
    && Core(cs, lwdp, lwd) && lwd < |cs| && lwd <= i <= |cs|
    && (i == lwd ==> avail == 0 && used == 0)
    && (i > lwd ==> FirstWithSpace(cs, lwd) <= i && used == i - FirstWithSpace(cs, lwd)
                    && avail == Room(cs, FirstWithSpace(cs, lwd), i))
  }

  ghost predicate SameBytes(cs: seq<Chunk>, ds: seq<Chunk>) {
    AllOk(cs) && AllOk(ds) && Flat(cs) == Flat(ds) && Addrs(cs) == Addrs(ds) && Last(cs) == Last(ds)
    && |cs| == |ds|
  }

  /** The last chunk holds data up to its end. */
  predicate FullAtEnd(cs: seq<Chunk>, lwd: nat) {
    |cs| > 0 && lwd == |cs| - 1 && cs[lwd].Ok() && cs[lwd].off > 0 && cs[lwd].Space() == 0
  }

  /** All chunks from the first with room on are fewer than n, have less than len bytes of room, and those
      without data need not be realigned. */
  ghost predicate Short(cs: seq<Chunk>, lwd: nat, n: nat, len: nat) {
    && AllOk(cs) && lwd < |cs| && |cs| < FirstWithSpace(cs, lwd) + n && Room(cs, FirstWithSpace(cs, lwd), |cs|) < len
    && forall i {:trigger cs[i]} :: lwd <= i < |cs| && cs[i].off == 0 ==> cs[i].misalign == 0
  }

  /** The list has one more chunk, of the smallest size if that is enough. */
  ghost predicate Lengthened(cs: seq<Chunk>, lwd: nat, ds: seq<Chunk>, lwd': nat, len: nat)
    requires AllOk(cs) && lwd < |cs|
  {
    && |ds| == |cs| + 1 && ds[..|cs|] == cs && lwd' == lwd
    && (len <= Room(cs, FirstWithSpace(cs, lwd), |cs|) + SMALLEST ==> ds[|cs|].Small(0))
  }

  lemma NotShort(cs: seq<Chunk>, lwd: nat, n: nat, len: nat)
    ensures Short(cs, lwd, n, len) ==> AllOk(cs) && lwd < |cs|
  {
  }

  function Realigned(c: Chunk): Chunk {
    if c.off == 0 then c.(misalign := 0) else c
  }

  lemma RealignChunk(cs: seq<Chunk>, lwdp: Link, lwd: nat, i: nat)
    requires Core(cs, lwdp, lwd) && lwd <= i < |cs|
    ensures cs[i].Ok() && Realigned(cs[i]).Ok() && (cs[i].off != 0 ==> i == lwd)
    ensures Core(cs[i := Realigned(cs[i])], lwdp, lwd) && SameBytes(cs, cs[i := Realigned(cs[i])])
  {
    hide Core, Flat, Addrs, Distinct, AllOk, LastData, Points;
    CoreFacts(cs, lwdp, lwd, i);
    RealignedFacts(cs[i]);
    FlatSet(cs, i, Realigned(cs[i]));
    FlatSplit(cs, i);
    SameOffsets(cs, lwdp, lwd, i, Realigned(cs[i]));
  }

  lemma RealignedFacts(c: Chunk)
    requires c.Ok()
    ensures Realigned(c).Ok() && Realigned(c).Data() == c.Data()
    ensures Realigned(c).off == c.off && Realigned(c).addr == c.addr
  {
  }

  /** What the invariant says of a chunk at or behind the last one with data. */
  lemma CoreFacts(cs: seq<Chunk>, lwdp: Link, lwd: nat, i: nat)
    requires Core(cs, lwdp, lwd) && lwd <= i < |cs|
    ensures AllOk(cs) && Distinct(cs) && LastData(cs, lwd) && Points(cs, lwdp, lwd) && cs[i].Ok()
    ensures cs[i].off != 0 ==> i == lwd
  {
    hide Flat, Addrs, Distinct;
  }

  /** A chunk changed in place, with as much data at the same address. */
  lemma SameOffsets(cs: seq<Chunk>, lwdp: Link, lwd: nat, i: nat, c: Chunk)
    requires Core(cs, lwdp, lwd) && i < |cs| && c.off == cs[i].off && c.addr == cs[i].addr
    requires AllOk(cs[i := c]) && Distinct(cs[i := c])
    ensures Core(cs[i := c], lwdp, lwd) && Last(cs[i := c]) == Last(cs)
  {
    hide Flat, Addrs, Distinct, AllOk;
  }

  lemma ScanStep(cs: seq<Chunk>, lwdp: Link, lwd: nat, i: nat, avail: nat, used: nat)
    requires ScanInv(cs, lwdp, lwd, i, avail, used) && i < |cs|
    requires cs[i].Ok() && Realigned(cs[i]).Ok() && (cs[i].off != 0 ==> i == lwd)
    requires Core(cs[i := Realigned(cs[i])], lwdp, lwd)
    ensures var sp := Realigned(cs[i]).Space();
            ScanInv(cs[i := Realigned(cs[i])], lwdp, lwd, i + 1, avail + sp, used + if sp > 0 then 1 else 0)
  {
    var e := cs[i := Realigned(cs[i])];
    assert AllOk(cs) && AllOk(e);
    hide Core, AllOk, Distinct, LastData, Points;
    assert forall j {:trigger e[j]} :: 0 <= j < |e| && j != i ==> e[j] == cs[j];
    var f := FirstWithSpace(e, lwd);
    if i == lwd {
      if Realigned(cs[i]).Space() > 0 {
        assert Room(e, f, i + 1) == Room(e, f, i) + e[i].Space();
      }
    } else {
      RoomSame(cs, e, f, i);
      assert Room(e, f, i + 1) == Room(e, f, i) + e[i].Space();
    }
  }

  /** The scan of evbuffer_expand_fast_. */
  method ScanRoom(cs0: seq<Chunk>, lwdp: Link, ghost lwd: nat, datlen: nat, n: nat)
    returns (cs: seq<Chunk>, avail: nat, used: nat, enough: bool, ghost end: nat)
    requires Core(cs0, lwdp, lwd) && lwd < |cs0| && n >= 2
    ensures Core(cs, lwdp, lwd) && SameBytes(cs0, cs)
    ensures enough ==> Roomy(cs, lwd, n, datlen)
    ensures enough ==> (FirstWithSpace(cs, lwd) == |cs| <==> datlen == 0 && FullAtEnd(cs0, lwd))
    ensures !enough ==> datlen > 0
    ensures !enough ==> ScanInv(cs, lwdp, lwd, end, avail, used) && end > lwd && avail < datlen && used <= n
    ensures !enough && used < n ==> end == |cs|
    ensures Short(cs0, lwd, n, datlen) ==>
              !enough && used < n && cs == cs0 && avail == Room(cs0, FirstWithSpace(cs0, lwd), |cs0|)
  {
    hide Core, Flat, AllOk, Addrs, Distinct, LastData, Room, Short;
    LwdFacts(cs0, lwdp, lwd);
    cs, avail, used := cs0, 0, 0;
    var i: nat := Evbuffer.Deref(cs, lwdp, lwd);
    while i < |cs|
      invariant ScanInv(cs, lwdp, lwd, i, avail, used) && SameBytes(cs0, cs)
      invariant used < n && (i > lwd ==> avail < datlen)
      invariant i == lwd ==> cs == cs0
      invariant Short(cs0, lwd, n, datlen) ==> cs == cs0
    {
      ShortStep(cs0, cs, lwdp, lwd, i, avail, used, n, datlen);
      RealignChunk(cs, lwdp, lwd, i);
      ScanStep(cs, lwdp, lwd, i, avail, used);
      var c := cs[i];
      if c.off != 0 {
        assert cs[i := c] == cs;
        if c.Space() > 0 {
          avail, used := avail + c.Space(), used + 1;
        }
      } else {
        cs := cs[i := c.(misalign := 0)];
        avail, used := avail + |c.mem|, used + 1;
      }
      i := i + 1;
      if avail >= datlen {
        ScanEnough(cs0, cs, lwdp, lwd, i, avail, used, n, datlen);
        return cs, avail, used, true, i;
      }
      if used == n {
        break;
      }
    }
    enough, end := false, i;
    if Short(cs0, lwd, n, datlen) {
      ShortEnd(cs, lwdp, lwd, i, avail, used, n, datlen);
    }
  }

  /** On a short list the scan goes on, and leaves the chunks alone. */
  lemma ShortStep(cs0: seq<Chunk>, cs: seq<Chunk>, lwdp: Link, lwd: nat, i: nat, avail: nat, used: nat, n: nat, datlen: nat)
    requires Short(cs0, lwd, n, datlen) ==> cs == cs0
    requires ScanInv(cs, lwdp, lwd, i, avail, used) && i < |cs|
    ensures cs[i].Ok()
    ensures Short(cs0, lwd, n, datlen) ==> Realigned(cs[i]) == cs[i]
    ensures Short(cs0, lwd, n, datlen) ==> avail + cs[i].Space() < datlen && used + (if cs[i].Space() > 0 then 1 else 0) < n
  {
    if Short(cs0, lwd, n, datlen) {
      var f := FirstWithSpace(cs, lwd);
      hide LastData, Points, Distinct;
      if i >= f {
        RoomGrows(cs, f, i + 1, |cs|);
        assert Room(cs, f, i + 1) == Room(cs, f, i) + cs[i].Space();
      }
      RoomGrows(cs, f, f, |cs|);
    }
  }

  lemma ShortEnd(cs: seq<Chunk>, lwdp: Link, lwd: nat, i: nat, avail: nat, used: nat, n: nat, datlen: nat)
    requires Short(cs, lwd, n, datlen) && ScanInv(cs, lwdp, lwd, i, avail, used) && i > lwd
    ensures used < n
    ensures i == |cs| ==> avail == Room(cs, FirstWithSpace(cs, lwd), |cs|)
  {
  }

  lemma ScanEnough(cs0: seq<Chunk>, cs: seq<Chunk>, lwdp: Link, lwd: nat, i: nat, avail: nat, used: nat, n: nat,
                   datlen: nat)
    requires ScanInv(cs, lwdp, lwd, i, avail, used) && i > lwd && used <= n && avail >= datlen && n > 0
    requires lwd < |cs0| && cs0[lwd].Ok() && Realigned(cs0[lwd]).Ok()
    requires datlen == 0 ==> cs == cs0[lwd := Realigned(cs0[lwd])]
    ensures Roomy(cs, lwd, n, datlen)
    ensures FirstWithSpace(cs, lwd) == |cs| <==> datlen == 0 && FullAtEnd(cs0, lwd)
  {
    var f := FirstWithSpace(cs, lwd);
    RoomGrows(cs, f, i, Min(f + n, |cs|));
  }

  lemma RoomPush(cs: seq<Chunk>, lwdp: Link, lwd: nat, avail: nat, used: nat, n: nat, c: Chunk, datlen: nat)
    requires ScanInv(cs, lwdp, lwd, |cs|, avail, used) && used < n && c.Ok()
    requires avail + c.Space() >= datlen
    ensures Roomy(cs + [c], lwd, n, datlen) && FirstWithSpace(cs + [c], lwd) < |cs| + 1
  {
    var e := cs + [c];
    assert forall j {:trigger e[j]} :: 0 <= j < |cs| ==> e[j] == cs[j];
    assert e[|cs|] == c;
    var f := FirstWithSpace(cs, lwd);
    assert FirstWithSpace(e, lwd) == f;
    RoomSame(cs, e, f, |cs|);
    assert Room(e, f, |cs| + 1) == Room(e, f, |cs|) + c.Space();
  }

  lemma RoomOne(c: Chunk, n: nat, datlen: nat)
    requires c.Ok() && c.off == 0 && c.misalign == 0 && c.Space() >= datlen && n >= 1
    ensures Roomy([c], 0, n, datlen) && FirstWithSpace([c], 0) == 0
  {
    assert Room([c], 0, 1) == Room([c], 0, 0) + c.Space();
  }

  lemma RoomKept(cs: seq<Chunk>, lwdp: Link, lwd: nat, end: nat, avail: nat, used: nat)
    requires ScanInv(cs, lwdp, lwd, end, avail, used) && end > lwd && cs[lwd].off > 0
    ensures cs[lwd].Ok() && cs[lwd].Space() <= avail
    ensures var e := cs[..lwd + 1]; Core(e, lwdp, lwd) ==>
              ScanInv(e, lwdp, lwd, |e|, cs[lwd].Space(), if cs[lwd].Space() > 0 then 1 else 0)
  {
    var f := FirstWithSpace(cs, lwd);
    RoomGrows(cs, f, lwd + 1, end);
    var e := cs[..lwd + 1];
    assert e[lwd] == cs[lwd];
    if cs[lwd].Space() > 0 {
      assert Room(cs, f, lwd + 1) == Room(cs, f, lwd) + cs[lwd].Space();
      if Core(e, lwdp, lwd) {
        assert Room(e, f, lwd + 1) == Room(e, f, lwd) + e[lwd].Space();
      }
    }
  }

  /** evbuffer_expand_fast_: room for datlen bytes in at most n chunks. */
  method ExpandFast(b: Evbuffer, datlen: nat, n: nat)
    requires b.Valid() && n >= 2
    modifies b
    ensures b.Valid() && b.Contents() == old(b.Contents())
    ensures forall a :: a in Addrs(b.chain) ==> a in old(Addrs(b.chain)) || fresh(a)
    ensures Roomy(b.chain, b.lwd, n, datlen)
    ensures FirstWithSpace(b.chain, b.lwd) == |b.chain| <==> datlen == 0 && old(FullAtEnd(b.chain, b.lwd))
    ensures old(Short(b.chain, b.lwd, n, datlen)) ==> Lengthened(old(b.chain), old(b.lwd), b.chain, b.lwd, datlen)
  {
    hide Core, Flat, AllOk, Addrs, Distinct, LastData, Room, Short, Lengthened;
    LwdFacts(b.chain, b.lwdp, b.lwd);
    NotShort(b.chain, b.lwd, n, datlen);
    if b.last == null {
      var r := InsertNew(b, datlen);
      assert b.chain == [b.chain[0]];
      RoomOne(b.chain[0], n, datlen);
    } else {
      ExpandFastUsed(b, datlen, n);
    }
  }

  /** evbuffer_expand_fast_, for a buffer that has chunks. */
  method ExpandFastUsed(b: Evbuffer, datlen: nat, n: nat)
    requires b.Valid() && n >= 2 && b.lwd < |b.chain|
    modifies b
    ensures b.Valid() && b.Contents() == old(b.Contents())
    ensures forall a :: a in Addrs(b.chain) ==> a in old(Addrs(b.chain)) || fresh(a)
    ensures Roomy(b.chain, b.lwd, n, datlen)
    ensures FirstWithSpace(b.chain, b.lwd) == |b.chain| <==> datlen == 0 && old(FullAtEnd(b.chain, b.lwd))
    ensures old(Short(b.chain, b.lwd, n, datlen)) ==> Lengthened(old(b.chain), old(b.lwd), b.chain, b.lwd, datlen)
  {
    hide Core, Flat, AllOk, Addrs, Distinct, LastData, Room, Short;
    LwdFacts(b.chain, b.lwdp, b.lwd);
    var cs, avail, used, enough;
    ghost var end;
    cs, avail, used, enough, end := ScanRoom(b.chain, b.lwdp, b.lwd, datlen, n);
    b.chain := cs;
    LwdFacts(cs, b.lwdp, b.lwd);
    if enough {
    } else if used < n {
      var tmp := NewChunk(datlen - avail, Addrs(cs));
      PushLast(cs, b.lwdp, b.lwd, tmp, NextOf(cs[|cs| - 1].addr));
      RoomPush(cs, b.lwdp, b.lwd, avail, used, n, tmp, datlen);
      b.chain, b.last := cs + [tmp], tmp.addr;
    } else {
      ReplaceEmpties(b, datlen, n, end, avail, used);
    }
  }

  /** evbuffer_expand_fast_: all empty chunks replaced by one that is large enough. */
  method ReplaceEmpties(b: Evbuffer, datlen: nat, n: nat, ghost end: nat, ghost found: nat, ghost used: nat)
    requires b.Valid() && n >= 2 && b.lwd < |b.chain|
    requires ScanInv(b.chain, b.lwdp, b.lwd, end, found, used) && end > b.lwd && found < datlen
    modifies b
    ensures b.Valid() && b.Contents() == old(b.Contents())
    ensures forall a :: a in Addrs(b.chain) ==> a in old(Addrs(b.chain)) || fresh(a)
    ensures Roomy(b.chain, b.lwd, n, datlen)
    ensures FirstWithSpace(b.chain, b.lwd) < |b.chain|
  {
    hide Core, Flat, AllOk, Addrs, Distinct, LastData, Room, SetupInv, Fits, TotalLen;
    var cs := b.chain;
    LwdFacts(cs, b.lwdp, b.lwd);
    var i := Evbuffer.Deref(cs, b.lwdp, b.lwd);
    CutTail(cs, b.lwdp, b.lwd, Kept(cs, b.lwd));
    if cs[i].off == 0 {
      assert i == 0;
      var tmp := NewChunk(datlen, Addrs(cs));
      assert cs[..0] == [];
      PushLast([], b.lwdp, 0, tmp, First);
      assert [] + [tmp] == [tmp];
      RoomOne(tmp, n, datlen);
      b.chain, b.last, b.lwdp, b.lwd := [tmp], tmp.addr, First, 0;
    } else {
      RoomKept(cs, b.lwdp, b.lwd, end, found, used);
      var avail := cs[i].Space();
      assert datlen >= avail;
      var e := cs[..i + 1];
      var tmp := NewChunk(datlen - avail, Addrs(cs));
      PushLast(e, b.lwdp, b.lwd, tmp, NextOf(cs[i].addr));
      RoomPush(e, b.lwdp, b.lwd, avail, if avail > 0 then 1 else 0, n, tmp, datlen);
      b.chain, b.last := e + [tmp], tmp.addr;
    }
  }

  /** evbuffer_iovec: a piece of a chunk's storage. */
  datatype Vec = Vec(addr: Addr, at: nat, len: nat)

  /** The vectors name the free space of the chunks from f on, or the front part of it. */
  ghost predicate Fits(cs: seq<Chunk>, f: nat, vecs: seq<Vec>) {
    && AllOk(cs) && f + |vecs| <= |cs|
    && forall j {:trigger vecs[j]} :: 0 <= j < |vecs| ==>
         && vecs[j].addr == cs[f + j].addr
         && vecs[j].at == cs[f + j].misalign + cs[f + j].off
         && vecs[j].len <= cs[f + j].Space()
  }

  ghost function TotalLen(vecs: seq<Vec>): nat {
    if |vecs| == 0 then 0 else TotalLen(vecs[..|vecs| - 1]) + vecs[|vecs| - 1].len
  }

  /** evbuffer_read_setup_vecs_: vectors for howmuch bytes of room; None when there is no chunk to
      start from, which the source asserts against. */
  method ReadSetupVecs(b: Evbuffer, howmuch: nat, nVecs: nat, exact: bool) returns (vecs: Option<seq<Vec>>)
    requires b.Valid() && Roomy(b.chain, b.lwd, nVecs, howmuch)
    ensures vecs.None? <==> FirstWithSpace(b.chain, b.lwd) == |b.chain|
    ensures vecs.Some? ==>
              && |vecs.value| <= nVecs
              && Fits(b.chain, FirstWithSpace(b.chain, b.lwd), vecs.value)
              && TotalLen(vecs.value) >= howmuch
              && (exact ==> TotalLen(vecs.value) == howmuch)
  {
    hide Core, Flat, AllOk, Addrs, Distinct, LastData, Room, SetupInv, Fits, TotalLen;
    var cs := b.chain;
    LwdFacts(cs, b.lwdp, b.lwd);
    var first := Evbuffer.Deref(cs, b.lwdp, b.lwd);
    if cs[first].Space() == 0 {
      first := first + 1;
    }
    if first == |cs| {
      return None;
    }
    var out: seq<Vec>, soFar: nat, i: nat := [], 0, 0;
    VecsStart(cs, b.lwd, first, nVecs, howmuch, exact);
    while i < nVecs && soFar < howmuch
      invariant SetupInv(cs, b.lwd, first, nVecs, howmuch, exact, i, soFar, out)
    {
      SetupStep(cs, b.lwd, first, nVecs, howmuch, exact, i, soFar, out);
      var avail := cs[first + i].Space();
      if avail > howmuch - soFar && exact {
        avail := howmuch - soFar;
      }
      out := out + [Vec(cs[first + i].addr, cs[first + i].misalign + cs[first + i].off, avail)];
      soFar := soFar + avail;
      i := i + 1;
    }
    SetupEnd(cs, b.lwd, first, nVecs, howmuch, exact, i, soFar, out);
    vecs := Some(out);
  }

  ghost predicate SetupInv(cs: seq<Chunk>, lwd: nat, f: nat, n: nat, howmuch: nat, exact: bool, i: nat, soFar: nat,
                           out: seq<Vec>)
  {
    && Roomy(cs, lwd, n, howmuch) && f == FirstWithSpace(cs, lwd)
    && i == |out| <= n && Fits(cs, f, out) && TotalLen(out) == soFar
    && (exact ==> soFar <= howmuch)
    && (soFar < howmuch ==> soFar == Room(cs, f, f + i))
  }

  lemma RoomTop(cs: seq<Chunk>, f: nat, n: nat)
    requires AllOk(cs) && f <= |cs|
    ensures f + n <= |cs| ==> Room(cs, f, Min(f + n, |cs|)) == Room(cs, f, f + n)
    ensures f + n > |cs| ==> Room(cs, f, Min(f + n, |cs|)) == Room(cs, f, |cs|)
  {
  }

  lemma VecsStart(cs: seq<Chunk>, lwd: nat, f: nat, n: nat, howmuch: nat, exact: bool)
    requires AllOk(cs) && f <= |cs| && Roomy(cs, lwd, n, howmuch) && f == FirstWithSpace(cs, lwd)
    ensures SetupInv(cs, lwd, f, n, howmuch, exact, 0, 0, [])
  {
  }

  /** While room is still wanted there is a chunk that has some. */
  lemma SetupStep(cs: seq<Chunk>, lwd: nat, f: nat, n: nat, howmuch: nat, exact: bool, i: nat, soFar: nat,
                  out: seq<Vec>)
    requires SetupInv(cs, lwd, f, n, howmuch, exact, i, soFar, out) && i < n && soFar < howmuch
    ensures f + i < |cs| && cs[f + i].Ok()
    ensures var sp := cs[f + i].Space();
            var avail := if sp > howmuch - soFar && exact then howmuch - soFar else sp;
            SetupInv(cs, lwd, f, n, howmuch, exact, i + 1, soFar + avail,
                     out + [Vec(cs[f + i].addr, cs[f + i].misalign + cs[f + i].off, avail)])
  {
    RoomTop(cs, f, n);
    var sp := cs[f + i].Space();
    var avail := if sp > howmuch - soFar && exact then howmuch - soFar else sp;
    var v := Vec(cs[f + i].addr, cs[f + i].misalign + cs[f + i].off, avail);
    assert (out + [v])[..|out|] == out;
    assert Room(cs, f, f + i + 1) == Room(cs, f, f + i) + sp;
  }

  lemma SetupEnd(cs: seq<Chunk>, lwd: nat, f: nat, n: nat, howmuch: nat, exact: bool, i: nat, soFar: nat,
                 out: seq<Vec>)
    requires SetupInv(cs, lwd, f, n, howmuch, exact, i, soFar, out) && (i >= n || soFar >= howmuch)
    ensures soFar >= howmuch && |out| <= n && Fits(cs, f, out) && TotalLen(out) == soFar
    ensures exact ==> soFar == howmuch
  {
    RoomTop(cs, f, n);
  }

  /** What evbuffer_commit_space accepts. */
  ghost predicate Accepts(cs: seq<Chunk>, lwd: nat, vecs: seq<Vec>) {
    || |vecs| == 0
    || (AllOk(cs) && lwd < |cs| && (Fits(cs, |cs| - 1, vecs) || Fits(cs, FirstWithSpace(cs, lwd), vecs)))
  }

  /** evbuffer_reserve_space: n is the number of vectors, or -1; aborted is set when an assertion of
      the source fails. */
  method ReserveSpace(b: Evbuffer, size: nat, nVecs: int) returns (n: int, vecs: seq<Vec>, aborted: bool, ghost f: nat)
    requires b.Valid()
    modifies b
    ensures b.Valid() && b.Contents() == old(b.Contents())
    ensures forall a :: a in Addrs(b.chain) ==> a in old(Addrs(b.chain)) || fresh(a)
    ensures aborted <==> nVecs >= 2 && size == 0 && old(FullAtEnd(b.chain, b.lwd))
    ensures nVecs < 1 <==> n == -1
    ensures nVecs >= 1 && !aborted ==> n == |vecs| <= nVecs && TotalLen(vecs) >= size
    ensures nVecs >= 1 && !aborted ==>
              (Accepts(b.chain, b.lwd, vecs) <==> nVecs >= 2 || !old(Skips(b.chain, b.lwd, size)))
    ensures Fits(b.chain, f, vecs)
    ensures nVecs >= 2 && old(Short(b.chain, b.lwd, nVecs, size)) ==>
              Lengthened(old(b.chain), old(b.lwd), b.chain, b.lwd, size)
  {
    hide Core, Flat, AllOk, Addrs, Distinct, LastData, Room, Short, Lengthened;
    NotShort(b.chain, b.lwd, if nVecs < 0 then 0 else nVecs, size);
    LwdFacts(b.chain, b.lwdp, b.lwd);
    aborted := false;
    if nVecs < 1 {
      NoVecs(b.chain);
      return -1, [], false, 0;
    }
    if nVecs == 1 {
      var r := ExpandSinglechain(b, size);
      LwdFacts(b.chain, b.lwdp, b.lwd);
      var c := b.chain[r];
      n, vecs, f := 1, [Vec(c.addr, c.misalign + c.off, c.Space())], r;
      SingleVec(b.chain, b.lwdp, b.lwd, r, vecs[0]);
    } else {
      ExpandFast(b, size, nVecs);
      var v := ReadSetupVecs(b, size, nVecs, false);
      LwdFacts(b.chain, b.lwdp, b.lwd);
      if v.None? {
        NoVecs(b.chain);
        return 0, [], true, 0;
      }
      n, vecs, f := |v.value|, v.value, FirstWithSpace(b.chain, b.lwd);
    }
  }

  /** One vector is accepted exactly for the last chunk and for the first one with room. */
  lemma SingleVec(cs: seq<Chunk>, lwdp: Link, lwd: nat, r: nat, v: Vec)
    requires Core(cs, lwdp, lwd) && lwd < |cs| && r < |cs| && cs[r].Ok()
    requires v == Vec(cs[r].addr, cs[r].misalign + cs[r].off, cs[r].Space())
    ensures Accepts(cs, lwd, [v]) <==> r == |cs| - 1 || r == FirstWithSpace(cs, lwd)
    ensures TotalLen([v]) == v.len
  {
    assert [v][0] == v;
    assert TotalLen([v][..0]) == 0;
  }

  /** The bytes that lie in the storage the vectors name. */
  ghost function Written(cs: seq<Chunk>, f: nat, vecs: seq<Vec>): seq<u8>
    requires Fits(cs, f, vecs)
  {
    if |vecs| == 0 then [] else
      var k := |vecs| - 1;
      Written(cs, f, vecs[..k]) + cs[f + k].mem[vecs[k].at..vecs[k].at + vecs[k].len]
  }

  function Committed(c: Chunk, len: nat): Chunk {
    c.(off := c.off + len)
  }

  /** Bytes already in the free space of a chunk with nothing behind it become data. */
  lemma CommitChunk(cs: seq<Chunk>, lwdp: Link, lwd: nat, i: nat, len: nat, chp: Link)
    requires Core(cs, lwdp, lwd) && lwd <= i < |cs| && cs[i].Ok() && len <= cs[i].Space() && Points(cs, chp, i)
    ensures Committed(cs[i], len).Ok()
    ensures var e := cs[i := Committed(cs[i], len)];
            var at := cs[i].misalign + cs[i].off;
            && AllOk(cs) && AllOk(e) && Distinct(e) && Points(e, lwdp, lwd) && (lwd > 0 ==> e[lwd].off > 0)
            && (len == 0 ==> Core(e, lwdp, lwd)) && (len > 0 ==> Core(e, chp, i))
            && Flat(e) == Flat(cs) + cs[i].mem[at..at + len] && Addrs(e) == Addrs(cs) && Last(e) == Last(cs)
  {
    hide Core, Flat, AllOk, Addrs, Distinct, LastData, Points;
    CoreFacts(cs, lwdp, lwd, i);
    var c := Committed(cs[i], len);
    var at := cs[i].misalign + cs[i].off;
    CommittedFacts(cs[i], len);
    CommitBytes(cs, lwd, i, c, cs[i].mem[at..at + len]);
    CommitCore(cs, lwdp, lwd, i, c, chp);
  }

  lemma CommittedFacts(c: Chunk, len: nat)
    requires c.Ok() && len <= c.Space()
    ensures Committed(c, len).Ok() && Committed(c, len).addr == c.addr && Committed(c, len).off == c.off + len
    ensures var at := c.misalign + c.off; Committed(c, len).Data() == c.Data() + c.mem[at..at + len]
  {
    var at := c.misalign + c.off;
    assert c.mem[c.misalign..at + len] == c.mem[c.misalign..at] + c.mem[at..at + len];
  }

  lemma CommitCore(cs: seq<Chunk>, lwdp: Link, lwd: nat, i: nat, c: Chunk, chp: Link)
    requires Core(cs, lwdp, lwd) && lwd <= i < |cs| && Points(cs, chp, i)
    requires c.off >= cs[i].off && c.addr == cs[i].addr && AllOk(cs[i := c]) && Distinct(cs[i := c])
    ensures var e := cs[i := c];
            && Points(e, lwdp, lwd) && (lwd > 0 ==> e[lwd].off > 0) && Last(e) == Last(cs)
            && (c.off == cs[i].off ==> Core(e, lwdp, lwd)) && (c.off > cs[i].off ==> Core(e, chp, i))
  {
    hide Flat, AllOk, Addrs, Distinct;
    var e := cs[i := c];
    if c.off > cs[i].off {
      assert LastData(e, i);
    } else {
      assert LastData(e, lwd);
    }
  }

  lemma CommitBytes(cs: seq<Chunk>, lwd: nat, i: nat, c: Chunk, src: seq<u8>)
    requires AllOk(cs) && Distinct(cs) && LastData(cs, lwd) && lwd <= i < |cs|
    requires c.Ok() && c.addr == cs[i].addr && c.Data() == cs[i].Data() + src
    ensures AllOk(cs[i := c]) && Distinct(cs[i := c])
    ensures Flat(cs[i := c]) == Flat(cs) + src && Addrs(cs[i := c]) == Addrs(cs)
  {
    FlatSet(cs, i, c);
    FlatSplit(cs, i);
    FlatEmpties(cs[i + 1..]);
  }

  /** The state of the second pass of evbuffer_commit_space in front of vector j. */
  ghost predicate CommitInv(cs0: seq<Chunk>, f: nat, vecs: seq<Vec>, j: nat, cs: seq<Chunk>, lwdp: Link, lwd: nat)
  {
    && Fits(cs0, f, vecs) && j <= |vecs| && |cs| == |cs0|
    && Core(cs, lwdp, lwd) && lwd < |cs| && (lwd < f + j || lwd == f)
    && (forall k {:trigger cs[k]} :: f + j <= k < |cs| ==> cs[k] == cs0[k])
    && (forall k {:trigger cs[k].addr} :: 0 <= k < |cs| ==> cs[k].addr == cs0[k].addr)
    && Fits(cs0, f, vecs[..j]) && Flat(cs) == Flat(cs0) + Written(cs0, f, vecs[..j])
    && Last(cs) == Last(cs0)
  }

  lemma CommitStart(cs: seq<Chunk>, lwdp: Link, lwd: nat, f: nat, vecs: seq<Vec>)
    requires Core(cs, lwdp, lwd) && lwd < |cs| && Fits(cs, f, vecs) && (lwd == f || f == lwd + 1)
    ensures CommitInv(cs, f, vecs, 0, cs, lwdp, lwd)
  {
    assert vecs[..0] == [];
  }

  lemma CommitStep(cs0: seq<Chunk>, f: nat, vecs: seq<Vec>, j: nat, cs: seq<Chunk>, lwdp: Link, lwd: nat, chp: Link)
    requires CommitInv(cs0, f, vecs, j, cs, lwdp, lwd) && j < |vecs| && Points(cs, chp, f + j) && lwd <= f + j
    ensures cs[f + j].Ok()
    ensures var e := cs[f + j := Committed(cs[f + j], vecs[j].len)];
            && Points(e, NextOf(e[f + j].addr), f + j + 1)
            && AllOk(cs) && AllOk(e) && Addrs(e) == Addrs(cs) && |Flat(e)| == |Flat(cs)| + vecs[j].len
            && (vecs[j].len == 0 ==> CommitInv(cs0, f, vecs, j + 1, e, lwdp, lwd))
            && (vecs[j].len > 0 ==> CommitInv(cs0, f, vecs, j + 1, e, chp, f + j))
  {
    hide Core, Flat, AllOk, Addrs, Distinct, LastData, Points, Written, Last, Fits;
    var i := f + j;
    FitsOk(cs0, f, vecs);
    WrittenNext(cs0, f, vecs, j);
    CoreFacts(cs, lwdp, lwd, i);
    assert cs[i] == cs0[i];
    CommitChunk(cs, lwdp, lwd, i, vecs[j].len, chp);
    PointsNext(cs[i := Committed(cs[i], vecs[j].len)], i);
    var piece := cs[i].mem[vecs[j].at..vecs[j].at + vecs[j].len];
    Assoc(Flat(cs0), Written(cs0, f, vecs[..j]), piece);
    var e := cs[i := Committed(cs[i], vecs[j].len)];
    assert Flat(e) == Flat(cs0) + Written(cs0, f, vecs[..j + 1]);
  }

  lemma FitsOk(cs: seq<Chunk>, f: nat, vecs: seq<Vec>)
    requires Fits(cs, f, vecs)
    ensures AllOk(cs) && f + |vecs| <= |cs|
  {
  }

  lemma PointsNext(cs: seq<Chunk>, i: nat)
    requires i < |cs|
    ensures Points(cs, NextOf(cs[i].addr), i + 1)
  {
  }

  lemma WrittenNext(cs: seq<Chunk>, f: nat, vecs: seq<Vec>, j: nat)
    requires Fits(cs, f, vecs) && j < |vecs|
    ensures Fits(cs, f, vecs[..j]) && Fits(cs, f, vecs[..j + 1])
    ensures cs[f + j].Ok() && vecs[j].at == cs[f + j].misalign + cs[f + j].off && vecs[j].len <= cs[f + j].Space()
    ensures Written(cs, f, vecs[..j + 1])
         == Written(cs, f, vecs[..j]) + cs[f + j].mem[vecs[j].at..vecs[j].at + vecs[j].len]
  {
    assert vecs[..j + 1][..j] == vecs[..j];
  }

  /** Does vector v name the free space of chunk c? */
  predicate NamesSpace(v: Vec, c: Chunk)
  {
    v.addr == c.addr && v.at == c.misalign + c.off
  }

  /** The first pass of evbuffer_commit_space: are all vectors in bounds? */
  method CheckVecs(cs: seq<Chunk>, f: nat, vecs: seq<Vec>) returns (ok: bool)
    requires AllOk(cs) && f <= |cs|
    ensures ok <==> Fits(cs, f, vecs)
  {
    var i := 0;
    while i < |vecs|
      invariant i <= |vecs| && f + i <= |cs| && Fits(cs, f, vecs[..i])
    {
      if f + i == |cs| || !NamesSpace(vecs[i], cs[f + i]) || vecs[i].len > cs[f + i].Space() {
        return false;
      }
      assert forall j {:trigger vecs[..i + 1][j]} :: 0 <= j < i ==> vecs[..i + 1][j] == vecs[..i][j];
      i := i + 1;
    }
    assert vecs[..i] == vecs;
    ok := true;
  }

  /** evbuffer_commit_space */
  method CommitSpace(b: Evbuffer, vecs: seq<Vec>) returns (result: int)
    requires b.Valid()
    modifies b
    ensures b.Valid() && Addrs(b.chain) == old(Addrs(b.chain))
    ensures result == (if old(Accepts(b.chain, b.lwd, vecs)) then 0 else -1)
    ensures result == -1 ==> b.chain == old(b.chain)
    ensures result == 0 ==>
              exists f: nat {:trigger Fits(old(b.chain), f, vecs)} ::
                Fits(old(b.chain), f, vecs) && b.Contents() == old(b.Contents()) + Written(old(b.chain), f, vecs)
  {
    hide Core, Flat, AllOk, Addrs, Distinct, LastData, Written;
    var cs := b.chain;
    LwdFacts(cs, b.lwdp, b.lwd);
    NoVecs(cs);
    if |vecs| == 0 {
      assert vecs == [];
      assert b.Contents() == b.Contents() + Written(cs, 0, []);
      return 0;
    }
    if |cs| == 0 {
      return -1;
    }
    OkAt(cs, |cs| - 1);
    if |vecs| == 1 && NamesSpace(vecs[0], cs[|cs| - 1]) {
      result := CommitLast(b, vecs);
    } else {
      var first := Evbuffer.Deref(cs, b.lwdp, b.lwd);
      var chainp := b.lwdp;
      if cs[first].Space() == 0 {
        chainp := NextOf(cs[first].addr);
        first := first + 1;
      }
      var ok := CheckVecs(cs, first, vecs);
      NotLast(cs, vecs);
      if !ok {
        return -1;
      }
      CommitVecs(b, first, vecs, chainp);
      result := 0;
    }
  }

  lemma NoVecs(cs: seq<Chunk>)
    requires AllOk(cs)
    ensures Fits(cs, 0, []) && Written(cs, 0, []) == []
  {
  }

  lemma NotLast(cs: seq<Chunk>, vecs: seq<Vec>)
    requires |cs| > 0 && |vecs| > 0 && (|vecs| == 1 ==> !NamesSpace(vecs[0], cs[|cs| - 1]))
    ensures !Fits(cs, |cs| - 1, vecs)
  {
  }

  /** evbuffer_commit_space, when the one vector names the free space of the last chunk. */
  method CommitLast(b: Evbuffer, vecs: seq<Vec>) returns (result: int)
    requires b.Valid() && |b.chain| > 0 && |vecs| == 1 && b.chain[|b.chain| - 1].Ok()
    requires NamesSpace(vecs[0], b.chain[|b.chain| - 1])
    modifies b
    ensures b.Valid() && Addrs(b.chain) == old(Addrs(b.chain))
    ensures result == (if old(Accepts(b.chain, b.lwd, vecs)) then 0 else -1)
    ensures result == -1 ==> b.chain == old(b.chain)
    ensures result == 0 ==>
              exists f: nat {:trigger Fits(old(b.chain), f, vecs)} ::
                Fits(old(b.chain), f, vecs) && b.Contents() == old(b.Contents()) + Written(old(b.chain), f, vecs)
  {
    hide Core, Flat, AllOk, Addrs, Distinct, LastData, Written, Points;
    var cs := b.chain;
    var k, len := |cs| - 1, vecs[0].len;
    LwdFacts(cs, b.lwdp, b.lwd);
    LastVec(cs, b.lwdp, b.lwd, vecs);
    if len > cs[k].Space() {
      return -1;
    }
    WrittenOne(cs, k, vecs);
    CommitChunk(cs, b.lwdp, b.lwd, k, len, if k == 0 then First else NextOf(cs[k - 1].addr));
    b.chain := cs[k := Committed(cs[k], len)];
    if len > 0 {
      var _ := b.AdvanceLastWithData();
    }
    b.totalLen := b.totalLen + len;
    result := 0;
  }

  lemma LastVec(cs: seq<Chunk>, lwdp: Link, lwd: nat, vecs: seq<Vec>)
    requires Core(cs, lwdp, lwd) && |cs| > 0 && |vecs| == 1 && lwd < |cs| && cs[lwd].Ok() && cs[|cs| - 1].Ok()
    requires NamesSpace(vecs[0], cs[|cs| - 1])
    ensures Accepts(cs, lwd, vecs) <==> vecs[0].len <= cs[|cs| - 1].Space()
    ensures Points(cs, if |cs| == 1 then First else NextOf(cs[|cs| - 2].addr), |cs| - 1)
  {
    var f := FirstWithSpace(cs, lwd);
    if Fits(cs, f, vecs) {
      assert cs[f].addr == cs[|cs| - 1].addr;
    }
    assert vecs[0].len <= cs[|cs| - 1].Space() ==> Fits(cs, |cs| - 1, vecs);
  }

  lemma WrittenOne(cs: seq<Chunk>, f: nat, vecs: seq<Vec>)
    requires AllOk(cs) && f < |cs| && |vecs| == 1 && cs[f].Ok() && NamesSpace(vecs[0], cs[f]) && vecs[0].len <= cs[f].Space()
    ensures Fits(cs, f, vecs) && Written(cs, f, vecs) == cs[f].mem[vecs[0].at..vecs[0].at + vecs[0].len]
  {
    WrittenNext(cs, f, vecs, 0);
    assert vecs[..1] == vecs && vecs[..0] == [];
  }

  /** The second pass of evbuffer_commit_space. */
  method CommitVecs(b: Evbuffer, first: nat, vecs: seq<Vec>, start: Link)
    requires b.Valid() && b.lwd < |b.chain| && Fits(b.chain, first, vecs)
    requires (first == b.lwd || first == b.lwd + 1) && Points(b.chain, start, first)
    modifies b
    ensures b.Valid() && Addrs(b.chain) == old(Addrs(b.chain))
    ensures b.Contents() == old(b.Contents()) + Written(old(b.chain), first, vecs)
  {
    hide Core, Flat, AllOk, Addrs, Distinct, LastData, Written, Points;
    ghost var cs0 := b.chain;
    var cs, lwdp, chainp, i: nat, added: nat := b.chain, b.lwdp, start, 0, 0;
    ghost var lwd: nat := b.lwd;
    CommitStart(cs, lwdp, lwd, first, vecs);
    while i < |vecs|
      invariant CommitInv(cs0, first, vecs, i, cs, lwdp, lwd) && Points(cs, chainp, first + i)
      invariant AllOk(cs) && AllOk(cs0)
      invariant lwd <= first + i && Addrs(cs) == Addrs(cs0) && |Flat(cs)| == |Flat(cs0)| + added
      modifies {}
    {
      CommitStep(cs0, first, vecs, i, cs, lwdp, lwd, chainp);
      cs := cs[first + i := Committed(cs[first + i], vecs[i].len)];
      added := added + vecs[i].len;
      if vecs[i].len > 0 {
        lwdp := chainp;
        lwd := first + i;
      }
      chainp := NextOf(cs[first + i].addr);
      i := i + 1;
    }
    b.chain, b.lwdp, b.lwd := cs, lwdp, lwd;
    b.totalLen := b.totalLen + added;
    assert vecs[..i] == vecs;
  }

  /** A list from which a reservation of 100 bytes in one vector cannot be committed: the second
      chunk is handed out, but only the first or the third would be taken back. */
  lemma RefusedReservation(a: Addr, b: Addr, c: Addr, m: seq<u8>)
    requires a != b && b != c && a != c && |m| == MIN_BUFFER_SIZE - CHAIN_SIZE
    ensures var cs := [Chunk(a, m, 0, 900), Chunk(b, m, 0, 0), Chunk(c, m, 0, 0)];
            && Core(cs, First, 0) && Skips(cs, 0, 100)
            && !Accepts(cs, 0, [Vec(b, 0, 100)])
  {
    var cs := [Chunk(a, m, 0, 900), Chunk(b, m, 0, 0), Chunk(c, m, 0, 0)];
    var v := [Vec(b, 0, 100)];
    assert cs[1].addr == b && cs[2].addr == c && v[0].addr == b;
    assert FirstWithSpace(cs, 0) == 0;
  }

  /** A list for which reserving no bytes in several vectors fails an assertion of the source. */
  lemma FailedReservation(a: Addr, m: seq<u8>)
    requires |m| == MIN_BUFFER_SIZE - CHAIN_SIZE
    ensures var cs := [Chunk(a, m, 0, |m|)]; Core(cs, First, 0) && FullAtEnd(cs, 0)
  {
  }
}
