/** The chained byte buffer: its operations on one buffer. */
module Evbuffers {
  import opened Bytes
  import opened Chunks
  import opened Options

  const SSIZE_MAX: nat := 0x7fff_ffff_ffff_ffff

  /** evbuffer_ptr: an offset, with the chunk and the place in the chunk where it falls. */
  datatype Ptr = Ptr(pos: int, chunk: Addr?, inChunk: nat)

  /** p is a position in cs that falls in chunk k, or behind the last chunk. */
  ghost predicate PtrAt(cs: seq<Chunk>, p: Ptr, k: nat)
    requires AllOk(cs)
  {
    && k <= |cs|
    && AllOk(cs[..k])
    && p.pos == |Flat(cs[..k])| + p.inChunk
    && (if k < |cs| then p.chunk == cs[k].addr && p.inChunk < cs[k].off else p.chunk == null && p.inChunk == 0)
  }

  function Min(a: nat, b: nat): nat {
    if a <= b then a else b
  }

  class Evbuffer {
    /** The linked list of chunks: first is chain[0], next of chain[i] is chain[i + 1]. */
    var chain: seq<Chunk>
    var last: Addr?
    /** last_with_datap */
    var lwdp: Link
    var totalLen: nat
    /** The place lwdp points to. */
    ghost var lwd: nat

    ghost predicate Valid()
      reads this
    {
      && Core(chain, lwdp, lwd)
      && last == Last(chain)
      && totalLen == |Flat(chain)|
    }

    ghost function Contents(): seq<u8>
      requires AllOk(chain)
      reads this`chain
    {
      Flat(chain)
    }

    constructor ()
      ensures Valid() && chain == [] && Contents() == []
    {
      chain, last, lwdp, totalLen, lwd := [], null, First, 0, 0;
    }

    /** Follows a link: the place it points to. */
    static method Deref(cs: seq<Chunk>, l: Link, ghost k: nat) returns (i: nat)
      requires Distinct(cs) && Points(cs, l, k)
      ensures i == k
    {
      i := 0;
      if l.NextOf? {
        while cs[i].addr != l.addr
          invariant i < k
          decreases k - i
        {
          i := i + 1;
        }
        i := i + 1;
      }
    }

    /** Follows a pointer to a chunk. */
    static method Follow(cs: seq<Chunk>, a: Addr?, ghost k: nat) returns (i: nat)
      requires Distinct(cs) && k <= |cs| && a == if k < |cs| then cs[k].addr else null
      ensures i == k
    {
      i := 0;
      while i < |cs| && cs[i].addr != a
        invariant i <= k
      {
        i := i + 1;
      }
    }

    /** Drops the empty chunks at the end; returns the link to where a new chunk goes. */
    method FreeTrailingEmptyChains() returns (chp: Link)
      requires Core(chain, lwdp, lwd)
      modifies this`chain
      ensures chain == old(chain[..Kept(chain, lwd)])
      ensures Core(chain, lwdp, lwd) && Flat(chain) == old(Flat(chain))
      ensures Points(chain, chp, |chain|)
      ensures Addrs(chain) <= old(Addrs(chain))
    {
      hide Flat, AllOk, Addrs;
      var cs := chain;
      chp := lwdp;
      var i := Deref(cs, chp, lwd);
      while i < |cs| && cs[i].off != 0
        invariant Points(cs, chp, i) && (i == lwd || i == Kept(cs, lwd))
        invariant lwd <= i <= |cs|
      {
        chp := NextOf(cs[i].addr);
        i := i + 1;
      }
      assert i == Kept(cs, lwd);
      CutTail(cs, lwdp, lwd, i);
      chain := cs[..i];
    }

    /** evbuffer_chain_insert: appends chunk c, freeing empty chunks at the end. */
    method ChainInsert(c: Chunk)
      requires Valid()
      requires c.Ok() && c.addr !in Addrs(chain)
      modifies this
      ensures Valid()
      ensures chain == old(chain[..Kept(chain, lwd)]) + [c]
      ensures Contents() == old(Contents()) + c.Data()
      ensures c.off > 0 || |chain| == 1 ==> lwd == |chain| - 1
      ensures Addrs(chain) <= old(Addrs(chain)) + {c.addr}
    {
      hide Flat, AllOk, Addrs, Distinct, LastData;
      var i := Deref(chain, lwdp, lwd);
      LwdFacts(chain, lwdp, lwd);
      if i == |chain| {
        PushLast(chain, lwdp, lwd, c, First);
        chain, last := chain + [c], c.addr;
      } else {
        var chp := FreeTrailingEmptyChains();
        LwdFacts(chain, lwdp, lwd);
        PushLast(chain, lwdp, lwd, c, chp);
        if c.off != 0 {
          lwdp := chp;
          lwd := |chain|;
        }
        chain, last := chain + [c], c.addr;
      }
      totalLen := totalLen + c.off;
    }

    /** advance_last_with_data: moves lwdp on to the last chunk with data; returns how many
        chunks there are behind the one it started from. */
    method AdvanceLastWithData() returns (n: nat)
      requires AllOk(chain) && Distinct(chain) && Points(chain, lwdp, lwd)
      requires if |chain| == 0 then lwd == 0 else lwd < |chain|
      requires lwd > 0 ==> chain[lwd].off > 0
      modifies this`lwdp, this`lwd
      ensures Core(chain, lwdp, lwd)
      ensures |chain| > 0 ==> n == |chain| - 1 - old(lwd)
    {
      hide Flat, AllOk, Addrs, Distinct;
      var cs := chain;
      var start := Deref(cs, lwdp, lwd);
      n := 0;
      if start == |cs| {
        return;
      }
      var i := start;
      while i + 1 < |cs|
        invariant start <= lwd <= i < |cs| && n == i - start
        invariant Points(cs, lwdp, lwd) && (lwd > 0 ==> cs[lwd].off > 0)
        invariant forall j {:trigger cs[j]} :: lwd < j <= i ==> cs[j].off == 0
      {
        i := i + 1;
        if cs[i].off != 0 {
          lwdp := NextOf(cs[i - 1].addr);
          lwd := i;
        }
        n := n + 1;
      }
    }

    /** evbuffer_add */
    method Add(src: seq<u8>) returns (ok: bool)
      requires Valid()
      modifies this
      ensures Valid()
      ensures forall a :: a in Addrs(chain) ==> a in old(Addrs(chain)) || fresh(a)
      ensures ok == (old(totalLen) + |src| <= SIZE_MAX)
      ensures Contents() == if ok then old(Contents()) + src else old(Contents())
      ensures ok && old(chain) == [] && |src| <= SMALLEST ==> |chain| == 1 && chain[0].Small(|src|) && lwd == 0
    {
      hide Flat, AllOk, Addrs, Distinct, LastData;
      LwdFacts(chain, lwdp, lwd);
      if |src| > SIZE_MAX - totalLen {
        return false;
      }
      ok := true;
      var i := Deref(chain, lwdp, lwd);
      if i == |chain| {
        var fst := NewChunk(|src|, Addrs(chain));
        ChainInsert(fst);
        LwdFacts(chain, lwdp, lwd);
        assert chain == [fst];
        i := |chain| - 1;
      }
      AddToChunk(i, src);
    }

    /** evbuffer_add, once the last chunk with data is known to exist. */
    method AddToChunk(i: nat, src: seq<u8>)
      requires Valid() && i == lwd < |chain| && chain[i].Ok()
      modifies this
      ensures Valid()
      ensures forall a :: a in Addrs(chain) ==> a in old(Addrs(chain)) || fresh(a)
      ensures Contents() == old(Contents()) + src
      ensures old(chain[i].Space()) >= |src| ==> chain == old(chain)[i := old(chain)[i].Append(src)] && lwd == old(lwd)
    {
      hide Core, Flat, AllOk, Addrs, Distinct, LastData, Points;
      LwdFacts(chain, lwdp, lwd);
      var c := chain[i];
      var remain := c.Space();
      if remain >= |src| {
        GrowTail(i, c.Append(src), src);
      } else if c.ShouldRealign(|src|) {
        GrowTail(i, c.Align().Append(src), src);
      } else {
        Spill(i, src);
      }
    }

    /** The last chunk with data with src put behind its data. */
    method GrowTail(i: nat, c: Chunk, src: seq<u8>)
      requires Valid() && i == lwd < |chain| && chain[i].Ok()
      requires c.Ok() && c.addr == chain[i].addr && c.Data() == chain[i].Data() + src
      modifies this`chain, this`totalLen
      ensures Valid() && Addrs(chain) == old(Addrs(chain)) && chain == old(chain)[i := c]
      ensures Contents() == old(Contents()) + src
    {
      GrowLast(chain, lwdp, lwd, c, src);
      hide Core, Flat, AllOk, Addrs, Distinct, LastData, Points;
      chain := chain[i := c];
      totalLen := totalLen + |src|;
    }

    /** evbuffer_add, when the data runs over the end of the last chunk with data. */
    method Spill(i: nat, src: seq<u8>)
      requires Valid() && i == lwd < |chain| && chain[i].Ok() && chain[i].Space() < |src|
      modifies this
      ensures Valid()
      ensures forall a :: a in Addrs(chain) ==> a in old(Addrs(chain)) || fresh(a)
      ensures Contents() == old(Contents()) + src
    {
      hide Core, Flat, AllOk, Addrs, Distinct, LastData, Points;
      LwdFacts(chain, lwdp, lwd);
      var c := chain[i];
      var remain := c.Space();
      var toAlloc := |c.mem|;
      if toAlloc <= MAX_AUTO_SIZE / 2 {
        toAlloc := 2 * toAlloc;
      }
      if |src| > toAlloc {
        toAlloc := |src|;
      }
      var tmp := NewChunk(toAlloc, Addrs(chain));
      ghost var whole := Contents();
      assert src == src[..remain] + src[remain..];
      Assoc(whole, src[..remain], src[remain..]);
      GrowTail(i, c.Append(src[..remain]), src[..remain]);
      ChainInsert(tmp.Append(src[remain..]));
    }

    /** evbuffer_prepend */
    method Prepend(src: seq<u8>) returns (ok: bool)
      requires Valid()
      modifies this
      ensures Valid()
      ensures forall a :: a in Addrs(chain) ==> a in old(Addrs(chain)) || fresh(a)
      ensures ok == (|src| == 0 || old(totalLen) + |src| <= SIZE_MAX)
      ensures Contents() == if ok then src + old(Contents()) else old(Contents())
    {
      hide Flat, AllOk, Addrs, Distinct, LastData;
      LwdFacts(chain, lwdp, lwd);
      if |src| == 0 {
        assert src + Contents() == Contents();
        return true;
      }
      if |src| > SIZE_MAX - totalLen {
        return false;
      }
      ok := true;
      if |chain| == 0 {
        var fst := NewChunk(|src|, Addrs(chain));
        ChainInsert(fst);
        LwdFacts(chain, lwdp, lwd);
      }
      PrependToChunk(src);
    }

    /** evbuffer_prepend, once there is a first chunk. */
    method PrependToChunk(src: seq<u8>)
      requires Valid() && |chain| > 0 && chain[0].Ok() && |src| > 0
      modifies this
      ensures Valid()
      ensures forall a :: a in Addrs(chain) ==> a in old(Addrs(chain)) || fresh(a)
      ensures Contents() == src + old(Contents())
    {
      hide Core, Flat, AllOk, Addrs, Distinct, LastData, Points, Chunk.PutBefore, Chunk.Data;
      LwdFacts(chain, lwdp, lwd);
      var c := chain[0];
      if c.off == 0 {
        c := c.(misalign := |c.mem|);
      }
      assert c.Data() == chain[0].Data();
      var m := c.misalign;
      if m >= |src| {
        GrowChunk(c.PutBefore(src), src);
      } else if m > 0 {
        var k := |src| - m;
        ghost var whole := Contents();
        GrowChunk(c.PutBefore(src[k..]), src[k..]);
        PrependChunk(src[..k]);
        Assoc(src[..k], src[k..], whole);
        assert src == src[..k] + src[k..];
      } else {
        PrependChunk(src);
      }
    }

    /** The first chunk with src put before its data. */
    method GrowChunk(c: Chunk, src: seq<u8>)
      requires Valid() && |chain| > 0 && chain[0].Ok()
      requires c.Ok() && c.addr == chain[0].addr && c.Data() == src + chain[0].Data()
      modifies this`chain, this`totalLen
      ensures Valid() && |chain| > 0 && Addrs(chain) == old(Addrs(chain))
      ensures Contents() == src + old(Contents())
    {
      GrowFirst(chain, lwdp, lwd, c, src);
      hide Core, Flat, AllOk, Addrs, Distinct, LastData, Points;
      chain := chain[0 := c];
      totalLen := totalLen + |src|;
    }

    /** evbuffer_prepend: the bytes that go into a new first chunk. */
    method PrependChunk(src: seq<u8>)
      requires Valid() && |chain| > 0 && |src| > 0
      modifies this
      ensures Valid()
      ensures forall a :: a in Addrs(chain) ==> a in old(Addrs(chain)) || fresh(a)
      ensures Contents() == src + old(Contents())
    {
      hide Flat, AllOk, Addrs, Distinct, LastData;
      var tmp := NewChunk(|src|, Addrs(chain));
      tmp := tmp.(misalign := |tmp.mem|).PutBefore(src);
      PushFirst(chain, lwdp, lwd, tmp);
      if lwd > 0 || chain[0].off != 0 {
        lwd := lwd + 1;
      }
      if lwdp == First && chain[0].off != 0 {
        lwdp := NextOf(tmp.addr);
      }
      chain := [tmp] + chain;
      totalLen := totalLen + |src|;
    }

    /** evbuffer_drain */
    method Drain(len: nat)
      requires Valid()
      modifies this
      ensures Valid()
      ensures Addrs(chain) <= old(Addrs(chain))
      ensures Contents() == old(Contents())[Min(len, old(totalLen))..]
    {
      hide Flat, AllOk, Addrs, Distinct, LastData;
      if totalLen == 0 {
      } else if len >= totalLen {
        assert Flat([]) == [] && AllOk([]) by {
          EmptyList();
        }
        EmptyList();
        chain, last, lwdp, totalLen, lwd := [], null, First, 0, 0;
      } else {
        DrainChunks(len);
      }
    }

    /** evbuffer_drain, when data remains. */
    method DrainChunks(len: nat)
      requires Valid() && len < totalLen
      modifies this
      ensures Valid()
      ensures Addrs(chain) <= old(Addrs(chain))
      ensures Contents() == old(Contents())[len..]
    {
      hide Flat, AllOk, Addrs, Distinct, LastData;
      LwdFacts(chain, lwdp, lwd);
      var cs := chain;
      ghost var k := lwd;
      DrainStart(cs, lwdp, lwd);
      var l, i := lwdp, 0;
      var remaining: nat := len;
      while remaining >= cs[i].off
        invariant DrainInv(cs, lwdp, lwd, len, l, i, remaining)
        decreases lwd - i
        modifies {}
      {
        DrainStep(cs, lwdp, lwd, len, l, i, remaining);
        remaining := remaining - cs[i].off;
        var t := Deref(cs, l, if i < lwd then lwd else 0);
        if i == t {
          l := First;
        }
        if l == NextOf(cs[i].addr) {
          l := First;
        }
        i := i + 1;
      }
      DrainEnd(cs, lwdp, lwd, len, l, i, remaining);
      totalLen := totalLen - len;
      chain, lwdp, lwd := [cs[i].Skip(remaining)] + cs[i + 1..], l, lwd - i;
    }

    /** evbuffer_copyout_from: copies up to datlen bytes, from pos or from the start. */
    method CopyoutFrom(pos: Option<Ptr>, datlen: nat, ghost k: nat) returns (n: int, out: seq<u8>)
      requires Valid()
      requires pos.Some? ==> PtrAt(chain, pos.value, k)
      ensures n == -1 <==> pos.Some? && datlen > SSIZE_MAX - pos.value.pos
      ensures n == -1 ==> out == []
      ensures n != -1 ==>
                var start := if pos.Some? then pos.value.pos else 0;
                0 <= start <= |Contents()| && n == |out| == Min(datlen, |Contents()| - start)
                && out == Contents()[start..start + n]
    {
      hide Flat, AllOk, Addrs, Distinct, LastData;
      LwdFacts(chain, lwdp, lwd);
      var cs, i, posInChain, left, start := chain, 0, 0, datlen, 0;
      DrainStart(cs, lwdp, lwd);
      if pos.Some? {
        PtrFacts(cs, pos.value, k);
        if datlen > SSIZE_MAX - pos.value.pos {
          return -1, [];
        }
        i := Follow(cs, pos.value.chunk, k);
        posInChain := pos.value.inChunk;
        start := pos.value.pos;
        if datlen + pos.value.pos > totalLen {
          left := totalLen - pos.value.pos;
        }
      } else if datlen > totalLen {
        left := totalLen;
      }
      n := left;
      out := CopyChunks(cs, i, posInChain, left);
    }

    /** The copying loop of evbuffer_copyout_from. */
    static method CopyChunks(cs: seq<Chunk>, at: nat, inChunk: nat, datlen: nat) returns (out: seq<u8>)
      requires AllOk(cs) && at <= |cs| && AllOk(cs[..at])
      requires if at < |cs| then inChunk <= cs[at].off else inChunk == 0
      requires |Flat(cs[..at])| + inChunk + datlen <= |Flat(cs)|
      ensures var p := |Flat(cs[..at])| + inChunk; out == Flat(cs)[p..p + datlen]
    {
      hide Flat, AllOk;
      ghost var p := |Flat(cs[..at])| + inChunk;
      var i, posInChain: nat, left: nat := at, inChunk, datlen;
      out := [];
      CopyPlace(cs, i, posInChain, left);
      while left > 0 && left >= cs[i].off - posInChain
        invariant CopyInv(cs, i, posInChain, left, p, out) && p + datlen == p + |out| + left
        decreases |cs| - i
      {
        CopyStep(cs, i, posInChain, left, p, out);
        var copylen := cs[i].off - posInChain;
        out := out + cs[i].Data()[posInChain..posInChain + copylen];
        left := left - copylen;
        i, posInChain := i + 1, 0;
      }
      if left > 0 {
        OkAt(cs, i);
        FlatWindow(cs, i, posInChain, posInChain + left);
        JoinSlices(Flat(cs), p, p + |out|, p + |out| + left);
        out := out + cs[i].Data()[posInChain..posInChain + left];
      }
    }

    /** evbuffer_remove */
    method Remove(datlen: nat) returns (n: int, out: seq<u8>)
      requires Valid()
      modifies this
      ensures Valid()
      ensures Addrs(chain) <= old(Addrs(chain))
      ensures n == |out| == Min(datlen, |old(Contents())|)
      ensures old(Contents()) == out + Contents()
    {
      hide Flat, AllOk, Addrs, Distinct, LastData;
      ghost var was := Contents();
      n, out := CopyoutFrom(None, datlen, 0);
      assert was == was[..n] + was[n..];
      if n > 0 {
        Drain(n);
      }
    }

    /** evbuffer_pullup: makes the first size bytes (all, when size is negative) contiguous. */
    method Pullup(size: int) returns (ok: bool)
      requires Valid()
      modifies this
      ensures Valid() && Contents() == old(Contents()) && totalLen == old(totalLen)
      ensures forall a :: a in Addrs(chain) ==> a in old(Addrs(chain)) || fresh(a)
      ensures var want := if size < 0 then totalLen else size;
              && ok == (0 < want <= totalLen)
              && (ok ==> |chain| > 0 && chain[0].Ok() && want <= chain[0].off)
              && (ok ==> chain[0].Data()[..want] == Contents()[..want])
    {
      hide Flat, AllOk, Addrs, Distinct, LastData;
      LwdFacts(chain, lwdp, lwd);
      DrainStart(chain, lwdp, lwd);
      var want := if size < 0 then totalLen else size;
      if want == 0 || want > totalLen {
        return false;
      }
      ok := true;
      if chain[0].off < want {
        PullChunks(want);
      }
      assert AllOk(chain) by { LwdFacts(chain, lwdp, lwd); }
      DrainStart(chain, lwdp, lwd);
      FlatWindow(chain, 0, 0, want);
    }

    /** The loop of evbuffer_pullup: moves the data of whole chunks, from s on, into t. */
    static method PullLoop(cs: seq<Chunk>, lwdp: Link, ghost lwd: nat, t: Chunk, s: nat, ghost want: nat, n: nat)
      returns (tmp: Chunk, i: nat, size: nat, removedLwd: bool, removedLwdp: bool)
      requires Core(cs, lwdp, lwd) && |cs| > 0 && cs[0].off < want <= |Flat(cs)|
      requires t.Ok() && |t.mem| - t.misalign >= want && s <= 1
      requires s == 1 ==> t == cs[0] && n == want - cs[0].off
      requires s == 0 ==> t.Data() == [] && t.addr !in Addrs(cs) && n == want
      ensures tmp.addr == t.addr
      ensures PullInv(cs, lwdp, lwd, s, want, tmp, i, size, removedLwd, removedLwdp)
      ensures i < |cs| ==> size < cs[i].off
    {
      hide Flat, AllOk, Addrs, Distinct, LastData;
      LwdFacts(cs, lwdp, lwd);
      tmp, i, size := t, s, n;
      PullStart(cs, lwdp, lwd, s, want, tmp, size);
      var lastWithData := Deref(cs, lwdp, lwd);
      removedLwd, removedLwdp := false, false;
      while i < |cs| && size >= cs[i].off
        invariant tmp.addr == t.addr
        invariant PullInv(cs, lwdp, lwd, s, want, tmp, i, size, removedLwd, removedLwdp)
        decreases |cs| - i
      {
        PullStep(cs, lwdp, lwd, s, want, tmp, i, size, removedLwd, removedLwdp);
        tmp := tmp.Append(cs[i].Data());
        size := size - cs[i].off;
        if cs[i].addr == cs[lastWithData].addr {
          removedLwd := true;
        }
        if lwdp == NextOf(cs[i].addr) {
          removedLwdp := true;
        }
        i := i + 1;
      }
    }

    /** evbuffer_pullup, when the bytes wanted lie in more than one chunk. */
    method PullChunks(want: nat)
      requires Valid() && |chain| > 0 && chain[0].Ok() && chain[0].off < want <= totalLen
      modifies this
      ensures Valid() && Contents() == old(Contents()) && totalLen == old(totalLen)
      ensures forall a :: a in Addrs(chain) ==> a in old(Addrs(chain)) || fresh(a)
      ensures |chain| > 0 && chain[0].Ok() && want <= chain[0].off
    {
      hide Flat, AllOk, Addrs, Distinct, LastData, Chunk.Data, Chunk.Append, Chunk.Skip;
      LwdFacts(chain, lwdp, lwd);
      var cs, c0 := chain, chain[0];
      var tmp, i, size: nat, removedLwd, removedLwdp;
      ghost var s;
      OkAt(cs, 0);
      if |c0.mem| - c0.misalign >= want {
        s := 1;
        tmp, i, size, removedLwd, removedLwdp := PullLoop(cs, lwdp, lwd, c0, 1, want, want - c0.off);
      } else {
        s := 0;
        tmp := NewChunk(want, Addrs(cs));
        tmp, i, size, removedLwd, removedLwdp := PullLoop(cs, lwdp, lwd, tmp, 0, want, want);
      }
      if i < |cs| {
        PullEndInside(cs, lwdp, lwd, s, want, tmp, i, size, removedLwd, removedLwdp);
        tmp := tmp.Append(cs[i].Data()[..size]);
        chain := [tmp] + ([cs[i].Skip(size)] + cs[i + 1..]);
        lwd := lwd - i + 1;
      } else {
        PullEndAll(cs, lwdp, lwd, s, want, tmp, i, size, removedLwd, removedLwdp);
        chain, last := [tmp], tmp.addr;
        lwd := 0;
      }
      if removedLwd {
        lwdp := First;
      } else if removedLwdp {
        lwdp := if |chain| > 1 && chain[1].off != 0 then NextOf(chain[0].addr) else First;
      }
    }
  }

  lemma EmptyList()
    ensures AllOk([]) && Flat([]) == [] && Distinct([]) && Addrs([]) == {} && LastData([], 0)
  {
  }

  /** Between two rounds of the loop of evbuffer_drain: the chunks before i are gone, and lwdp
      has been reset if the last chunk with data has become the first. */
  ghost predicate DrainInv(cs: seq<Chunk>, lwdp: Link, lwd: nat, len: nat, l: Link, i: nat, remaining: nat) {
    && Core(cs, lwdp, lwd)
    && i <= lwd < |cs|
    && l == (if i < lwd then lwdp else First)
    && AllOk(cs[..i])
    && len == |Flat(cs[..i])| + remaining
    && len < |Flat(cs)|
  }

  lemma DrainStart(cs: seq<Chunk>, lwdp: Link, lwd: nat)
    requires Core(cs, lwdp, lwd)
    ensures |cs| == 0 ==> Flat(cs) == []
    ensures AllOk(cs[..0]) && Flat(cs[..0]) == []
    ensures lwd == 0 ==> lwdp == First
  {
    assert cs[..0] == [];
  }

  lemma OkAt(cs: seq<Chunk>, i: nat)
    requires AllOk(cs) && i < |cs|
    ensures cs[i].Ok() && cs[i].addr in Addrs(cs)
  {
  }

  lemma PtrFacts(cs: seq<Chunk>, p: Ptr, k: nat)
    requires AllOk(cs) && PtrAt(cs, p, k)
    ensures 0 <= p.pos <= |Flat(cs)|
  {
    FlatCut(cs, k);
    if k < |cs| {
      FlatWindow(cs, k, p.inChunk, p.inChunk);
    }
  }

  ghost predicate CopyInv(cs: seq<Chunk>, i: nat, inChunk: nat, left: nat, p: nat, out: seq<u8>) {
    && AllOk(cs) && i <= |cs| && AllOk(cs[..i])
    && (left > 0 ==> i < |cs| && inChunk <= cs[i].off)
    && |Flat(cs[..i])| + (if left > 0 then inChunk else 0) <= |Flat(cs)|
    && (left > 0 ==> |Flat(cs[..i])| + inChunk == p + |out|)
    && p + |out| + left <= |Flat(cs)|
    && out == Flat(cs)[p..p + |out|]
  }

  /** While bytes remain to be copied there is a chunk to copy them from. */
  lemma CopyPlace(cs: seq<Chunk>, i: nat, inChunk: nat, left: nat)
    requires AllOk(cs) && i <= |cs| && AllOk(cs[..i])
    requires |Flat(cs[..i])| + inChunk + left <= |Flat(cs)|
    ensures left > 0 ==> i < |cs|
  {
    if i == |cs| {
      assert cs[..i] == cs;
    }
  }

  lemma CopyStep(cs: seq<Chunk>, i: nat, inChunk: nat, left: nat, p: nat, out: seq<u8>)
    requires CopyInv(cs, i, inChunk, left, p, out) && left > 0 && left >= cs[i].off - inChunk
    ensures cs[i].Ok()
    ensures var n := cs[i].off - inChunk;
            CopyInv(cs, i + 1, 0, left - n, p, out + cs[i].Data()[inChunk..inChunk + n])
  {
    var n := cs[i].off - inChunk;
    FlatNext(cs, i);
    FlatWindow(cs, i, inChunk, inChunk + n);
    hide Flat, AllOk;
    JoinSlices(Flat(cs), p, p + |out|, p + |out| + n);
    CopyPlace(cs, i + 1, 0, left - n);
  }

  lemma JoinSlices<T>(s: seq<T>, a: nat, b: nat, c: nat)
    requires a <= b <= c <= |s|
    ensures s[a..b] + s[b..c] == s[a..c]
  {
  }

  lemma LwdFacts(cs: seq<Chunk>, lwdp: Link, lwd: nat)
    requires Core(cs, lwdp, lwd)
    ensures AllOk(cs) && Distinct(cs) && Points(cs, lwdp, lwd)
    ensures |cs| == 0 ==> lwd == 0 && lwdp == First
    ensures |cs| > 0 ==> lwd < |cs| && cs[lwd].Ok() && cs[0].Ok()
    ensures lwd > 0 ==> cs[lwd].off > 0
  {
  }

  /** The loop stops before the last chunk with data, and does not touch its link before. */
  lemma DrainStep(cs: seq<Chunk>, lwdp: Link, lwd: nat, len: nat, l: Link, i: nat, remaining: nat)
    requires DrainInv(cs, lwdp, lwd, len, l, i, remaining) && remaining >= cs[i].off
    ensures Distinct(cs) && Points(cs, l, if i < lwd then lwd else 0)
    ensures i < lwd
    ensures l == NextOf(cs[i].addr) <==> i + 1 == lwd
    ensures AllOk(cs[..i + 1]) && len == |Flat(cs[..i + 1])| + (remaining - cs[i].off)
  {
    FlatNext(cs, i);
    if i == lwd {
      EmptyAfter(cs, lwd);
    }
    assert l == NextOf(cs[lwd - 1].addr);
    assert i < lwd - 1 ==> cs[i].addr != cs[lwd - 1].addr;
  }

  lemma DrainEnd(cs: seq<Chunk>, lwdp: Link, lwd: nat, len: nat, l: Link, i: nat, remaining: nat)
    requires DrainInv(cs, lwdp, lwd, len, l, i, remaining) && remaining < cs[i].off
    ensures cs[i].Ok() && AllOk(cs)
    ensures Core(Rest(cs, i, remaining), l, lwd - i)
    ensures Flat(Rest(cs, i, remaining)) == Flat(cs)[len..]
    ensures Addrs(Rest(cs, i, remaining)) <= Addrs(cs)
    ensures Last(Rest(cs, i, remaining)) == Last(cs)
  {
    hide Flat, AllOk, Addrs, Distinct, LastData;
    LwdFacts(cs, lwdp, lwd);
    DropFront(cs, lwdp, lwd, i, remaining);
    RestBytes(cs, i, remaining);
    RestAddrs(cs, i, remaining);
    RestEnds(cs, i, remaining);
  }

  /** Between two rounds of the loop of evbuffer_pullup: tmp has taken the data of the chunks
      before i, of which those from s on have been freed. */
  ghost predicate PullInv(cs: seq<Chunk>, lwdp: Link, lwd: nat, s: nat, want: nat, tmp: Chunk, i: nat, size: nat,
                          removedLwd: bool, removedLwdp: bool)
  {
    && Core(cs, lwdp, lwd)
    && |cs| > 0 && cs[0].off < want <= |Flat(cs)|
    && s <= 1 && s <= i <= |cs|
    && AllOk(cs[..i])
    && tmp.Ok() && tmp.Data() == Flat(cs[..i])
    && size + |Flat(cs[..i])| == want
    && |tmp.mem| - tmp.misalign >= want
    && (s == 1 ==> tmp.addr == cs[0].addr)
    && (s == 0 ==> tmp.addr !in Addrs(cs))
    && (removedLwd <==> s <= lwd < i)
    && (removedLwdp <==> lwd > 0 && s <= lwd - 1 < i)
  }

  lemma PullStart(cs: seq<Chunk>, lwdp: Link, lwd: nat, s: nat, want: nat, tmp: Chunk, size: nat)
    requires Core(cs, lwdp, lwd) && |cs| > 0 && cs[0].off < want <= |Flat(cs)|
    requires tmp.Ok() && |tmp.mem| - tmp.misalign >= want && s <= 1
    requires s == 1 ==> tmp == cs[0] && size == want - cs[0].off
    requires s == 0 ==> tmp.Data() == [] && tmp.addr !in Addrs(cs) && size == want
    ensures PullInv(cs, lwdp, lwd, s, want, tmp, s, size, false, false)
  {
    if s == 1 {
      assert cs[..1] == [cs[0]];
      FlatOne(cs[0]);
    } else {
      assert cs[..0] == [];
    }
  }

  lemma PullStep(cs: seq<Chunk>, lwdp: Link, lwd: nat, s: nat, want: nat, tmp: Chunk, i: nat, size: nat,
                 rl: bool, rlp: bool)
    requires PullInv(cs, lwdp, lwd, s, want, tmp, i, size, rl, rlp) && i < |cs| && size >= cs[i].off
    ensures cs[i].Ok() && cs[i].off <= tmp.Space() && lwd < |cs|
    ensures PullInv(cs, lwdp, lwd, s, want, tmp.Append(cs[i].Data()), i + 1, size - cs[i].off,
                    rl || cs[i].addr == cs[lwd].addr, rlp || lwdp == NextOf(cs[i].addr))
  {
    FlatNext(cs, i);
    hide Flat, AllOk, Addrs, LastData;
    LwdFacts(cs, lwdp, lwd);
    assert cs[i].addr == cs[lwd].addr <==> i == lwd;
    assert lwdp == NextOf(cs[i].addr) <==> i + 1 == lwd;
  }

  /** The last chunk with data is beyond the first, as more is wanted than the first holds. */
  lemma PullNotFirst(cs: seq<Chunk>, lwdp: Link, lwd: nat, want: nat)
    requires Core(cs, lwdp, lwd) && |cs| > 0 && cs[0].off < want <= |Flat(cs)|
    ensures 0 < lwd < |cs|
  {
    assert cs[..0] == [];
    if lwd == 0 {
      EmptyAfter(cs, 0);
    }
  }

  lemma PullEndBytes(cs: seq<Chunk>, lwdp: Link, lwd: nat, s: nat, want: nat, tmp: Chunk, i: nat, size: nat,
                     rl: bool, rlp: bool)
    requires PullInv(cs, lwdp, lwd, s, want, tmp, i, size, rl, rlp) && i < |cs| && size < cs[i].off
    ensures cs[i].Ok() && size <= tmp.Space() && AllOk(Rest(cs, i, size))
    ensures tmp.Data() + cs[i].Data()[..size] + Flat(Rest(cs, i, size)) == Flat(cs)
  {
    hide Flat, AllOk, Addrs, Distinct, LastData;
    LwdFacts(cs, lwdp, lwd);
    OkAt(cs, i);
    RestBytes(cs, i, size);
    FlatWindow(cs, i, 0, size);
    FlatCut(cs, i);
    ThreeParts(Flat(cs), |Flat(cs[..i])|, want);
  }

  lemma ThreeParts<T>(s: seq<T>, p: nat, q: nat)
    requires p <= q <= |s|
    ensures s[..p] + s[p..q] + s[q..] == s
  {
  }

  /** The loop stops at or before the last chunk with data. */
  lemma PullPlace(cs: seq<Chunk>, lwdp: Link, lwd: nat, s: nat, want: nat, tmp: Chunk, i: nat, size: nat,
                  rl: bool, rlp: bool)
    requires PullInv(cs, lwdp, lwd, s, want, tmp, i, size, rl, rlp) && i < |cs| && size < cs[i].off
    ensures 0 < lwd < |cs| && i <= lwd && !rl
    ensures tmp.addr !in Addrs(cs[i..])
  {
    PullNotFirst(cs, lwdp, lwd, want);
    AddrsCut(cs, i);
    DistinctCut(cs, i);
    assert i > 0 ==> cs[..i][0] == cs[0] && cs[0].addr in Addrs(cs[..i]);
  }

  /** The case analysis on the removed flags patches lwdp the way a new first chunk requires. */
  lemma PullLink(cs: seq<Chunk>, lwdp: Link, lwd: nat, s: nat, want: nat, tmp: Chunk, i: nat, size: nat,
                 rl: bool, rlp: bool)
    requires PullInv(cs, lwdp, lwd, s, want, tmp, i, size, rl, rlp) && i < |cs|
    requires 0 < lwd < |cs| && i <= lwd
    ensures rlp ==> i == lwd
    ensures !rlp && i == lwd ==> lwdp == NextOf(tmp.addr)
  {
  }

  lemma PullEndInside(cs: seq<Chunk>, lwdp: Link, lwd: nat, s: nat, want: nat, tmp: Chunk, i: nat, size: nat,
                      rl: bool, rlp: bool)
    requires PullInv(cs, lwdp, lwd, s, want, tmp, i, size, rl, rlp) && i < |cs| && size < cs[i].off
    ensures cs[i].Ok() && size <= tmp.Space() && i <= lwd && !rl
    ensures var t := tmp.Append(cs[i].Data()[..size]);
            var e := [t] + Rest(cs, i, size);
            && (rlp ==> e[1].off != 0 && Core(e, NextOf(t.addr), lwd - i + 1))
            && (!rlp ==> Core(e, lwdp, lwd - i + 1))
            && Flat(e) == Flat(cs) && want == t.off && Last(e) == Last(cs)
            && Addrs(e) <= Addrs(cs) + {tmp.addr}
  {
    hide *;
    PullPlace(cs, lwdp, lwd, s, want, tmp, i, size, rl, rlp);
    PullEndBytes(cs, lwdp, lwd, s, want, tmp, i, size, rl, rlp);
    PullLink(cs, lwdp, lwd, s, want, tmp, i, size, rl, rlp);
    PullUnfold(cs, lwdp, lwd, s, want, tmp, i, size, rl, rlp);
    if i < lwd {
      ReplaceFrontBefore(cs, lwdp, lwd, i, size, tmp, cs[i].Data()[..size]);
    } else {
      ReplaceFrontAt(cs, lwdp, lwd, size, tmp, cs[i].Data()[..size]);
    }
  }

  /** The chunks before i replaced by one chunk that also takes the first bytes of chunk i, when
      the last chunk with data lies further behind. */
  lemma ReplaceFrontBefore(cs: seq<Chunk>, lwdp: Link, lwd: nat, i: nat, r: nat, tmp: Chunk, src: seq<u8>)
    requires Core(cs, lwdp, lwd) && i < lwd < |cs| && cs[i].Ok() && r < cs[i].off && AllOk(cs)
    requires tmp.Ok() && |src| <= tmp.Space() && tmp.addr !in Addrs(cs[i..])
    ensures AllOk(Rest(cs, i, r))
    ensures var q := Rest(cs, i, r);
            var e := [tmp.Append(src)] + q;
            && Core(e, lwdp, lwd - i + 1)
            && Flat(e) == tmp.Data() + src + Flat(q) && Last(e) == Last(cs)
            && Addrs(e) <= Addrs(cs) + {tmp.addr}
  {
    hide Flat, Addrs, AllOk, Distinct, LastData, Points, Rest, Last;
    DropFront(cs, lwdp, lwd, i, r);
    RestBytes(cs, i, r);
    RestAddrs(cs, i, r);
    RestEnds(cs, i, r);
    PushFirst(Rest(cs, i, r), lwdp, lwd - i, tmp.Append(src));
  }

  /** The same, when chunk i is the last one with data. */
  lemma ReplaceFrontAt(cs: seq<Chunk>, lwdp: Link, i: nat, r: nat, tmp: Chunk, src: seq<u8>)
    requires Core(cs, lwdp, i) && i < |cs| && cs[i].Ok() && r < cs[i].off && AllOk(cs)
    requires tmp.Ok() && |src| <= tmp.Space() && tmp.addr !in Addrs(cs[i..])
    ensures AllOk(Rest(cs, i, r))
    ensures var q := Rest(cs, i, r);
            var e := [tmp.Append(src)] + q;
            && Core(e, NextOf(tmp.addr), 1)
            && Flat(e) == tmp.Data() + src + Flat(q) && Last(e) == Last(cs)
            && Addrs(e) <= Addrs(cs) + {tmp.addr} && e[1].off != 0
  {
    hide Flat, Addrs, AllOk, Distinct, LastData, Points, Rest, Last;
    DropFront(cs, lwdp, i, i, r);
    RestBytes(cs, i, r);
    RestAddrs(cs, i, r);
    RestEnds(cs, i, r);
    PushFirst(Rest(cs, i, r), First, 0, tmp.Append(src));
  }

  lemma PullUnfold(cs: seq<Chunk>, lwdp: Link, lwd: nat, s: nat, want: nat, tmp: Chunk, i: nat, size: nat,
                   rl: bool, rlp: bool)
    requires PullInv(cs, lwdp, lwd, s, want, tmp, i, size, rl, rlp)
    ensures Core(cs, lwdp, lwd) && AllOk(cs) && Distinct(cs) && tmp.Ok() && tmp.off + size == want
  {
  }

  lemma RestEnds(cs: seq<Chunk>, i: nat, r: nat)
    requires AllOk(cs) && i < |cs| && r <= cs[i].off
    ensures var e := Rest(cs, i, r); |e| > 0 && e[0].off == cs[i].off - r && Last(e) == Last(cs)
  {
  }

  lemma PullEndAll(cs: seq<Chunk>, lwdp: Link, lwd: nat, s: nat, want: nat, tmp: Chunk, i: nat, size: nat,
                   rl: bool, rlp: bool)
    requires PullInv(cs, lwdp, lwd, s, want, tmp, i, size, rl, rlp) && i == |cs|
    ensures rl && Core([tmp], First, 0) && Flat([tmp]) == Flat(cs) && tmp.off >= want
    ensures Addrs([tmp]) <= Addrs(cs) + {tmp.addr}
  {
    PullNotFirst(cs, lwdp, lwd, want);
    assert cs[..i] == cs;
    FlatOne(tmp);
    AddrsOne(tmp);
  }
}
