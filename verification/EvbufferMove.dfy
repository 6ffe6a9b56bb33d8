/** Moving bytes from one chained buffer to another, chunk by chunk. */
module EvbufferMove {
  import opened Chunks
  import opened Evbuffers

  lemma HasData(cs: seq<Chunk>, lwdp: Link, lwd: nat)
    requires Core(cs, lwdp, lwd) && |Flat(cs)| > 0
    ensures lwd < |cs| && cs[lwd].off > 0
  {
    if |cs| > 0 && cs[lwd].off == 0 {
      FlatEmpties(cs);
    }
  }

  lemma LastDataAppend(a: seq<Chunk>, b: seq<Chunk>, kb: nat)
    requires LastData(b, kb) && kb < |b| && b[kb].off > 0
    ensures LastData(a + b, |a| + kb)
  {
    var e := a + b;
    assert forall j {:trigger e[j]} :: |a| <= j < |e| ==> e[j] == b[j - |a|];
  }

  lemma PointsAppend(a: seq<Chunk>, b: seq<Chunk>, l: Link, k: nat)
    ensures Points(a, l, |a|) ==> Points(a + b, l, |a|)
    ensures k > 0 && Points(b, l, k) ==> Points(a + b, l, |a| + k)
    ensures Points(b, l, k) ==> (k == 0 <==> l == First)
  {
  }

  /** Two lists joined, the second one with data. */
  lemma Join(a: seq<Chunk>, b: seq<Chunk>, lb: Link, kb: nat)
    requires AllOk(a) && Distinct(a) && Core(b, lb, kb) && Addrs(a) !! Addrs(b) && |Flat(b)| > 0
    ensures AllOk(a + b) && Distinct(a + b) && LastData(a + b, |a| + kb)
    ensures Flat(a + b) == Flat(a) + Flat(b) && Addrs(a + b) == Addrs(a) + Addrs(b)
    ensures kb < |b| && Last(a + b) == Last(b)
  {
    HasData(b, lb, kb);
    FlatAppend(a, b);
    AddrsAppend(a, b);
    DistinctAppend(a, b);
    LastDataAppend(a, b, kb);
    hide Flat, AllOk, Addrs, Distinct, LastData;
  }

  lemma JoinCore(a: seq<Chunk>, la: Link, b: seq<Chunk>, lb: Link, kb: nat)
    requires AllOk(a) && Distinct(a) && Points(a, la, |a|) && Core(b, lb, kb) && Addrs(a) !! Addrs(b)
    requires AllOk(b) && |Flat(b)| > 0
    ensures lb == First ==> Core(a + b, la, |a| + kb)
    ensures lb != First ==> Core(a + b, lb, |a| + kb)
    ensures AllOk(a + b) && Flat(a + b) == Flat(a) + Flat(b) && Addrs(a + b) == Addrs(a) + Addrs(b) && Last(a + b) == Last(b)
  {
    hide Flat, AllOk, Addrs, Distinct, LastData;
    Join(a, b, lb, kb);
    PointsAppend(a, b, la, 0);
    PointsAppend(a, b, lb, kb);
  }

  /** ZERO_CHAIN */
  method ZeroChain(dst: Evbuffer)
    modifies dst
    ensures dst.Valid() && dst.chain == [] && dst.Contents() == [] && Addrs(dst.chain) == {}
  {
    EmptyList();
    dst.chain, dst.last, dst.lwdp, dst.totalLen, dst.lwd := [], null, First, 0, 0;
  }

  /** COPY_CHAIN: dst takes over the list of src. */
  method CopyChain(dst: Evbuffer, src: Evbuffer)
    requires src.Valid() && dst != src
    modifies dst
    ensures dst.Valid() && dst.chain == src.chain
  {
    dst.chain, dst.last, dst.lwdp, dst.totalLen := src.chain, src.last, src.lwdp, src.totalLen;
    dst.lwd := src.lwd;
  }

  /** APPEND_CHAIN: the list of src goes behind that of dst. */
  method AppendChain(dst: Evbuffer, src: Evbuffer)
    requires dst.Valid() && src.Valid() && dst != src
    requires Addrs(dst.chain) !! Addrs(src.chain) && src.totalLen > 0
    modifies dst
    ensures dst.Valid() && dst.Contents() == old(dst.Contents()) + src.Contents()
    ensures Addrs(dst.chain) <= old(Addrs(dst.chain)) + Addrs(src.chain)
  {
    hide Core, Flat, AllOk, Addrs, Distinct, LastData, Points, Last;
    var chp := dst.FreeTrailingEmptyChains();
    LwdFacts(dst.chain, dst.lwdp, dst.lwd);
    LwdFacts(src.chain, src.lwdp, src.lwd);
    JoinCore(dst.chain, chp, src.chain, src.lwdp, src.lwd);
    if src.lwdp == First {
      dst.lwdp := chp;
    } else {
      dst.lwdp := src.lwdp;
    }
    dst.lwd := |dst.chain| + src.lwd;
    dst.chain, dst.last := dst.chain + src.chain, src.last;
    dst.totalLen := dst.totalLen + src.totalLen;
  }

  /** PREPEND_CHAIN: the list of src goes before that of dst. */
  method PrependChain(dst: Evbuffer, src: Evbuffer)
    requires dst.Valid() && src.Valid() && dst != src
    requires Addrs(dst.chain) !! Addrs(src.chain) && src.totalLen > 0 && dst.totalLen > 0
    modifies dst
    ensures dst.Valid() && dst.Contents() == src.Contents() + old(dst.Contents())
    ensures Addrs(dst.chain) <= old(Addrs(dst.chain)) + Addrs(src.chain)
  {
    hide Flat, AllOk, Addrs, Distinct, LastData;
    ghost var a, b := src.chain, dst.chain;
    LwdFacts(a, src.lwdp, src.lwd);
    LwdFacts(b, dst.lwdp, dst.lwd);
    HasData(a, src.lwdp, src.lwd);
    Join(a, b, dst.lwdp, dst.lwd);
    PointsAppend(a, b, dst.lwdp, dst.lwd);
    PointsAppend(a, b, NextOf(a[|a| - 1].addr), 0);
    if dst.lwdp == First {
      dst.lwdp := NextOf(src.last);
    }
    dst.lwd := |src.chain| + dst.lwd;
    dst.chain := src.chain + dst.chain;
    dst.totalLen := dst.totalLen + src.totalLen;
  }

  /** evbuffer_add_buffer */
  method AddBuffer(out: Evbuffer, inb: Evbuffer)
    requires out.Valid() && inb.Valid()
    requires out != inb ==> Addrs(out.chain) !! Addrs(inb.chain)
    modifies out, inb
    ensures out.Valid() && inb.Valid()
    ensures out != inb ==> Addrs(out.chain) !! Addrs(inb.chain)
    ensures out != inb ==> Addrs(out.chain) + Addrs(inb.chain) <= old(Addrs(out.chain) + Addrs(inb.chain))
    ensures out != inb ==> out.Contents() == old(out.Contents()) + old(inb.Contents()) && inb.Contents() == []
    ensures out == inb ==> out.Contents() == old(out.Contents())
  {
    hide Core, Flat, AllOk, Addrs, Distinct, LastData;
    LwdFacts(out.chain, out.lwdp, out.lwd);
    LwdFacts(inb.chain, inb.lwdp, inb.lwd);
    if inb.totalLen == 0 || out == inb {
      return;
    }
    if out.totalLen == 0 {
      CopyChain(out, inb);
    } else {
      AppendChain(out, inb);
    }
    ZeroChain(inb);
  }

  /** evbuffer_prepend_buffer */
  method PrependBuffer(out: Evbuffer, inb: Evbuffer)
    requires out.Valid() && inb.Valid()
    requires out != inb ==> Addrs(out.chain) !! Addrs(inb.chain)
    modifies out, inb
    ensures out.Valid() && inb.Valid()
    ensures out != inb ==> Addrs(out.chain) !! Addrs(inb.chain)
    ensures out != inb ==> Addrs(out.chain) + Addrs(inb.chain) <= old(Addrs(out.chain) + Addrs(inb.chain))
    ensures out != inb ==> out.Contents() == old(inb.Contents()) + old(out.Contents()) && inb.Contents() == []
    ensures out == inb ==> out.Contents() == old(out.Contents())
  {
    hide Core, Flat, AllOk, Addrs, Distinct, LastData;
    LwdFacts(out.chain, out.lwdp, out.lwd);
    LwdFacts(inb.chain, inb.lwdp, inb.lwd);
    if inb.totalLen == 0 || out == inb {
      return;
    }
    if out.totalLen == 0 {
      CopyChain(out, inb);
    } else {
      PrependChain(out, inb);
    }
    ZeroChain(inb);
  }

  /** The chunks of src that fit into datlen bytes: their number i and their bytes nread, the bytes
      still wanted, and where lwdp of src points then. */
  method WholeChunks(cs: seq<Chunk>, lwdp: Link, ghost lwd: nat, datlen: nat)
    returns (i: nat, nread: nat, left: nat, l: Link)
    requires Core(cs, lwdp, lwd) && lwd < |cs| && datlen < |Flat(cs)|
    ensures DrainInv(cs, lwdp, lwd, datlen, l, i, left) && left < cs[i].off
    ensures nread + left == datlen
  {
    hide Flat, AllOk, Addrs, Distinct, LastData;
    DrainStart(cs, lwdp, lwd);
    i, nread, left, l := 0, 0, datlen, lwdp;
    while cs[i].off <= left
      invariant DrainInv(cs, lwdp, lwd, datlen, l, i, left)
      invariant nread + left == datlen
      decreases lwd - i
    {
      DrainStep(cs, lwdp, lwd, datlen, l, i, left);
      var t := Evbuffer.Deref(cs, l, if i < lwd then lwd else 0);
      assert i != t;
      nread := nread + cs[i].off;
      left := left - cs[i].off;
      if l == NextOf(cs[i].addr) {
        l := First;
      }
      i := i + 1;
    }
  }

  lemma AppendFront(a: seq<Chunk>, la: Link, ka: nat, cs: seq<Chunk>, i: nat)
    requires Core(a, la, ka) && AllOk(cs) && Distinct(cs) && Addrs(a) !! Addrs(cs) && 0 < i < |cs|
    requires |a| > 0 ==> a[|a| - 1].off > 0
    ensures var e := a + cs[..i];
            && AllOk(e) && Distinct(e) && Points(e, la, ka) && ka < |e| && (ka > 0 ==> e[ka].off > 0)
            && AllOk(cs[..i]) && Flat(e) == Flat(a) + Flat(cs[..i])
            && Addrs(e) == Addrs(a) + Addrs(cs[..i]) && Last(e) == cs[i - 1].addr
    ensures Addrs(cs[..i]) + Addrs(cs[i..]) == Addrs(cs) && Addrs(cs[..i]) !! Addrs(cs[i..])
  {
    var f := cs[..i];
    AddrsCut(cs, i);
    DistinctCut(cs, i);
    FlatCut(cs, i);
    FlatAppend(a, f);
    AddrsAppend(a, f);
    DistinctAppend(a, f);
    hide Flat, AllOk, Addrs, Distinct;
    assert forall j {:trigger (a + f)[j]} :: 0 <= j < |a| ==> (a + f)[j] == a[j];
  }

  /** evbuffer_remove_buffer, the moving of whole chunks. */
  method MoveFront(dst: Evbuffer, cs: seq<Chunk>, i: nat, nread: nat)
    requires dst.Valid() && AllOk(cs) && Distinct(cs) && Addrs(dst.chain) !! Addrs(cs) && i < |cs|
    requires AllOk(cs[..i]) && nread == |Flat(cs[..i])|
    modifies dst
    ensures dst.Valid() && dst.Contents() == old(dst.Contents()) + Flat(cs[..i])
    ensures Addrs(dst.chain) <= old(Addrs(dst.chain)) + Addrs(cs[..i])
  {
    hide Flat, AllOk, Addrs, Distinct, LastData;
    if i == 0 {
      DrainStart(dst.chain, dst.lwdp, dst.lwd);
      assert cs[..0] == [];
      EmptyList();
      return;
    }
    var chp := dst.FreeTrailingEmptyChains();
    AppendFront(dst.chain, dst.lwdp, dst.lwd, cs, i);
    dst.chain, dst.last := dst.chain + cs[..i], cs[i - 1].addr;
    var _ := dst.AdvanceLastWithData();
    dst.totalLen := dst.totalLen + nread;
  }

  /** evbuffer_remove_buffer, when data remains in src. */
  method RemovePart(src: Evbuffer, dst: Evbuffer, datlen: nat)
    requires src.Valid() && dst.Valid() && src != dst
    requires Addrs(src.chain) !! Addrs(dst.chain) && 0 < datlen < src.totalLen
    modifies src, dst
    ensures src.Valid() && dst.Valid() && Addrs(src.chain) !! Addrs(dst.chain)
    ensures Addrs(src.chain) <= old(Addrs(src.chain))
    ensures forall a :: a in Addrs(dst.chain) ==> a in old(Addrs(src.chain)) || a in old(Addrs(dst.chain)) || fresh(a)
    ensures src.Contents() == old(src.Contents())[datlen..]
    ensures old(dst.totalLen) + datlen <= SIZE_MAX ==>
              dst.Contents() == old(dst.Contents()) + old(src.Contents())[..datlen]
  {
    hide Core, Flat, AllOk, Addrs, Distinct, LastData, Last, Rest;
    var cs := src.chain;
    ghost var lwdp, lwd, was := src.lwdp, src.lwd, Addrs(dst.chain);
    ValidFacts(src);
    ValidFacts(dst);
    var i, nread, left, l := WholeChunks(cs, src.lwdp, src.lwd, datlen);
    RemoveFacts(cs, lwdp, lwd, datlen, l, i, left, nread);
    MoveFront(dst, cs, i, nread);
    SetRest(src, i, left, l, datlen);
    AddrsAllocated(src.chain);
    assert Addrs(dst.chain) !! Addrs(src.chain);
    var _ := dst.Add(cs[i].Data()[..left]);
    Assoc(old(dst.Contents()), Flat(cs[..i]), cs[i].Data()[..left]);
  }

  lemma ValidFacts(b: Evbuffer)
    requires b.Valid()
    ensures Core(b.chain, b.lwdp, b.lwd) && b.last == Last(b.chain) && b.totalLen == |Flat(b.chain)|
    ensures b.totalLen > 0 ==> b.lwd < |b.chain|
    ensures AllOk(b.chain) && Distinct(b.chain) && b.Contents() == Flat(b.chain)
  {
  }

  lemma RemoveFacts(cs: seq<Chunk>, lwdp: Link, lwd: nat, datlen: nat, l: Link, i: nat, left: nat, nread: nat)
    requires DrainInv(cs, lwdp, lwd, datlen, l, i, left) && left < cs[i].off && nread + left == datlen
    ensures AllOk(cs[..i]) && nread == |Flat(cs[..i])| && cs[i].Ok() && datlen <= |Flat(cs)|
    ensures Flat(cs)[..datlen] == Flat(cs[..i]) + cs[i].Data()[..left]
    ensures Addrs(cs[..i]) + Addrs(cs[i..]) == Addrs(cs) && Addrs(cs[..i]) !! Addrs(cs[i..])
    ensures Core(Rest(cs, i, left), l, lwd - i) && Last(Rest(cs, i, left)) == Last(cs)
    ensures Flat(Rest(cs, i, left)) == Flat(cs)[datlen..]
    ensures Addrs(Rest(cs, i, left)) == Addrs(cs[i..])
  {
    DrainEnd(cs, lwdp, lwd, datlen, l, i, left);
    hide Flat, AllOk, Addrs, Distinct, LastData, Core;
    LwdFacts(cs, lwdp, lwd);
    RestAddrs(cs, i, left);
    AddrsCut(cs, i);
    DistinctCut(cs, i);
    FlatWindow(cs, i, 0, left);
    JoinSlices(Flat(cs), 0, nread, datlen);
    FlatCut(cs, i);
  }

  /** The remainder that evbuffer_remove_buffer leaves in src. */
  method SetRest(src: Evbuffer, i: nat, left: nat, l: Link, nread: nat)
    requires src.Valid() && i <= src.lwd < |src.chain| && src.chain[i].Ok() && left < src.chain[i].off
    requires Core(Rest(src.chain, i, left), l, src.lwd - i)
    requires Last(Rest(src.chain, i, left)) == Last(src.chain)
    requires nread <= |Flat(src.chain)| && Flat(Rest(src.chain, i, left)) == Flat(src.chain)[nread..]
    modifies src
    ensures src.Valid() && src.chain == old(Rest(src.chain, i, left))
  {
    hide Core, Flat, AllOk, Addrs, Distinct, LastData;
    src.chain, src.lwdp, src.lwd := [src.chain[i].Skip(left)] + src.chain[i + 1..], l, src.lwd - i;
    src.totalLen := src.totalLen - nread;
  }

  /** evbuffer_remove_buffer */
  method RemoveBuffer(src: Evbuffer, dst: Evbuffer, datlen: nat) returns (n: nat)
    requires src.Valid() && dst.Valid()
    requires src != dst ==> Addrs(src.chain) !! Addrs(dst.chain)
    modifies src, dst
    ensures src.Valid() && dst.Valid()
    ensures src != dst ==> Addrs(src.chain) !! Addrs(dst.chain)
    ensures n == if src == dst then 0 else Min(datlen, old(src.totalLen))
    ensures src.Contents() == old(src.Contents())[n..]
    ensures src != dst && old(dst.totalLen) + n <= SIZE_MAX ==>
              dst.Contents() == old(dst.Contents()) + old(src.Contents())[..n]
  {
    hide Core, Flat, AllOk, Addrs, Distinct, LastData;
    if datlen == 0 || dst == src {
      return 0;
    }
    if datlen >= src.totalLen {
      n := src.totalLen;
      AddBuffer(dst, src);
    } else {
      n := datlen;
      RemovePart(src, dst, datlen);
    }
  }
}
