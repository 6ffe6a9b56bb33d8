/** Reserving room, writing into it and committing it: how a reader puts bytes straight into a buffer. */
module EvbufferFill {
  import opened Bytes
  import opened Chunks
  import opened Evbuffers
  import opened EvbufferReserve

  /** The chunk with bytes copied into its storage. */
  function Overwritten(c: Chunk, at: nat, bytes: seq<u8>): Chunk
    requires at + |bytes| <= |c.mem|
  {
    c.(mem := c.mem[..at] + bytes + c.mem[at + |bytes|..])
  }

  lemma OverwrittenFacts(c: Chunk, bytes: seq<u8>)
    requires c.Ok() && |bytes| <= c.Space()
    ensures var at := c.misalign + c.off; var d := Overwritten(c, at, bytes);
            d.Ok() && d.Data() == c.Data() && d.Space() == c.Space() && d.mem[at..at + |bytes|] == bytes
  {
    var at := c.misalign + c.off;
    var d := Overwritten(c, at, bytes);
    assert d.mem[c.misalign..at] == c.mem[c.misalign..at];
  }

  /** The vectors in front of number i are filled with the first done bytes of src. */
  ghost predicate FillInv(cs0: seq<Chunk>, lwdp: Link, lwd: nat, f: nat, vecs: seq<Vec>, src: seq<u8>,
                          cs: seq<Chunk>, i: nat, done: nat, cut: seq<Vec>) {
    && Core(cs, lwdp, lwd) && AllOk(cs0) && Flat(cs) == Flat(cs0) && Addrs(cs) == Addrs(cs0) && Last(cs) == Last(cs0)
    && |cs| == |cs0| && Fits(cs, f, vecs) && i == |cut| <= |vecs|
    && Fits(cs, f, cut) && done <= |src| && Written(cs, f, cut) == src[..done]
    && (done < |src| ==> done == TotalLen(vecs[..i]))
  }

  lemma FillStart(cs: seq<Chunk>, lwdp: Link, lwd: nat, f: nat, vecs: seq<Vec>, src: seq<u8>)
    requires Core(cs, lwdp, lwd) && Fits(cs, f, vecs)
    ensures FillInv(cs, lwdp, lwd, f, vecs, src, cs, 0, 0, [])
  {
    assert vecs[..0] == [];
  }

  lemma {:induction false} WrittenSame(cs: seq<Chunk>, ds: seq<Chunk>, f: nat, vecs: seq<Vec>)
    requires Fits(cs, f, vecs) && Fits(ds, f, vecs)
    requires forall j {:trigger cs[j]} {:trigger ds[j]} :: f <= j < f + |vecs| ==> cs[j] == ds[j]
    ensures Written(cs, f, vecs) == Written(ds, f, vecs)
    decreases |vecs|
  {
    if |vecs| > 0 {
      var k := |vecs| - 1;
      WrittenSame(cs, ds, f, vecs[..k]);
      assert cs[f + k] == ds[f + k];
    }
  }

  /** The list when one chunk's free space is written to. */
  lemma FillChunk(cs: seq<Chunk>, lwdp: Link, lwd: nat, k: nat, bytes: seq<u8>)
    requires Core(cs, lwdp, lwd) && k < |cs| && cs[k].Ok() && |bytes| <= cs[k].Space()
    ensures var e := cs[k := Overwritten(cs[k], cs[k].misalign + cs[k].off, bytes)];
            Core(e, lwdp, lwd) && AllOk(cs) && AllOk(e) && Flat(e) == Flat(cs) && Addrs(e) == Addrs(cs) && Last(e) == Last(cs)
  {
    LwdFacts(cs, lwdp, lwd);
    OverwrittenFacts(cs[k], bytes);
    var c := Overwritten(cs[k], cs[k].misalign + cs[k].off, bytes);
    hide Core, Flat, Chunk.Ok, Chunk.Data, LastData, Points;
    SwapBytes(cs, k, c);
    SameAddrs(cs, cs[k := c]);
    SameOffsets(cs, lwdp, lwd, k, c);
  }

  lemma FitsOne(cs: seq<Chunk>, f: nat, vecs: seq<Vec>, i: nat)
    requires Fits(cs, f, vecs) && i < |vecs|
    ensures f + i < |cs| && cs[f + i].Ok() && vecs[i].addr == cs[f + i].addr
    ensures vecs[i].at == cs[f + i].misalign + cs[f + i].off && vecs[i].len <= cs[f + i].Space()
  {
  }

  lemma FitsFilled(cs: seq<Chunk>, f: nat, vecs: seq<Vec>, k: nat, bytes: seq<u8>)
    requires Fits(cs, f, vecs) && k < |cs| && cs[k].Ok() && |bytes| <= cs[k].Space()
    ensures Fits(cs[k := Overwritten(cs[k], cs[k].misalign + cs[k].off, bytes)], f, vecs)
  {
    var c := Overwritten(cs[k], cs[k].misalign + cs[k].off, bytes);
    OverwrittenFacts(cs[k], bytes);
    var e := cs[k := c];
    assert forall j {:trigger e[j]} :: 0 <= j < |e| && j != k ==> e[j] == cs[j];
  }

  lemma FitsMore(cs: seq<Chunk>, f: nat, vecs: seq<Vec>, v: Vec)
    requires Fits(cs, f, vecs) && f + |vecs| < |cs| && cs[f + |vecs|].Ok()
    requires var c := cs[f + |vecs|]; v.addr == c.addr && v.at == c.misalign + c.off && v.len <= c.Space()
    ensures Fits(cs, f, vecs + [v])
    ensures Written(cs, f, vecs + [v]) == Written(cs, f, vecs) + cs[f + |vecs|].mem[v.at..v.at + v.len]
  {
    assert (vecs + [v])[..|vecs|] == vecs;
  }

  lemma FillStep(cs0: seq<Chunk>, lwdp: Link, lwd: nat, f: nat, vecs: seq<Vec>, src: seq<u8>,
                 cs: seq<Chunk>, i: nat, done: nat, cut: seq<Vec>, n: nat)
    requires FillInv(cs0, lwdp, lwd, f, vecs, src, cs, i, done, cut) && i < |vecs|
    requires n == Min(|src| - done, vecs[i].len)
    ensures f + i < |cs| && cs[f + i].Ok() && n <= cs[f + i].Space() && vecs[i].at == cs[f + i].misalign + cs[f + i].off
    ensures vecs[i].at + n <= |cs[f + i].mem|
    ensures FillInv(cs0, lwdp, lwd, f, vecs, src,
                    cs[f + i := Overwritten(cs[f + i], vecs[i].at, src[done..done + n])],
                    i + 1, done + n, cut + [Vec(vecs[i].addr, vecs[i].at, n)])
  {
    hide Core, Flat, AllOk, Addrs, Fits, Written, TotalLen, Last;
    FitsOne(cs, f, vecs, i);
    var k, bytes := f + i, src[done..done + n];
    var e := cs[k := Overwritten(cs[k], vecs[i].at, bytes)];
    FillChunk(cs, lwdp, lwd, k, bytes);
    FitsFilled(cs, f, vecs, k, bytes);
    FitsFilled(cs, f, cut, k, bytes);
    WrittenSame(cs, e, f, cut);
    OverwrittenFacts(cs[k], bytes);
    FitsMore(e, f, cut, Vec(vecs[i].addr, vecs[i].at, n));
    assert src[..done] + bytes == src[..done + n];
    TotalNext(vecs, i);
  }

  lemma TotalNext(vecs: seq<Vec>, i: nat)
    requires i < |vecs|
    ensures TotalLen(vecs[..i + 1]) == TotalLen(vecs[..i]) + vecs[i].len
  {
    assert vecs[..i + 1][..i] == vecs[..i];
  }

  lemma FillEnd(cs0: seq<Chunk>, lwdp: Link, lwd: nat, f: nat, vecs: seq<Vec>, src: seq<u8>,
                cs: seq<Chunk>, i: nat, done: nat, cut: seq<Vec>)
    requires FillInv(cs0, lwdp, lwd, f, vecs, src, cs, i, done, cut) && i == |vecs| && |src| <= TotalLen(vecs)
    ensures Fits(cs, f, cut) && Written(cs, f, cut) == src && |cut| == |vecs|
  {
    assert vecs[..i] == vecs;
    assert src[..|src|] == src;
  }

  /** The same number of chunks, each with the same room. */
  predicate SameRoom(cs: seq<Chunk>, ds: seq<Chunk>) {
    && |ds| == |cs|
    && forall k {:trigger ds[k]} :: 0 <= k < |ds| ==> ds[k].Ok() && cs[k].Ok() && ds[k].Space() == cs[k].Space()
  }

  /** What the caller does with reserved room: src goes into the storage that the vectors name, and their
      lengths are cut to what it takes. */
  method Fill(b: Evbuffer, vecs: seq<Vec>, src: seq<u8>, ghost f: nat) returns (cut: seq<Vec>)
    requires b.Valid() && Fits(b.chain, f, vecs) && |src| <= TotalLen(vecs)
    modifies b`chain
    ensures b.Valid() && b.Contents() == old(b.Contents()) && Addrs(b.chain) == old(Addrs(b.chain))
    ensures |cut| == |vecs| && Fits(b.chain, f, cut) && Fits(b.chain, f, vecs) && Written(b.chain, f, cut) == src
    ensures SameRoom(old(b.chain), b.chain)
  {
    hide Core, Flat, AllOk, Addrs, Distinct, FillInv, Fits, Written, TotalLen, Last, Chunk.Data;
    ghost var cs0 := b.chain;
    var cs, i: nat, done: nat := b.chain, 0, 0;
    cut := [];
    FillStart(cs, b.lwdp, b.lwd, f, vecs, src);
    EachOk(cs, b.lwdp, b.lwd);
    while i < |vecs|
      invariant FillInv(cs0, b.lwdp, b.lwd, f, vecs, src, cs, i, done, cut) && i <= |vecs| && done <= |src|
      invariant SameRoom(cs0, cs)
      modifies {}
    {
      FillPlace(cs0, b.lwdp, b.lwd, f, vecs, src, cs, i, done, cut);
      var n := Min(|src| - done, vecs[i].len);
      FillStep(cs0, b.lwdp, b.lwd, f, vecs, src, cs, i, done, cut, n);
      var k := Evbuffer.Follow(cs, vecs[i].addr, f + i);
      OverwrittenFacts(cs[k], src[done..done + n]);
      cs := cs[k := Overwritten(cs[k], vecs[i].at, src[done..done + n])];
      cut := cut + [Vec(vecs[i].addr, vecs[i].at, n)];
      i, done := i + 1, done + n;
    }
    FillEnd(cs0, b.lwdp, b.lwd, f, vecs, src, cs, i, done, cut);
    FillSame(cs0, b.lwdp, b.lwd, f, vecs, src, cs, i, done, cut);
    b.chain := cs;
  }

  lemma EachOk(cs: seq<Chunk>, lwdp: Link, lwd: nat)
    requires Core(cs, lwdp, lwd)
    ensures forall k {:trigger cs[k]} :: 0 <= k < |cs| ==> cs[k].Ok()
  {
  }

  lemma FillPlace(cs0: seq<Chunk>, lwdp: Link, lwd: nat, f: nat, vecs: seq<Vec>, src: seq<u8>,
                  cs: seq<Chunk>, i: nat, done: nat, cut: seq<Vec>)
    requires FillInv(cs0, lwdp, lwd, f, vecs, src, cs, i, done, cut) && i < |vecs|
    ensures Distinct(cs) && f + i < |cs| && vecs[i].addr == cs[f + i].addr
  {
    hide Flat, Written, TotalLen;
  }

  lemma FillSame(cs0: seq<Chunk>, lwdp: Link, lwd: nat, f: nat, vecs: seq<Vec>, src: seq<u8>,
                 cs: seq<Chunk>, i: nat, done: nat, cut: seq<Vec>)
    requires FillInv(cs0, lwdp, lwd, f, vecs, src, cs, i, done, cut)
    ensures Core(cs, lwdp, lwd) && AllOk(cs) && AllOk(cs0) && Flat(cs) == Flat(cs0) && Addrs(cs) == Addrs(cs0)
    ensures Last(cs) == Last(cs0) && Fits(cs, f, vecs)
  {
    hide Flat, Written, TotalLen;
  }

  // ---------------------------------------------------------------- what a commit makes of it

  /** Vectors are accepted by where they begin, however long they are. */
  lemma AcceptsAt(cs: seq<Chunk>, lwdp: Link, lwd: nat, f: nat, vecs: seq<Vec>)
    requires Core(cs, lwdp, lwd) && Fits(cs, f, vecs) && |vecs| > 0
    ensures lwd < |cs| && cs[lwd].Ok()
    ensures Accepts(cs, lwd, vecs) <==> f == |cs| - 1 || f == FirstWithSpace(cs, lwd)
  {
    if Fits(cs, |cs| - 1, vecs) {
      assert vecs[0].addr == cs[f].addr == cs[|cs| - 1].addr;
    }
    var g := FirstWithSpace(cs, lwd);
    if Fits(cs, g, vecs) {
      assert vecs[0].addr == cs[f].addr == cs[g].addr;
    }
  }

  lemma FitsOnce(cs: seq<Chunk>, f: nat, g: nat, vecs: seq<Vec>)
    requires Fits(cs, f, vecs) && Fits(cs, g, vecs) && Distinct(cs) && |vecs| > 0
    ensures f == g
  {
    assert vecs[0].addr == cs[f].addr == cs[g].addr;
  }

  /** Filled and cut vectors are accepted when the reserved ones are. */
  lemma CutAccepted(cs: seq<Chunk>, ds: seq<Chunk>, lwdp: Link, lwd: nat, f: nat, vecs: seq<Vec>, cut: seq<Vec>)
    requires Core(cs, lwdp, lwd) && Core(ds, lwdp, lwd) && SameRoom(cs, ds) && |cut| == |vecs|
    requires Fits(cs, f, vecs) && Fits(ds, f, cut)
    ensures Accepts(ds, lwd, cut) <==> Accepts(cs, lwd, vecs)
  {
    hide Core, Fits, Chunk.Ok, Chunk.Space;
    if |vecs| > 0 {
      AcceptsAt(cs, lwdp, lwd, f, vecs);
      AcceptsAt(ds, lwdp, lwd, f, cut);
      hide Accepts;
      assert ds[lwd].Space() == cs[lwd].Space();
    }
  }

  lemma NothingWritten(cs: seq<Chunk>, f: nat, vecs: seq<Vec>)
    requires Fits(cs, f, vecs) && |vecs| == 0
    ensures Written(cs, f, vecs) == [] && TotalLen(vecs) == 0
  {
  }

  lemma WrittenAnywhere(cs: seq<Chunk>, f: nat, g: nat, vecs: seq<Vec>)
    requires Fits(cs, f, vecs) && Fits(cs, g, vecs) && Distinct(cs)
    ensures Written(cs, f, vecs) == Written(cs, g, vecs)
  {
    if |vecs| > 0 {
      FitsOnce(cs, f, g, vecs);
    } else {
      NothingWritten(cs, f, vecs);
      NothingWritten(cs, g, vecs);
    }
  }

  /** A reservation of size bytes in n vectors succeeds and can be committed. */
  predicate Fillable(cs: seq<Chunk>, lwd: nat, size: nat, n: int) {
    && n >= 1 && (n >= 2 && size == 0 ==> !FullAtEnd(cs, lwd)) && (n == 1 ==> !Skips(cs, lwd, size))
  }

  /** evbuffer_reserve_space, what is read put into the vectors, and evbuffer_commit_space: src is appended, or
      nothing when no room is reserved or the reservation is refused. */
  method AppendInPlace(b: Evbuffer, size: nat, nVecs: int, src: seq<u8>) returns (done: bool)
    requires b.Valid() && |src| <= size
    modifies b
    ensures b.Valid() && done == old(Fillable(b.chain, b.lwd, size, nVecs))
    ensures b.Contents() == if done then old(b.Contents()) + src else old(b.Contents())
    ensures forall a :: a in Addrs(b.chain) ==> a in old(Addrs(b.chain)) || fresh(a)
  {
    hide Core, Flat, AllOk, Addrs, Distinct, LastData, Points, Fits, Written, TotalLen, Accepts, Short, Lengthened;
    hide Skips, FullAtEnd, SameRoom;
    var n, vecs, aborted, f := ReserveSpace(b, size, nVecs);
    if n < 0 || aborted {
      return false;
    }
    ghost var cs, lwd := b.chain, b.lwd;
    var cut := Fill(b, vecs, src, f);
    ghost var ds := b.chain;
    LwdFacts(ds, b.lwdp, lwd);
    CutAccepted(cs, ds, b.lwdp, lwd, f, vecs, cut);
    var result := CommitSpace(b, cut);
    done := result == 0;
    LwdFacts(b.chain, b.lwdp, b.lwd);
    if done {
      ghost var g: nat :| Fits(ds, g, cut) && b.Contents() == Flat(ds) + Written(ds, g, cut);
      WrittenAnywhere(ds, f, g, cut);
    }
  }

  // ---------------------------------------------------------------- two failures, from an empty buffer

  lemma ShortOne(cs: seq<Chunk>, n: nat, len: nat)
    requires |cs| == 1 && cs[0].Ok() && cs[0].Small(900) && n >= 2 && len > SMALLEST - 900
    ensures Short(cs, 0, n, len) && Room(cs, FirstWithSpace(cs, 0), |cs|) == SMALLEST - 900
  {
    assert Room(cs, 0, 1) == Room(cs, 0, 0) + cs[0].Space();
  }

  lemma ShortTwo(cs: seq<Chunk>, n: nat, len: nat)
    requires |cs| == 2 && cs[0].Ok() && cs[0].Small(900) && cs[1].Ok() && cs[1].Small(0) && n >= 3 && len > 2 * SMALLEST - 900
    ensures Short(cs, 0, n, len) && Room(cs, FirstWithSpace(cs, 0), |cs|) == 2 * SMALLEST - 900
  {
    assert Room(cs, 0, 1) == Room(cs, 0, 0) + cs[0].Space();
    assert Room(cs, 0, 2) == Room(cs, 0, 1) + cs[1].Space();
  }

  lemma LengthenedBy(cs: seq<Chunk>, lwd: nat, ds: seq<Chunk>, lwd': nat, len: nat)
    requires AllOk(cs) && lwd < |cs| && Lengthened(cs, lwd, ds, lwd', len)
    requires len <= Room(cs, FirstWithSpace(cs, lwd), |cs|) + SMALLEST
    ensures |ds| == |cs| + 1 && lwd' == lwd && ds[|cs|].Small(0)
    ensures forall k {:trigger ds[k]} :: 0 <= k < |cs| ==> ds[k] == cs[k]
  {
    assert forall k {:trigger ds[k]} :: 0 <= k < |cs| ==> ds[k] == ds[..|cs|][k];
  }

  lemma NothingIn(b: Evbuffer)
    requires b.Valid() && b.chain == []
    ensures b.totalLen == 0 && AllOk(b.chain) && Flat(b.chain) == []
  {
  }

  /** Four calls after which a reservation is refused: 900 bytes added to an empty buffer, room for 100 and then
      for 1100 bytes reserved in up to three vectors, and room for 100 bytes reserved in one. */
  method SkippedReservation(bytes: seq<u8>) returns (b: Evbuffer, result: int)
    requires |bytes| == 900
    ensures fresh(b) && b.Valid() && b.Contents() == bytes && result == -1
  {
    hide Core, Flat, AllOk, Addrs, Distinct, LastData, Points, Fits, TotalLen, Accepts, Room, Short, Lengthened, Roomy;
    b := new Evbuffer();
    NothingIn(b);
    var ok := b.Add(bytes);
    EachOk(b.chain, b.lwdp, b.lwd);
    LwdFacts(b.chain, b.lwdp, b.lwd);
    ShortOne(b.chain, 3, 100);
    ghost var one := b.chain;
    var n, vecs, aborted, f := ReserveSpace(b, 100, 3);
    LengthenedBy(one, 0, b.chain, b.lwd, 100);
    EachOk(b.chain, b.lwdp, b.lwd);
    LwdFacts(b.chain, b.lwdp, b.lwd);
    ShortTwo(b.chain, 3, 1100);
    ghost var two := b.chain;
    n, vecs, aborted, f := ReserveSpace(b, 1100, 3);
    LengthenedBy(two, 0, b.chain, b.lwd, 1100);
    EachOk(b.chain, b.lwdp, b.lwd);
    LwdFacts(b.chain, b.lwdp, b.lwd);
    n, vecs, aborted, f := ReserveSpace(b, 100, 1);
    result := CommitSpace(b, vecs);
  }

  /** Two calls of which the second fails an assertion: a chunk filled to its end, and nothing reserved in two
      vectors. */
  method AbortedReservation(bytes: seq<u8>) returns (b: Evbuffer, aborted: bool)
    requires |bytes| == SMALLEST
    ensures fresh(b) && b.Valid() && b.Contents() == bytes && aborted
  {
    hide Core, Flat, AllOk, Addrs, Distinct, LastData, Points, Fits, TotalLen, Accepts, Room, Short, Lengthened, Roomy;
    b := new Evbuffer();
    NothingIn(b);
    var ok := b.Add(bytes);
    EachOk(b.chain, b.lwdp, b.lwd);
    LwdFacts(b.chain, b.lwdp, b.lwd);
    var n, vecs;
    ghost var f;
    n, vecs, aborted, f := ReserveSpace(b, 0, 2);
  }
}
