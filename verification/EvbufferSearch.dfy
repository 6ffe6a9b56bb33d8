/** Positions in a chained buffer, and searching it as if it were one flat byte sequence. */
module EvbufferSearch {
  import opened Bytes
  import opened Chunks
  import opened Evbuffers
  import opened Options

  const CR: u8 := 13
  const LF: u8 := 10
  const NUL: u8 := 0
  const CHUNK_SZ: nat := 128

  /** p is a position in cs, given by chunk k and a place in it, possibly right behind its data. */
  ghost predicate Near(cs: seq<Chunk>, p: Ptr, k: nat)
    requires AllOk(cs)
  {
    && k <= |cs|
    && AllOk(cs[..k])
    && p.pos == |Flat(cs[..k])| + p.inChunk
    && (if k < |cs| then p.chunk == cs[k].addr && p.inChunk <= cs[k].off else p.chunk == null && p.inChunk == 0)
  }

  lemma AtIsNear(cs: seq<Chunk>, p: Ptr, k: nat)
    requires AllOk(cs) && PtrAt(cs, p, k)
    ensures Near(cs, p, k)
  {
  }

  /** Chunk k holds the bytes from p to its end. */
  lemma WindowBytes<T>(f: seq<T>, d: seq<T>, q: nat, lo: nat, hi: nat)
    requires lo <= hi <= |d| && q + hi <= |f| && f[q + lo..q + hi] == d[lo..hi]
    ensures forall j {:trigger d[j]} {:trigger f[q + j]} :: lo <= j < hi ==> d[j] == f[q + j]
  {
    forall j {:trigger d[j]} | lo <= j < hi ensures d[j] == f[q + j] {
      assert d[lo..hi][j - lo] == f[q + lo..q + hi][j - lo];
    }
  }

  lemma NearFacts(cs: seq<Chunk>, p: Ptr, k: nat)
    requires AllOk(cs) && Near(cs, p, k)
    ensures p.chunk == AddrAt(cs, k)
    ensures k <= |cs| && 0 <= p.pos <= |Flat(cs)| && (k == |cs| ==> p.pos == |Flat(cs)|)
    ensures k < |cs| ==> cs[k].Ok() && p.inChunk <= cs[k].off
    ensures k < |cs| ==> p.pos + (cs[k].off - p.inChunk) <= |Flat(cs)|
    ensures k < |cs| ==>
              forall j {:trigger cs[k].Data()[j]} {:trigger Flat(cs)[p.pos - p.inChunk + j]} ::
                p.inChunk <= j < cs[k].off ==> cs[k].Data()[j] == Flat(cs)[p.pos - p.inChunk + j]
  {
    hide Flat;
    if k < |cs| {
      FlatWindow(cs, k, p.inChunk, cs[k].off);
      WindowBytes(Flat(cs), cs[k].Data(), p.pos - p.inChunk, p.inChunk, cs[k].off);
    } else {
      assert cs[..k] == cs;
    }
  }

  function AddrAt(cs: seq<Chunk>, k: nat): Addr? {
    if k < |cs| then cs[k].addr else null
  }

  /** The position right behind chunk k. */
  lemma NearNext(cs: seq<Chunk>, p: Ptr, k: nat)
    requires AllOk(cs) && Near(cs, p, k) && k < |cs|
    ensures cs[k].Ok() && Near(cs, Ptr(p.pos + (cs[k].off - p.inChunk), AddrAt(cs, k + 1), 0), k + 1)
  {
    FlatNext(cs, k);
  }

  /** Skipping n bytes within chunk k. */
  lemma NearSkip(cs: seq<Chunk>, p: Ptr, k: nat, n: nat)
    requires AllOk(cs) && Near(cs, p, k) && k < |cs| && p.inChunk + n <= cs[k].off
    ensures Near(cs, Ptr(p.pos + n, p.chunk, p.inChunk + n), k)
    ensures p.inChunk + n < cs[k].off ==> PtrAt(cs, Ptr(p.pos + n, p.chunk, p.inChunk + n), k)
  {
  }

  lemma NearStart(cs: seq<Chunk>)
    requires AllOk(cs)
    ensures Near(cs, Ptr(0, AddrAt(cs, 0), 0), 0)
  {
    assert cs[..0] == [];
  }

  const NOT_FOUND := Ptr(-1, null, 0)

  /** evbuffer_ptr_set: to offset position, or (add) forward by position. */
  method PtrSet(b: Evbuffer, pos: Ptr, position: nat, add: bool, ghost k: nat)
    returns (ok: bool, p: Ptr, ghost kOut: nat)
    requires b.Valid()
    requires add && pos.pos >= 0 ==> PtrAt(b.chain, pos, k)
    ensures ok <==> (add ==> 0 <= pos.pos && pos.pos + position <= SIZE_MAX)
                    && (if add then pos.pos else 0) + position <= |b.Contents()|
    ensures ok ==> p.pos == (if add then pos.pos else 0) + position && PtrAt(b.chain, p, kOut)
    ensures !ok ==> p == NOT_FOUND || p == pos
  {
    hide Flat, AllOk, Addrs, Distinct, LastData, Core;
    var cs := b.chain;
    LwdFacts(cs, b.lwdp, b.lwd);
    NearStart(cs);
    var left: nat, i: nat, inChunk: nat, target: int := position, 0, 0, position;
    if add {
      if pos.pos < 0 || SIZE_MAX - position < pos.pos {
        return false, pos, k;
      }
      AtIsNear(cs, pos, k);
      i := Evbuffer.Follow(cs, pos.chunk, k);
      inChunk, target := pos.inChunk, pos.pos + position;
    }
    NearOk(cs, i);
    while i < |cs| && inChunk + left >= cs[i].off
      invariant i <= |cs| && (i < |cs| ==> cs[i].Ok() && inChunk <= cs[i].off)
      invariant Near(cs, Ptr(target - left, AddrAt(cs, i), inChunk), i)
      decreases |cs| - i
    {
      NearNext(cs, Ptr(target - left, AddrAt(cs, i), inChunk), i);
      left := left - (cs[i].off - inChunk);
      i, inChunk := i + 1, 0;
      NearOk(cs, i);
    }
    NearFacts(cs, Ptr(target - left, AddrAt(cs, i), inChunk), i);
    kOut := i;
    if i < |cs| {
      NearSkip(cs, Ptr(target - left, AddrAt(cs, i), inChunk), i, left);
      ok, p := true, Ptr(target, cs[i].addr, inChunk + left);
    } else if left == 0 {
      ok, p := true, Ptr(target, null, 0);
    } else {
      ok, p := false, NOT_FOUND;
    }
  }

  lemma NearOk(cs: seq<Chunk>, k: nat)
    requires AllOk(cs)
    ensures k < |cs| ==> cs[k].Ok()
  {
  }

  /** memcmp: the order of the first two bytes that differ. */
  function Memcmp(a: seq<u8>, b: seq<u8>): int
    requires |a| == |b|
  {
    if |a| == 0 then 0 else if a[0] < b[0] then -1 else if a[0] > b[0] then 1 else Memcmp(a[1..], b[1..])
  }

  lemma {:induction false} MemcmpEqual(a: seq<u8>, b: seq<u8>)
    requires |a| == |b|
    ensures Memcmp(a, b) == 0 <==> a == b
  {
    if |a| > 0 {
      MemcmpEqual(a[1..], b[1..]);
      assert a == [a[0]] + a[1..] && b == [b[0]] + b[1..];
    }
  }

  /** The first bytes that differ decide. */
  lemma {:induction false} MemcmpSign(a: seq<u8>, b: seq<u8>, k: nat)
    requires |a| == |b| && k < |a| && a[..k] == b[..k] && a[k] != b[k]
    ensures Memcmp(a, b) == if a[k] < b[k] then -1 else 1
  {
    if k > 0 {
      assert a[0] == a[..k][0] == b[..k][0] == b[0];
      assert a[1..][..k - 1] == a[..k][1..] == b[..k][1..] == b[1..][..k - 1];
      MemcmpSign(a[1..], b[1..], k - 1);
    }
  }

  lemma {:induction false} MemcmpSplit(a: seq<u8>, b: seq<u8>, n: nat)
    requires |a| == |b| && n <= |a|
    ensures Memcmp(a, b) == if Memcmp(a[..n], b[..n]) != 0 then Memcmp(a[..n], b[..n]) else Memcmp(a[n..], b[n..])
  {
    if n > 0 {
      MemcmpSplit(a[1..], b[1..], n - 1);
      assert a[..n][1..] == a[1..][..n - 1] && b[..n][1..] == b[1..][..n - 1];
      assert a[n..] == a[1..][n - 1..] && b[n..] == b[1..][n - 1..];
    } else {
      assert a[0..] == a && b[0..] == b;
    }
  }

  /** evbuffer_ptr_memcmp */
  method PtrMemcmp(b: Evbuffer, pos: Ptr, mem: seq<u8>, ghost k: nat) returns (r: int)
    requires b.Valid()
    requires 0 <= pos.pos ==> Near(b.chain, pos, k)
    ensures if pos.pos < 0 || pos.pos + |mem| > Min(SIZE_MAX, |b.Contents()|) then r == -1
            else r == Memcmp(b.Contents()[pos.pos..pos.pos + |mem|], mem)
  {
    hide Flat, AllOk, Addrs, Distinct, LastData, Core, Memcmp;
    var cs := b.chain;
    LwdFacts(cs, b.lwdp, b.lwd);
    if pos.pos < 0 || SIZE_MAX - |mem| < pos.pos || pos.pos + |mem| > b.totalLen {
      return -1;
    }
    ghost var f := Flat(cs)[pos.pos..pos.pos + |mem|];
    var i: nat := Evbuffer.Follow(cs, pos.chunk, k);
    var m: nat, inChunk: nat := 0, pos.inChunk;
    CmpStart(f, mem);
    NearOk(cs, i);
    while m < |mem| && i < |cs|
      invariant m <= |mem| && (m < |mem| ==> Near(cs, Ptr(pos.pos + m, AddrAt(cs, i), inChunk), i))
      invariant Memcmp(f, mem) == Memcmp(f[m..], mem[m..])
      decreases |cs| - i
    {
      NearFacts(cs, Ptr(pos.pos + m, AddrAt(cs, i), inChunk), i);
      var n := if |mem| - m + inChunk > cs[i].off then cs[i].off - inChunk else |mem| - m;
      CmpStep(cs, pos.pos, mem, m, i, inChunk, n);
      r := Memcmp(cs[i].Data()[inChunk..inChunk + n], mem[m..m + n]);
      if r != 0 {
        return r;
      }
      m := m + n;
      i, inChunk := i + 1, 0;
    }
    CmpEnd(cs, pos.pos, mem, m, i, inChunk);
    r := 0;
  }

  lemma CmpStart(f: seq<u8>, mem: seq<u8>)
    requires |f| == |mem|
    ensures Memcmp(f, mem) == Memcmp(f[0..], mem[0..])
  {
    assert f[0..] == f && mem[0..] == mem;
  }

  lemma CmpWindow(cs: seq<Chunk>, p: Ptr, i: nat, n: nat)
    requires AllOk(cs) && Near(cs, p, i) && i < |cs| && cs[i].Ok()
    requires p.inChunk <= cs[i].off ==> p.inChunk + n <= cs[i].off
    ensures p.inChunk + n <= cs[i].off && 0 <= p.pos && p.pos + n <= |Flat(cs)|
    ensures cs[i].Ok() && Flat(cs)[p.pos..p.pos + n] == cs[i].Data()[p.inChunk..p.inChunk + n]
  {
    hide Flat;
    FlatWindow(cs, i, p.inChunk, p.inChunk + n);
  }

  lemma CmpStep(cs: seq<Chunk>, q: nat, mem: seq<u8>, m: nat, i: nat, inChunk: nat, n: nat)
    requires AllOk(cs) && i < |cs| && m < |mem| && q + |mem| <= |Flat(cs)|
    requires Near(cs, Ptr(q + m, AddrAt(cs, i), inChunk), i) && cs[i].Ok()
    requires n == if |mem| - m + inChunk > cs[i].off then cs[i].off - inChunk else |mem| - m
    ensures m + n <= |mem| && inChunk + n <= cs[i].off
    ensures m + n < |mem| ==> Near(cs, Ptr(q + m + n, AddrAt(cs, i + 1), 0), i + 1)
    ensures var f := Flat(cs)[q..q + |mem|];
            var r := Memcmp(cs[i].Data()[inChunk..inChunk + n], mem[m..m + n]);
            Memcmp(f[m..], mem[m..]) == if r != 0 then r else Memcmp(f[m + n..], mem[m + n..])
  {
    hide Flat, AllOk, Memcmp, Near, Chunk.Data, Chunk.Ok;
    CmpWindow(cs, Ptr(q + m, AddrAt(cs, i), inChunk), i, n);
    if m + n < |mem| {
      NearNext(cs, Ptr(q + m, AddrAt(cs, i), inChunk), i);
    }
    CmpSlices(Flat(cs), q, mem, m, n);
  }

  lemma CmpSlices(f: seq<u8>, q: nat, mem: seq<u8>, m: nat, n: nat)
    requires q + |mem| <= |f| && m + n <= |mem|
    ensures var g := f[q..q + |mem|];
            var r := Memcmp(f[q + m..q + m + n], mem[m..m + n]);
            Memcmp(g[m..], mem[m..]) == if r != 0 then r else Memcmp(g[m + n..], mem[m + n..])
  {
    hide Memcmp;
    var g := f[q..q + |mem|];
    MemcmpSplit(g[m..], mem[m..], n);
    assert g[m..][..n] == f[q + m..q + m + n];
    assert mem[m..][..n] == mem[m..m + n];
    assert g[m..][n..] == g[m + n..];
    assert mem[m..][n..] == mem[m + n..];
  }

  /** When no chunk is left, nothing is left to compare. */
  lemma CmpEnd(cs: seq<Chunk>, q: nat, mem: seq<u8>, m: nat, i: nat, inChunk: nat)
    requires AllOk(cs) && q + |mem| <= |Flat(cs)| && m <= |mem|
    requires m < |mem| ==> i == |cs| && Near(cs, Ptr(q + m, AddrAt(cs, i), inChunk), i)
    ensures m == |mem|
    ensures Memcmp(Flat(cs)[q..q + |mem|][m..], mem[m..]) == 0
  {
    if m < |mem| {
      NearFacts(cs, Ptr(q + m, AddrAt(cs, i), inChunk), i);
    }
  }

  /** what occurs in f at offset i. */
  ghost predicate MatchAt(f: seq<u8>, what: seq<u8>, i: int) {
    0 <= i && i + |what| <= |f| && f[i..i + |what|] == what
  }

  /** No occurrence starts in [from, to). */
  ghost predicate NoMatch(f: seq<u8>, what: seq<u8>, from: int, to: int) {
    forall i {:trigger MatchAt(f, what, i)} :: from <= i < to ==> !MatchAt(f, what, i)
  }

  /** memchr: the place of the first c at or after from, or |s|. */
  method Memchr(s: seq<u8>, c: u8, from: nat) returns (i: nat)
    requires from <= |s|
    ensures from <= i <= |s| && (i < |s| ==> s[i] == c)
    ensures forall j {:trigger s[j]} :: from <= j < i ==> s[j] != c
  {
    i := from;
    while i < |s| && s[i] != c
      invariant from <= i <= |s|
      invariant forall j {:trigger s[j]} :: from <= j < i ==> s[j] != c
    {
      i := i + 1;
    }
  }

  lemma MatchByte(f: seq<u8>, what: seq<u8>, i: int)
    requires MatchAt(f, what, i) && |what| > 0
    ensures f[i] == what[0]
  {
    assert f[i..i + |what|][0] == f[i];
  }

  /** No occurrence starts at a byte that is not the first one wanted. */
  lemma {:induction false} NoMatchExtend(f: seq<u8>, what: seq<u8>, from: int, mid: int, to: int)
    requires |what| > 0 && NoMatch(f, what, from, mid) && 0 <= mid <= to <= |f|
    requires forall j {:trigger f[j]} :: mid <= j < to ==> f[j] != what[0]
    ensures NoMatch(f, what, from, to)
  {
    forall i {:trigger MatchAt(f, what, i)} | from <= i < to ensures !MatchAt(f, what, i) {
      if mid <= i && MatchAt(f, what, i) {
        MatchByte(f, what, i);
      }
    }
  }

  /** The part of chunk k from p on that has no c, seen in the whole. */
  lemma {:induction false} WindowLacks(cs: seq<Chunk>, p: Ptr, k: nat, c: u8, n: nat)
    requires AllOk(cs) && Near(cs, p, k) && k < |cs| && cs[k].Ok() && p.inChunk + n <= cs[k].off
    requires forall j {:trigger cs[k].Data()[j]} :: p.inChunk <= j < p.inChunk + n ==> cs[k].Data()[j] != c
    ensures 0 <= p.pos && p.pos + n <= |Flat(cs)|
    ensures forall i {:trigger Flat(cs)[i]} :: p.pos <= i < p.pos + n ==> Flat(cs)[i] != c
    ensures p.inChunk + n < cs[k].off ==> p.pos + n < |Flat(cs)| && Flat(cs)[p.pos + n] == cs[k].Data()[p.inChunk + n]
  {
    NearFacts(cs, p, k);
    forall i | p.pos <= i < p.pos + n ensures Flat(cs)[i] != c {
      assert cs[k].Data()[i - p.pos + p.inChunk] == Flat(cs)[i];
    }
    if p.inChunk + n < cs[k].off {
      assert cs[k].Data()[p.inChunk + n] == Flat(cs)[p.pos - p.inChunk + (p.inChunk + n)];
    }
  }

  /** The state of the loop of evbuffer_search_range: nothing found before p. */
  ghost predicate SearchInv(cs: seq<Chunk>, what: seq<u8>, from: int, p: Ptr, k: nat) {
    AllOk(cs) && Near(cs, p, k) && |what| > 0 && from <= p.pos && NoMatch(Flat(cs), what, from, p.pos)
  }

  /** What evbuffer_search_range promises: r is the first occurrence from start on that ends by end. */
  ghost predicate Found(f: seq<u8>, what: seq<u8>, start: int, end: int, r: int) {
    if r < 0 then forall i {:trigger MatchAt(f, what, i)} :: start <= i && i + |what| <= end ==> !MatchAt(f, what, i)
    else MatchAt(f, what, r) && start <= r && r + |what| <= end && NoMatch(f, what, start, r)
  }

  /** evbuffer_search_range */
  method SearchRange(b: Evbuffer, what: seq<u8>, start: Option<Ptr>, end: Option<Ptr>, ghost ks: nat, ghost ke: nat)
    returns (p: Ptr, ghost k: nat)
    requires b.Valid() && b.totalLen <= SIZE_MAX
    requires start.Some? ==> Near(b.chain, start.value, ks)
    requires end.Some? ==> Near(b.chain, end.value, ke)
    ensures |what| == 0 || |what| > SSIZE_MAX ==> p.pos == if start.Some? then start.value.pos else 0
    ensures 0 < |what| <= SSIZE_MAX ==> Found(b.Contents(), what, if start.Some? then start.value.pos else 0,
                                 if end.Some? then end.value.pos else |b.Contents()|, p.pos)
    ensures 0 < |what| <= SSIZE_MAX ==> if p.pos < 0 then p == NOT_FOUND else PtrAt(b.chain, p, k)
  {
    hide Flat, AllOk, Addrs, Distinct, LastData, Core, Near, Found, NoMatch, MatchAt, PtrAt, Memcmp, SearchInv;
    var cs := b.chain;
    LwdFacts(cs, b.lwdp, b.lwd);
    NearStart(cs);
    p, k := if start.Some? then start.value else Ptr(0, AddrAt(cs, 0), 0), if start.Some? then ks else 0;
    ghost var from := p.pos;
    var i: nat := FollowNear(cs, p, k);
    if |what| == 0 || |what| > SSIZE_MAX {
      return;
    }
    ghost var e := if end.Some? then end.value.pos else |Flat(cs)|;
    SearchStart(cs, what, p, k);
    while i < |cs|
      invariant i == k <= |cs| && SearchInv(cs, what, from, p, k)
      decreases |cs| - i, |Flat(cs)| - p.pos
    {
      SearchFacts(cs, what, from, p, i);
      var at := Memchr(cs[i].Data(), what[0], p.inChunk);
      SearchAdvance(cs, what, from, p, i, at);
      if at < cs[i].off {
        p := Ptr(p.pos + (at - p.inChunk), p.chunk, at);
        var r := PtrMemcmp(b, p, what, i);
        SearchHit(b.chain, what, from, p, i, r);
        if r == 0 {
          SearchDone(Flat(cs), what, from, end, p.pos);
          if end.Some? && p.pos + |what| > end.value.pos {
            p := NOT_FOUND;
          }
          return;
        }
        p := Ptr(p.pos + 1, p.chunk, p.inChunk + 1);
        SearchFacts(cs, what, from, p, i);
        if p.inChunk == cs[i].off {
          SearchNext(cs, what, from, p, i);
          i := i + 1;
          p, k := Ptr(p.pos, AddrAt(cs, i), 0), i;
        }
      } else {
        if end.Some? && cs[i].addr == end.value.chunk {
          SearchPastEnd(cs, what, from, p, i, end.value, ke);
          return NOT_FOUND, k;
        }
        SearchNext(cs, what, from, Ptr(p.pos + (cs[i].off - p.inChunk), p.chunk, at), i);
        p := Ptr(p.pos + (cs[i].off - p.inChunk), AddrAt(cs, i + 1), 0);
        i := i + 1;
        k := i;
      }
    }
    if end.Some? { NearFacts(cs, end.value, ke); }
    SearchNone(cs, what, from, p, i, e);
    p := NOT_FOUND;
  }

  lemma SearchStart(cs: seq<Chunk>, what: seq<u8>, p: Ptr, k: nat)
    requires AllOk(cs) && Near(cs, p, k) && |what| > 0
    ensures SearchInv(cs, what, p.pos, p, k) && k <= |cs|
  {
  }

  lemma SearchFacts(cs: seq<Chunk>, what: seq<u8>, from: int, p: Ptr, k: nat)
    requires SearchInv(cs, what, from, p, k)
    ensures AllOk(cs) && Near(cs, p, k) && k <= |cs| && 0 <= p.pos <= |Flat(cs)|
    ensures k < |cs| ==> cs[k].Ok() && p.inChunk <= cs[k].off && |cs[k].Data()| == cs[k].off
    ensures k < |cs| ==> p.pos + (cs[k].off - p.inChunk) <= |Flat(cs)| && p.chunk == cs[k].addr
  {
    NearFacts(cs, p, k);
  }

  /** The search goes on with the next chunk. */
  lemma SearchNext(cs: seq<Chunk>, what: seq<u8>, from: int, p: Ptr, k: nat)
    requires SearchInv(cs, what, from, p, k) && k < |cs| && cs[k].Ok() && p.inChunk == cs[k].off
    ensures SearchInv(cs, what, from, Ptr(p.pos, AddrAt(cs, k + 1), 0), k + 1) && p.pos <= |Flat(cs)|
  {
    hide Near, Flat, NoMatch;
    NearNext(cs, p, k);
    NearFacts(cs, p, k);
  }

  /** The search has come to the end. */
  lemma SearchNone(cs: seq<Chunk>, what: seq<u8>, from: int, p: Ptr, k: nat, e: int)
    requires SearchInv(cs, what, from, p, k) && k == |cs| && e <= |Flat(cs)|
    ensures Found(Flat(cs), what, from, e, -1)
  {
    hide Near, Flat, NoMatch, Found;
    NearFacts(cs, p, k);
    FoundNone(Flat(cs), what, from, e, p.pos);
  }

  /** Follows the chunk pointer of a position. */
  method FollowNear(cs: seq<Chunk>, p: Ptr, ghost k: nat) returns (i: nat)
    requires AllOk(cs) && Distinct(cs) && Near(cs, p, k)
    ensures i == k
  {
    i := Evbuffer.Follow(cs, p.chunk, k);
  }

  /** The first occurrence counts when it ends in time; when it does not, none does. */
  lemma SearchDone(f: seq<u8>, what: seq<u8>, from: int, end: Option<Ptr>, r: int)
    requires MatchAt(f, what, r) && from <= r && NoMatch(f, what, from, r)
    ensures var e := if end.Some? then end.value.pos else |f|;
            Found(f, what, from, e, if end.Some? && r + |what| > end.value.pos then -1 else r)
  {
    if end.Some? && r + |what| > end.value.pos {
      FoundNone(f, what, from, end.value.pos, r);
    }
  }

  /** Nothing before r, and nothing that starts at r or later ends in time. */
  lemma FoundNone(f: seq<u8>, what: seq<u8>, from: int, e: int, r: int)
    requires NoMatch(f, what, from, r) && r + |what| > e
    ensures Found(f, what, from, e, -1)
  {
  }

  /** The bytes of chunk k up to place at cannot start an occurrence. */
  lemma {:induction false} SearchAdvance(cs: seq<Chunk>, what: seq<u8>, from: int, p: Ptr, k: nat, at: nat)
    requires SearchInv(cs, what, from, p, k) && k < |cs| && cs[k].Ok() && p.inChunk <= at <= cs[k].off
    requires forall j {:trigger cs[k].Data()[j]} :: p.inChunk <= j < at ==> cs[k].Data()[j] != what[0]
    ensures SearchInv(cs, what, from, Ptr(p.pos + (at - p.inChunk), p.chunk, at), k)
  {
    WindowLacks(cs, p, k, what[0], at - p.inChunk);
    NoMatchExtend(Flat(cs), what, from, p.pos, p.pos + (at - p.inChunk));
    NearSkip(cs, p, k, at - p.inChunk);
  }

  /** A place where the first byte wanted stands: either an occurrence, or one to be passed over. */
  lemma SearchHit(cs: seq<Chunk>, what: seq<u8>, from: int, p: Ptr, k: nat, r: int)
    requires SearchInv(cs, what, from, p, k) && k < |cs| && cs[k].Ok() && p.inChunk < cs[k].off
    requires |Flat(cs)| <= SIZE_MAX
    requires if p.pos < 0 || p.pos + |what| > Min(SIZE_MAX, |Flat(cs)|) then r == -1
             else r == Memcmp(Flat(cs)[p.pos..p.pos + |what|], what)
    ensures r == 0 <==> MatchAt(Flat(cs), what, p.pos)
    ensures PtrAt(cs, p, k)
    ensures r != 0 ==> SearchInv(cs, what, from, Ptr(p.pos + 1, p.chunk, p.inChunk + 1), k)
  {
    hide Near, PtrAt, Flat, AllOk, Memcmp, NoMatch, MatchAt;
    NearFacts(cs, p, k);
    NearSkip(cs, p, k, 0);
    NearSkip(cs, p, k, 1);
    MatchCompared(Flat(cs), what, p.pos, r);
    NoMatchNext(Flat(cs), what, from, p.pos);
  }

  lemma MatchCompared(f: seq<u8>, what: seq<u8>, i: int, r: int)
    requires 0 <= i && |f| <= SIZE_MAX
    requires if i + |what| > Min(SIZE_MAX, |f|) then r == -1 else r == Memcmp(f[i..i + |what|], what)
    ensures r == 0 <==> MatchAt(f, what, i)
  {
    if i + |what| <= |f| {
      MemcmpEqual(f[i..i + |what|], what);
    }
  }

  lemma NoMatchNext(f: seq<u8>, what: seq<u8>, from: int, to: int)
    requires NoMatch(f, what, from, to)
    ensures !MatchAt(f, what, to) ==> NoMatch(f, what, from, to + 1)
  {
  }

  /** With no candidate left in the chunk of end, nothing can end in time. */
  lemma SearchPastEnd(cs: seq<Chunk>, what: seq<u8>, from: int, p: Ptr, k: nat, end: Ptr, ke: nat)
    requires SearchInv(cs, what, from, p, k) && k < |cs| && cs[k].Ok() && Distinct(cs) && Near(cs, end, ke)
    requires cs[k].addr == end.chunk && p.inChunk <= cs[k].off
    requires SearchInv(cs, what, from, Ptr(p.pos + (cs[k].off - p.inChunk), p.chunk, cs[k].off), k)
    ensures Found(Flat(cs), what, from, end.pos, -1)
  {
    assert ke == k;
    FoundNone(Flat(cs), what, from, end.pos, p.pos + (cs[k].off - p.inChunk));
  }
}
