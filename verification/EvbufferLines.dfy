/** Finding and reading lines in a chained buffer. */
module EvbufferLines {
  import opened Bytes
  import opened Chunks
  import opened Evbuffers
  import opened Options
  import opened EvbufferSearch

  datatype EolStyle = Any | Crlf | CrlfStrict | JustLf | JustNul

  const CRLF: seq<u8> := [CR, LF]

  /** No byte of want lies in [from, to). */
  ghost predicate Lacks(f: seq<u8>, want: set<u8>, from: int, to: int) {
    forall i {:trigger f[i]} :: 0 <= i < |f| && from <= i < to ==> f[i] !in want
  }

  /** r is the place of the first byte of want at or after from; a negative r says there is none. */
  ghost predicate FirstIn(f: seq<u8>, want: set<u8>, from: int, r: int) {
    if r < 0 then Lacks(f, want, from, |f|)
    else from <= r < |f| && f[r] in want && Lacks(f, want, from, r)
  }

  /** From i on, d bytes of want follow each other and no more. */
  ghost predicate RunOf(f: seq<u8>, want: set<u8>, i: int, d: nat) {
    && 0 <= i && i + d <= |f|
    && (forall j {:trigger f[j]} :: i <= j < i + d ==> f[j] in want)
    && (i + d < |f| ==> f[i + d] !in want)
  }

  /** The first line end of the given style at or after from starts at i and has d bytes. */
  ghost predicate LineEnd(f: seq<u8>, style: EolStyle, from: nat, i: int, d: nat) {
    match style
    case Any => 0 <= i && FirstIn(f, {CR, LF}, from, i) && RunOf(f, {CR, LF}, i, d)
    case CrlfStrict => 0 <= i && Found(f, CRLF, from, |f|, i) && d == 2
    case Crlf =>
      || (d == 1 && 0 <= i && FirstIn(f, {LF}, from, i) && (i > from ==> f[i - 1] != CR))
      || (d == 2 && from <= i && 0 <= i && FirstIn(f, {LF}, from, i + 1) && f[i] == CR)
    case JustLf => d == 1 && 0 <= i && FirstIn(f, {LF}, from, i)
    case JustNul => d == 1 && 0 <= i && FirstIn(f, {NUL}, from, i)
  }

  ghost predicate NoLineEnd(f: seq<u8>, style: EolStyle, from: int) {
    match style
    case Any => Lacks(f, {CR, LF}, from, |f|)
    case CrlfStrict => Found(f, CRLF, from, |f|, -1)
    case Crlf => Lacks(f, {LF}, from, |f|)
    case JustLf => Lacks(f, {LF}, from, |f|)
    case JustNul => Lacks(f, {NUL}, from, |f|)
  }

  // ---------------------------------------------------------------- scanning for single bytes

  function MinInt(a: nat, b: nat): nat {
    if a <= b then a else b
  }

  /** find_eol_char: the first CR or LF at or after from, looked for in blocks; |s| if none. */
  method FindEolChar(s: seq<u8>, from: nat) returns (i: nat)
    requires from <= |s|
    ensures from <= i <= |s| && (i < |s| ==> s[i] in {CR, LF})
    ensures Lacks(s, {CR, LF}, from, i)
  {
    i := from;
    while i < |s|
      invariant from <= i <= |s| && Lacks(s, {CR, LF}, from, i)
    {
      var n := if i + CHUNK_SZ < |s| then CHUNK_SZ else |s| - i;
      var cr := Memchr(s[..i + n], CR, i);
      var lf := Memchr(s[..i + n], LF, i);
      LacksBoth(s, from, i, i + n, MinInt(cr, lf));
      if cr < i + n {
        if lf < i + n && lf < cr {
          return lf;
        }
        return cr;
      } else if lf < i + n {
        return lf;
      }
      i := i + n;
    }
  }

  lemma {:induction false} LacksBoth(s: seq<u8>, from: nat, i: nat, e: nat, m: nat)
    requires from <= i <= m <= e <= |s| && Lacks(s, {CR, LF}, from, i)
    requires forall j {:trigger s[..e][j]} :: i <= j < m ==> s[..e][j] != CR && s[..e][j] != LF
    ensures Lacks(s, {CR, LF}, from, m)
  {
    forall j | 0 <= j < |s| && from <= j < m ensures s[j] !in {CR, LF} {
      if i <= j {
        assert s[..e][j] == s[j];
      }
    }
  }

  /** The first byte of want in s at or after from; |s| if none: memchr for one byte,
      find_eol_char for CR and LF. */
  method ScanFor(s: seq<u8>, want: set<u8>, from: nat) returns (i: nat)
    requires from <= |s| && (want == {CR, LF} || want == {LF} || want == {NUL})
    ensures from <= i <= |s| && (i < |s| ==> s[i] in want)
    ensures Lacks(s, want, from, i)
  {
    if want == {CR, LF} {
      i := FindEolChar(s, from);
    } else {
      i := Memchr(s, if want == {LF} then LF else NUL, from);
    }
  }

  /** evbuffer_strchr and evbuffer_find_eol_char: the first byte of want at or after it. */
  method Strchr(cs: seq<Chunk>, it: Ptr, want: set<u8>, ghost k: nat) returns (p: Ptr, ghost kOut: nat)
    requires AllOk(cs) && Distinct(cs) && Near(cs, it, k)
    requires want == {CR, LF} || want == {LF} || want == {NUL}
    ensures FirstIn(Flat(cs), want, it.pos, p.pos)
    ensures if p.pos < 0 then p == NOT_FOUND else PtrAt(cs, p, kOut)
  {
    hide Flat, AllOk, Distinct, Near, Lacks;
    p, kOut := it, k;
    var i: nat := FollowNear(cs, it, k);
    NearFacts(cs, it, k);
    LacksNone(Flat(cs), want, it.pos);
    while i < |cs|
      invariant i == kOut <= |cs| && Near(cs, p, i) && it.pos <= p.pos
      invariant Lacks(Flat(cs), want, it.pos, p.pos)
      decreases |cs| - i
    {
      NearFacts(cs, p, i);
      var at := ScanFor(cs[i].Data(), want, p.inChunk);
      LacksWindow(cs, p, i, want, it.pos, at);
      if at < cs[i].off {
        NearSkip(cs, p, i, at - p.inChunk);
        p := Ptr(p.pos + (at - p.inChunk), p.chunk, at);
        return;
      }
      NearNext(cs, p, i);
      p := Ptr(p.pos + (cs[i].off - p.inChunk), AddrAt(cs, i + 1), 0);
      i := i + 1;
      kOut := i;
    }
    NearFacts(cs, p, i);
    p := NOT_FOUND;
  }

  lemma LacksNone(f: seq<u8>, want: set<u8>, from: int)
    ensures Lacks(f, want, from, from)
  {
  }

  /** What a scan of the rest of chunk k up to place at says about the whole. */
  lemma LacksWindow(cs: seq<Chunk>, p: Ptr, k: nat, want: set<u8>, from: int, at: nat)
    requires AllOk(cs) && Near(cs, p, k) && k < |cs| && cs[k].Ok() && p.inChunk <= at <= cs[k].off
    requires Lacks(Flat(cs), want, from, p.pos) && Lacks(cs[k].Data(), want, p.inChunk, at)
    ensures Lacks(Flat(cs), want, from, p.pos + (at - p.inChunk))
    ensures at < cs[k].off ==> 0 <= p.pos && p.pos + (at - p.inChunk) < |Flat(cs)|
                               && Flat(cs)[p.pos + (at - p.inChunk)] == cs[k].Data()[at]
  {
    hide Near, Flat, AllOk, Lacks, Chunk.Data;
    NearFacts(cs, p, k);
    var q := p.pos - p.inChunk;
    LacksShifted(Flat(cs), cs[k].Data(), want, from, q, p.inChunk, at);
    if at < cs[k].off {
      assert cs[k].Data()[at] == Flat(cs)[q + at];
    }
  }

  lemma {:induction false} LacksShifted(f: seq<u8>, d: seq<u8>, want: set<u8>, from: int, q: int, a: nat, b: nat)
    requires a <= b <= |d| && 0 <= q + a && q + |d| <= |f|
    requires forall j {:trigger d[j]} :: a <= j < |d| ==> d[j] == f[q + j]
    requires Lacks(f, want, from, q + a) && Lacks(d, want, a, b)
    ensures Lacks(f, want, from, q + b)
  {
    forall i | 0 <= i < |f| && from <= i < q + b ensures f[i] !in want {
      if q + a <= i {
        assert d[i - q] == f[q + (i - q)];
      }
    }
  }

  /** evbuffer_strspn: how many bytes of CR and LF follow it. */
  method Strspn(cs: seq<Chunk>, it: Ptr, ghost k: nat) returns (count: nat)
    requires AllOk(cs) && Distinct(cs) && Near(cs, it, k) && k < |cs|
    ensures RunOf(Flat(cs), {CR, LF}, it.pos, count)
  {
    hide Flat, AllOk, Distinct, Near;
    var i: nat := FollowNear(cs, it, k);
    var j: nat := it.inChunk;
    count := 0;
    NearFacts(cs, it, k);
    while true
      invariant i < |cs| && Near(cs, Ptr(it.pos + count, AddrAt(cs, i), j), i) && cs[i].Ok() && j <= cs[i].off
      invariant 0 <= it.pos && it.pos + count <= |Flat(cs)|
      invariant forall m {:trigger Flat(cs)[m]} :: it.pos <= m < it.pos + count ==> Flat(cs)[m] in {CR, LF}
      decreases |cs| - i, cs[i].off - j
    {
      ghost var p := Ptr(it.pos + count, AddrAt(cs, i), j);
      NearFacts(cs, p, i);
      if j < cs[i].off {
        assert cs[i].Data()[j] == Flat(cs)[p.pos - j + j];
        if cs[i].Data()[j] != CR && cs[i].Data()[j] != LF {
          return;
        }
        NearSkip(cs, p, i, 1);
        j, count := j + 1, count + 1;
      } else {
        NearNext(cs, p, i);
        NearFacts(cs, Ptr(p.pos, AddrAt(cs, i + 1), 0), i + 1);
        if i + 1 == |cs| {
          return;
        }
        i, j := i + 1, 0;
      }
    }
  }

  // ---------------------------------------------------------------- line ends

  /** evbuffer_ptr_subtract followed by evbuffer_getchr, for one byte back from a known position. */
  method ByteBefore(b: Evbuffer, it: Ptr, ghost k: nat) returns (p: Ptr, c: u8, ghost kOut: nat)
    requires b.Valid() && PtrAt(b.chain, it, k) && 0 < it.pos <= SIZE_MAX
    ensures p.pos == it.pos - 1 && PtrAt(b.chain, p, kOut) && it.pos <= |b.Contents()| && c == b.Contents()[it.pos - 1]
  {
    hide Flat, AllOk, Distinct, Core, Addrs;
    var cs := b.chain;
    LwdFacts(cs, b.lwdp, b.lwd);
    AtIsNear(cs, it, k);
    NearFacts(cs, it, k);
    if it.chunk != null && 1 <= it.inChunk {
      p, kOut := Ptr(it.pos - 1, it.chunk, it.inChunk - 1), k;
    } else {
      var ok;
      ok, p, kOut := PtrSet(b, NOT_FOUND, it.pos - 1, false, 0);
    }
    AtIsNear(cs, p, kOut);
    NearFacts(cs, p, kOut);
    var i := FollowNear(cs, p, kOut);
    c := cs[i].Data()[p.inChunk];
    assert c == Flat(cs)[p.pos - p.inChunk + p.inChunk];
  }

  /** evbuffer_search_eol: the first line end at or after start; drain is its length. */
  method SearchEol(b: Evbuffer, start: Option<Ptr>, style: EolStyle, ghost ks: nat)
    returns (it: Ptr, drain: nat, ghost k: nat)
    requires b.Valid() && b.totalLen <= SIZE_MAX
    requires start.Some? ==> PtrAt(b.chain, start.value, ks)
    ensures start.None? || start.value.pos >= 0
    ensures var from: nat := if start.Some? then start.value.pos else 0;
            && (it.pos < 0 ==> it == NOT_FOUND && drain == 0 && NoLineEnd(b.Contents(), style, from))
            && (it.pos >= 0 ==> LineEnd(b.Contents(), style, from, it.pos, drain))
    ensures it.pos >= 0 ==> PtrAt(b.chain, it, k)
  {
    hide Flat, AllOk, Distinct, Core, Addrs, Near, PtrAt, Lacks;
    var cs := b.chain;
    LwdFacts(cs, b.lwdp, b.lwd);
    NearStart(cs);
    it, k, drain := Ptr(0, AddrAt(cs, 0), 0), 0, 0;
    if start.Some? {
      AtIsNear(cs, start.value, ks);
      NearFacts(cs, start.value, ks);
      if start.value.chunk == null {
        AtEnd(cs, start.value, ks, style);
        return NOT_FOUND, 0, 0;
      }
      it, k := start.value, ks;
    }
    ghost var from: nat := it.pos;
    if style == CrlfStrict {
      it, k := SearchRange(b, CRLF, Some(it), None, k, 0);
      drain := if it.pos < 0 then 0 else 2;
      return;
    }
    var startPos := it.pos;
    it, k := Strchr(cs, it, if style == Any then {CR, LF} else if style == JustNul then {NUL} else {LF}, k);
    if it.pos < 0 {
      return;
    }
    AtIsNear(cs, it, k);
    NearFacts(cs, it, k);
    if style == Any {
      AtInside(cs, it, k);
      drain := Strspn(cs, it, k);
    } else {
      drain := 1;
      if style == Crlf && it.pos != startPos {
        var it2, c;
        ghost var k2;
        it2, c, k2 := ByteBefore(b, it, k);
        if c == CR {
          it, drain, k := it2, 2, k2;
        }
      }
    }
  }

  lemma AtInside(cs: seq<Chunk>, p: Ptr, k: nat)
    requires AllOk(cs) && PtrAt(cs, p, k) && p.pos < |Flat(cs)|
    ensures k < |cs|
  {
    WholePrefix(cs);
  }

  lemma WholePrefix<T>(s: seq<T>)
    ensures s[..|s|] == s
  {
  }

  /** From the end of the buffer there is no line end. */
  lemma AtEnd(cs: seq<Chunk>, p: Ptr, k: nat, style: EolStyle)
    requires AllOk(cs) && PtrAt(cs, p, k) && p.chunk == null && p.pos >= 0
    ensures NoLineEnd(Flat(cs), style, p.pos)
  {
    assert k == |cs| && cs[..k] == cs;
  }

  /** evbuffer_readln: takes one line and its terminator, of drain bytes, off the front. */
  method Readln(b: Evbuffer, style: EolStyle) returns (line: Option<seq<u8>>, ghost drain: nat)
    requires b.Valid() && b.totalLen <= SIZE_MAX
    modifies b
    ensures b.Valid() && Addrs(b.chain) <= old(Addrs(b.chain))
    ensures line.None? ==> b.Contents() == old(b.Contents()) && NoLineEnd(old(b.Contents()), style, 0)
    ensures line.Some? ==>
              var f, n := old(b.Contents()), |line.value|;
              && LineEnd(f, style, 0, n, drain) && n + drain <= |f|
              && f == line.value + f[n..n + drain] + b.Contents()
  {
    hide Flat, AllOk, Distinct, Core, Addrs, Near, PtrAt, Lacks, LineEnd, NoLineEnd;
    LwdFacts(b.chain, b.lwdp, b.lwd);
    ghost var f := b.Contents();
    var it, extra;
    ghost var k;
    it, extra, k := SearchEol(b, None, style, 0);
    drain := extra;
    if it.pos < 0 {
      return None, 0;
    }
    LineEndInside(f, style, it.pos, extra);
    var n, out := b.Remove(it.pos);
    b.Drain(extra);
    LineParts(f, n, drain);
    line := Some(out);
  }

  lemma LineParts(f: seq<u8>, n: nat, d: nat)
    requires n + d <= |f|
    ensures f == f[..n] + f[n..n + d] + f[n..][d..]
  {
    assert f[n..][d..] == f[n + d..];
  }

  lemma LineEndInside(f: seq<u8>, style: EolStyle, i: int, d: nat)
    requires LineEnd(f, style, 0, i, d)
    ensures 0 <= i && i + d <= |f| && d > 0
  {
  }

  /** At most one place and length qualify as the first line end. */
  lemma LineEndUnique(f: seq<u8>, style: EolStyle, from: nat, i: int, d: nat, i': int, d': nat)
    requires LineEnd(f, style, from, i, d) && LineEnd(f, style, from, i', d')
    ensures i == i' && d == d'
  {
    match style
    case Any =>
    case CrlfStrict => assert MatchAt(f, CRLF, i) && MatchAt(f, CRLF, i');
    case Crlf =>
    case JustLf =>
    case JustNul =>
  }

  /** What the two parts of a line end look like, style by style. */
  lemma LineEndMeaning(f: seq<u8>, style: EolStyle, i: nat, d: nat)
    requires LineEnd(f, style, 0, i, d)
    ensures i + d <= |f|
    ensures var line, term, rest := f[..i], f[i..i + d], f[i + d..];
            match style
            case Any => term != [] && (forall x :: x in term ==> x in {CR, LF}) && CR !in line && LF !in line
                        && (|rest| > 0 ==> rest[0] !in {CR, LF})
            case CrlfStrict => term == CRLF && NoMatch(line + [CR], CRLF, 0, i)
            case Crlf => term in {CRLF, [LF]} && LF !in line && (term == [LF] && i > 0 ==> line[i - 1] != CR)
            case JustLf => term == [LF] && LF !in line
            case JustNul => term == [NUL] && NUL !in line
  {
    LineEndInside(f, style, i, d);
    var line := f[..i];
    assert d == 1 ==> f[i..i + d] == [f[i]];
    assert d == 2 ==> f[i..i + d] == [f[i], f[i + 1]];
    if style == CrlfStrict {
      forall j | 0 <= j < i ensures !MatchAt(line + [CR], CRLF, j) {
        if MatchAt(line + [CR], CRLF, j) {
          assert (line + [CR])[j..j + 2] == f[j..j + 2];
          assert MatchAt(f, CRLF, j);
        }
      }
    }
  }

  // ---------------------------------------------------------------- line after line

  /** Lines with their terminators behind them, in order. */
  function Joined(lines: seq<seq<u8>>, ends: seq<seq<u8>>): seq<u8>
    requires |ends| == |lines|
  {
    if |lines| == 0 then [] else
      var k := |lines| - 1;
      Joined(lines[..k], ends[..k]) + lines[k] + ends[k]
  }

  /** At p in f there is a line with its terminator, up to the first line end behind p. */
  ghost predicate LineAt(f: seq<u8>, style: EolStyle, p: nat, line: seq<u8>, end: seq<u8>) {
    var n, d := |line|, |end|;
    p + n + d <= |f| && LineEnd(f[p..], style, 0, n, d) && f[p..p + n] == line && f[p + n..p + n + d] == end
  }

  /** The first lines of f: each ends at the first line end behind those in front of it. */
  ghost predicate LinesOf(f: seq<u8>, style: EolStyle, lines: seq<seq<u8>>, ends: seq<seq<u8>>)
    decreases |lines|
  {
    && |ends| == |lines|
    && (|lines| > 0 ==>
          var k := |lines| - 1;
          && LinesOf(f, style, lines[..k], ends[..k])
          && LineAt(f, style, |Joined(lines[..k], ends[..k])|, lines[k], ends[k]))
  }

  /** Lines and terminators together are the front of what they were read from. */
  lemma {:induction false} LinesRejoin(f: seq<u8>, style: EolStyle, lines: seq<seq<u8>>, ends: seq<seq<u8>>)
    requires LinesOf(f, style, lines, ends)
    ensures Joined(lines, ends) <= f
    decreases |lines|
  {
    if |lines| > 0 {
      hide LineAt;
      var k := |lines| - 1;
      LinesRejoin(f, style, lines[..k], ends[..k]);
      LineFollows(f, style, Joined(lines[..k], ends[..k]), lines[k], ends[k]);
    }
  }

  lemma LineFollows(f: seq<u8>, style: EolStyle, j: seq<u8>, line: seq<u8>, end: seq<u8>)
    requires j <= f && LineAt(f, style, |j|, line, end)
    ensures j + line + end <= f
  {
    hide LineEnd;
    var p, n, d := |j|, |line|, |end|;
    assert f[..p] + f[p..p + n] + f[p + n..p + n + d] == f[..p + n + d];
  }

  /** How many lines are read determines them. */
  lemma {:induction false} LinesUnique(f: seq<u8>, style: EolStyle, lines: seq<seq<u8>>, ends: seq<seq<u8>>,
                                       lines': seq<seq<u8>>, ends': seq<seq<u8>>)
    requires LinesOf(f, style, lines, ends) && LinesOf(f, style, lines', ends') && |lines'| == |lines|
    ensures lines' == lines && ends' == ends
    decreases |lines|
  {
    if |lines| > 0 {
      hide LineAt, Joined;
      var k := |lines| - 1;
      LinesUnique(f, style, lines[..k], ends[..k], lines'[..k], ends'[..k]);
      LineUnique(f, style, |Joined(lines[..k], ends[..k])|, lines[k], ends[k], lines'[k], ends'[k]);
      hide LinesOf;
      FrontAndLast(lines, lines');
      FrontAndLast(ends, ends');
    }
  }

  lemma FrontAndLast(a: seq<seq<u8>>, b: seq<seq<u8>>)
    requires |a| == |b| > 0 && a[..|a| - 1] == b[..|b| - 1] && a[|a| - 1] == b[|b| - 1]
    ensures a == b
  {
    assert a == a[..|a| - 1] + [a[|a| - 1]];
    assert b == b[..|b| - 1] + [b[|b| - 1]];
  }

  lemma LineUnique(f: seq<u8>, style: EolStyle, p: nat, line: seq<u8>, end: seq<u8>, line': seq<u8>, end': seq<u8>)
    requires LineAt(f, style, p, line, end) && LineAt(f, style, p, line', end')
    ensures line' == line && end' == end
  {
    hide LineEnd;
    LineEndUnique(f[p..], style, 0, |line|, |end|, |line'|, |end'|);
  }

  lemma LinesMore(f: seq<u8>, style: EolStyle, lines: seq<seq<u8>>, ends: seq<seq<u8>>, rest: seq<u8>,
                  line: seq<u8>, end: seq<u8>, rest': seq<u8>)
    requires LinesOf(f, style, lines, ends) && f == Joined(lines, ends) + rest
    requires LineEnd(rest, style, 0, |line|, |end|) && rest == line + end + rest'
    ensures LinesOf(f, style, lines + [line], ends + [end])
    ensures f == Joined(lines + [line], ends + [end]) + rest'
  {
    hide LineEnd;
    var k, j := |lines|, Joined(lines, ends);
    assert (lines + [line])[..k] == lines && (ends + [end])[..k] == ends;
    assert f[|j|..] == rest;
    FrontThirds(f, j, line, end, rest');
  }

  lemma FrontThirds(f: seq<u8>, a: seq<u8>, b: seq<u8>, c: seq<u8>, d: seq<u8>)
    requires f == a + (b + c + d)
    ensures f == a + b + c + d && |a| + |b| + |c| <= |f|
    ensures f[|a|..|a| + |b|] == b && f[|a| + |b|..|a| + |b| + |c|] == c
  {
  }

  /** Reading n lines, or all there are: with their terminators and what is left they are the old contents. */
  method ReadLines(b: Evbuffer, style: EolStyle, n: nat) returns (lines: seq<seq<u8>>, ghost ends: seq<seq<u8>>)
    requires b.Valid() && b.totalLen <= SIZE_MAX
    modifies b
    ensures b.Valid() && LinesOf(old(b.Contents()), style, lines, ends)
    ensures old(b.Contents()) == Joined(lines, ends) + b.Contents()
    ensures |lines| <= n && (|lines| < n ==> NoLineEnd(b.Contents(), style, 0))
  {
    hide Flat, AllOk, Distinct, LastData, Points, Addrs, Near, PtrAt, Lacks, LineEnd, NoLineEnd, LinesOf, Joined;
    lines, ends := [], [];
    ghost var f := b.Contents();
    NoLines(f, style);
    while |lines| < n
      invariant b.Valid() && |lines| <= n && b.totalLen <= SIZE_MAX && |ends| == |lines|
      invariant LinesOf(f, style, lines, ends) && f == Joined(lines, ends) + b.Contents()
    {
      ghost var rest := b.Contents();
      ContentsLength(b);
      var line;
      ghost var d;
      line, d := Readln(b, style);
      ContentsLength(b);
      if line.None? {
        return;
      }
      LinesMore(f, style, lines, ends, rest, line.value, rest[|line.value|..|line.value| + d], b.Contents());
      ends := ends + [rest[|line.value|..|line.value| + d]];
      lines := lines + [line.value];
    }
  }

  lemma NoLines(f: seq<u8>, style: EolStyle)
    ensures LinesOf(f, style, [], []) && Joined([], []) == []
  {
  }

  lemma ContentsLength(b: Evbuffer)
    requires b.Valid()
    ensures b.totalLen == |b.Contents()|
  {
  }
}
