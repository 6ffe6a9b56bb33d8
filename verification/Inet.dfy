/** Printing and reading internet addresses, with and without a port. */
module Inet {
  import opened Bytes
  import opened Options
  import opened Numerals
  import opened InetText

  datatype Family = Inet | Inet6 | Other(number: int)

  // ---------------------------------------------------------------- printing

  lemma {:induction false} Inside(w: seq<nat>, p: nat, i: nat)
    requires p <= |w| && p <= i <= p + ZerosAt(w, p)
    ensures ZerosAt(w, i) == ZerosAt(w, p) - (i - p)
    decreases i - p
  {
    if p < i {
      Inside(w, p + 1, i);
    }
  }

  /** Whether (pos, len) is the first longest run among those that start in front of i. */
  predicate LongestBefore(w: seq<nat>, i: nat, pos: int, len: nat)
    requires i <= |w|
  {
    && (forall p {:trigger ZerosAt(w, p)} :: 0 <= p < i ==> ZerosAt(w, p) <= len)
    && (len > 0 ==> 0 <= pos < i && ZerosAt(w, pos) == len)
    && (len > 0 ==> forall p {:trigger ZerosAt(w, p)} :: 0 <= p < pos ==> ZerosAt(w, p) < len)
  }

  lemma PastRun(w: seq<nat>, i: nat, j: nat, pos: int, len: nat)
    requires i < |w| && j == i + ZerosAt(w, i) && ZerosAt(w, i) > 0
    requires LongestBefore(w, i, pos, len)
    ensures ZerosAt(w, i) > len ==> LongestBefore(w, j, i, ZerosAt(w, i))
    ensures ZerosAt(w, i) <= len ==> LongestBefore(w, j, pos, len)
  {
    forall p | i <= p < j
      ensures ZerosAt(w, p) == ZerosAt(w, i) - (p - i)
    {
      Inside(w, i, p);
    }
  }

  lemma LongestFound(w: seq<nat>, pos: int, len: nat)
    requires LongestBefore(w, |w|, pos, len) && len > 0
    ensures Longest(w, 0) == (pos, len)
  {
    var r := Longest(w, 0);
    assert ZerosAt(w, r.0) <= len;
  }

  lemma NoneFound(w: seq<nat>, pos: int, len: nat)
    requires LongestBefore(w, |w|, pos, len) && len <= 1
    ensures Longest(w, 0).1 <= 1
  {
    var r := Longest(w, 0);
  }

  /** The gap loop: the first longest run of at least two zero words, or -1. */
  method FindGap(words: seq<nat>) returns (longestGapPos: int)
    requires |words| == 8
    ensures longestGapPos == -1 <==> Longest(words, 0).1 <= 1
    ensures longestGapPos != -1 ==> longestGapPos == Longest(words, 0).0
  {
    var longestGapLen, curGapPos, curGapLen := 0, -1, 0;
    longestGapPos := -1;
    var i := 0;
    while i < 8
      invariant 0 <= i <= 8 && longestGapLen >= 0
      invariant LongestBefore(words, i, longestGapPos, longestGapLen)
    {
      if words[i] == 0 {
        curGapPos, i := i, i + 1;
        curGapLen := 1;
        while i < 8 && words[i] == 0
          invariant curGapPos < i <= 8 && curGapLen == i - curGapPos
          invariant ZerosAt(words, curGapPos) == curGapLen + ZerosAt(words, i)
        {
          i := i + 1;
          curGapLen := curGapLen + 1;
        }
        PastRun(words, curGapPos, i, longestGapPos, longestGapLen);
        if curGapLen > longestGapLen {
          longestGapPos := curGapPos;
          longestGapLen := curGapLen;
        }
      } else {
        i := i + 1;
      }
    }
    if longestGapLen <= 1 {
      NoneFound(words, longestGapPos, longestGapLen);
      longestGapPos := -1;
    } else {
      LongestFound(words, longestGapPos, longestGapLen);
    }
  }

  lemma {:induction false} EachSnoc(w: seq<nat>, v: nat)
    ensures Each(w + [v]) == Each(w) + (Hex(v) + ":")
  {
    hide Hex;
    if |w| == 0 {
      assert w + [v] == [v];
      assert Each([v][1..]) == "";
      assert Hex(v) + (":" + "") == Hex(v) + ":";
    } else {
      EachSnoc(w[1..], v);
      assert (w + [v])[1..] == w[1..] + [v];
      assert Hex(w[0]) + (":" + (Each(w[1..]) + (Hex(v) + ":"))) == Hex(w[0]) + (":" + Each(w[1..])) + (Hex(v) + ":");
    }
  }

  lemma JoinedAt(w: seq<nat>, i: nat)
    requires i < |w|
    ensures i + 1 == |w| ==> Joined(w[i..]) == Hex(w[i])
    ensures i + 1 < |w| ==> Joined(w[i..]) == Hex(w[i]) + (":" + Joined(w[i + 1..]))
  {
    assert w[i..][1..] == w[i + 1..];
  }

  lemma Step(text: string, a: string, b: string, rest: string)
    ensures text + (a + (b + rest)) == text + a + b + rest
  {
  }

  /** The text that is still to be printed at word i: after the gap, or in front of it. */
  predicate Printed(w: seq<nat>, gap: int, i: nat, text: string)
    requires |w| == 8 && i <= 8
  {
    && (gap == -1 ==> text + Joined(w[i..]) == Joined(w))
    && (gap >= 0 && i <= gap ==> text == Each(w[..i]))
    && (gap >= 0 && i > gap ==>
          gap + ZerosAt(w, gap) <= i && text + Joined(w[i..]) == Compressed(w, gap, ZerosAt(w, gap)))
  }

  lemma PrintedWord(w: seq<nat>, gap: int, i: nat, text: string)
    requires |w| == 8 && i < 8 && i != gap && -1 <= gap < 8
    requires gap >= 0 ==> ZerosAt(w, gap) > 0
    requires Printed(w, gap, i, text)
    ensures i != 7 ==> Printed(w, gap, i + 1, text + Hex(w[i]) + ":")
    ensures i == 7 ==> Printed(w, gap, i + 1, text + Hex(w[i]))
  {
    hide Hex, Each, Joined, Compressed;
    JoinedAt(w, i);
    NoWords();
    if 0 <= gap && i < gap {
      EachSnoc(w[..i], w[i]);
      assert w[..i] + [w[i]] == w[..i + 1];
      assert text + Hex(w[i]) + ":" == text + (Hex(w[i]) + ":");
    } else if i < 7 {
      Step(text, Hex(w[i]), ":", Joined(w[i + 1..]));
    } else {
      assert w[8..] == [];
      assert text + Hex(w[i]) + "" + "" == text + Hex(w[i]);
    }
  }

  lemma NoWords()
    ensures Joined([]) == "" && Each([]) == ""
  {
  }

  lemma PrintedGap(w: seq<nat>, gap: nat, text: string)
    requires |w| == 8 && gap < 8 && Printed(w, gap, gap, text) && ZerosAt(w, gap) > 0
    ensures Printed(w, gap, gap + ZerosAt(w, gap), text + Separator(gap))
  {
    hide Each, Joined;
    var n := ZerosAt(w, gap);
    assert text + Separator(gap) + Joined(w[gap + n..]) == text + (Separator(gap) + Joined(w[gap + n..]));
  }

  /** The printing loop. */
  method PrintWords(words: seq<nat>, longestGapPos: int) returns (buf: string)
    requires |words| == 8 && -1 <= longestGapPos < 8
    requires longestGapPos >= 0 ==> ZerosAt(words, longestGapPos) > 0
    ensures longestGapPos == -1 ==> buf == Joined(words)
    ensures longestGapPos >= 0 ==> buf == Compressed(words, longestGapPos, ZerosAt(words, longestGapPos))
  {
    hide Each, Joined, Compressed, Hex, Printed;
    buf := "";
    PrintedStart(words, longestGapPos);
    var i := 0;
    while i < 8
      invariant 0 <= i <= 8
      invariant Printed(words, longestGapPos, i, buf)
    {
      if words[i] == 0 && longestGapPos == i {
        PrintedGap(words, i, buf);
        ghost var start := i;
        ghost var before := buf;
        if i == 0 {
          buf := buf + ":";
        }
        buf := buf + ":";
        assert buf == before + Separator(start);
        while i < 8 && words[i] == 0
          invariant start <= i <= 8
          invariant ZerosAt(words, start) == i - start + ZerosAt(words, i)
        {
          i := i + 1;
        }
        assert i == start + ZerosAt(words, start);
      } else {
        PrintedWord(words, longestGapPos, i, buf);
        buf := buf + Hex(words[i]);
        if i != 7 {
          buf := buf + ":";
        }
        i := i + 1;
      }
    }
    PrintedEnd(words, longestGapPos, buf);
  }

  lemma PrintedStart(w: seq<nat>, gap: int)
    requires |w| == 8
    ensures Printed(w, gap, 0, "")
  {
    assert w[0..] == w && "" + Joined(w) == Joined(w) && w[..0] == [];
  }

  lemma PrintedEnd(w: seq<nat>, gap: int, text: string)
    requires |w| == 8 && -1 <= gap < 8 && Printed(w, gap, 8, text)
    ensures gap == -1 ==> text == Joined(w)
    ensures gap >= 0 ==> text == Compressed(w, gap, ZerosAt(w, gap))
  {
    hide Each, Compressed;
    assert w[8..] == [] && text + "" == text;
  }

  /** What a copy into a buffer of len characters, the last one for the end mark, keeps of a text. */
  function Copied(text: string, len: nat): string
    requires len > 0
  {
    if |text| < len then text else text[..len - 1]
  }

  /** An IPv4 text must fit with its end mark; an IPv6 text is refused only when it alone does not fit. */
  method InetNtop(af: Family, src: seq<u8>, len: nat) returns (dst: Option<string>)
    requires (af.Inet? ==> |src| == 4) && (af.Inet6? ==> |src| == 16)
    ensures af.Inet? ==> dst == if |Dotted(src)| >= len then None else Some(Dotted(src))
    ensures af.Inet6? ==> (dst.None? <==> |Text(src)| > len)
    ensures af.Inet6? && dst.Some? ==> len > 0 && dst.value == Copied(Text(src), len)
    ensures af.Other? ==> dst == None
  {
    hide Text, Dotted, HexText;
    match af
    case Inet =>
      var text := Dotted(src);
      if |text| >= len {
        return None;
      }
      return Some(text);
    case Inet6 =>
      var buf := Ntop6(src);
      TextLength(src);
      if |buf| > len {
        return None;
      }
      return Some(Copied(buf, len));
    case Other(_) =>
      return None;
  }

  /** The text put together in the buffer, which has room for it. */
  method Ntop6(addr: seq<u8>) returns (buf: string)
    requires |addr| == 16
    ensures buf == Text(addr)
  {
    hide Words, Dotted, Joined, Compressed, Hex;
    var words := Words(addr);
    if words[0] == 0 && words[1] == 0 && words[2] == 0 && words[3] == 0 && words[4] == 0
       && ((words[5] == 0 && words[6] != 0 && words[7] != 0) || words[5] == 0xffff) {
      if words[5] == 0 {
        return "::" + Dotted(addr[12..]);
      } else {
        return "::" + (Hex(words[5]) + (":" + Dotted(addr[12..])));
      }
    }
    var longestGapPos := FindGap(words);
    buf := PrintWords(words, longestGapPos);
  }

  lemma {:induction false} DottedLength(b: seq<u8>)
    requires |b| > 0
    ensures 0 < |Dotted(b)| <= 4 * |b| - 1
  {
    hide Dec;
    DecLength(b[0]);
    if |b| > 1 {
      DottedLength(b[1..]);
    }
  }

  lemma {:induction false} JoinedLength(w: seq<nat>)
    requires IsWords(w)
    ensures |Joined(w)| <= 5 * |w| && |Each(w)| <= 5 * |w| && |w| <= |Joined(w)| && |w| <= |Each(w)|
  {
    hide Hex;
    if |w| > 0 {
      HexLength(w[0]);
      JoinedLength(w[1..]);
    }
  }

  /** The longest text there is fits into the buffer of 64 characters it is put together in. */
  lemma TextLength(b: seq<u8>)
    requires |b| == 16
    ensures 0 < |Text(b)| < 64
  {
    hide Hex, Dotted, Joined, Each, Words;
    var w := Words(b);
    DottedLength(b[12..]);
    HexLength(w[5]);
    var (pos, len) := Longest(w, 0);
    JoinedLength(w);
    JoinedLength(w[..pos]);
    JoinedLength(w[pos + len..]);
  }

  // ---------------------------------------------------------------- what is left out, and what is cut off

  predicate ZeroRun(w: seq<nat>, pos: nat, len: nat) {
    pos + len <= |w| && forall k {:trigger w[k]} :: pos <= k < pos + len ==> w[k] == 0
  }

  lemma RunBound(w: seq<nat>, p: nat, n: nat)
    requires ZeroRun(w, p, n)
    ensures n <= ZerosAt(w, p)
  {
  }

  /**
   * In pure hexadecimal form one run of zero words is left out if two of them stand together: the
   * longest, and the first of the longest. Otherwise all eight words are printed.
   */
  lemma CompressedRun(b: seq<u8>, pos: nat, len: nat)
    requires |b| == 16 && !Embeds(Words(b)) && Longest(Words(b), 0) == (pos, len)
    ensures len >= 2 ==> ZeroRun(Words(b), pos, len) && Text(b) == Compressed(Words(b), pos, len)
    ensures len < 2 ==> Text(b) == Joined(Words(b))
    ensures forall p: nat, n: nat {:trigger ZeroRun(Words(b), p, n)} :: ZeroRun(Words(b), p, n) && n > 0 ==>
              n < len || (n == len && pos <= p)
  {
    hide Words, Embeds, Joined, Compressed;
    var w := Words(b);
    forall p: nat, n: nat | ZeroRun(w, p, n) && n > 0
      ensures n < len || (n == len && pos <= p)
    {
      RunBound(w, p, n);
      assert ZerosAt(w, p) <= len;
    }
  }

  /** A text that only just fits without its end mark is returned without its last character. */
  lemma CopyComplete(b: seq<u8>, len: nat)
    requires |b| == 16 && |Text(b)| <= len && len > 0
    ensures Copied(Text(b), len) == Text(b) <==> |Text(b)| < len
  {
    hide Text;
  }

  lemma {:induction false} JoinedSnoc(u: seq<nat>, v: nat)
    ensures Joined(u + [v]) == Each(u) + Hex(v)
  {
    hide Hex;
    var w := u + [v];
    if |u| == 0 {
      assert w == [v];
    } else {
      JoinedSnoc(u[1..], v);
      assert w[1..] == u[1..] + [v];
      assert Hex(u[0]) + (":" + (Each(u[1..]) + Hex(v))) == Hex(u[0]) + (":" + Each(u[1..])) + Hex(v);
    }
  }

  predicate NoZeros(w: seq<nat>) {
    forall i {:trigger w[i]} :: 0 <= i < |w| ==> 0 < w[i] < 65536
  }

  lemma WordsOf(w: seq<nat>)
    requires |w| == 8 && IsWords(w)
    ensures Words(FromWords(w)) == w
  {
    hide FromWords;
    var b := FromWords(w);
    var v := Words(b);
    forall k | 0 <= k < 8
      ensures v[k] == w[k]
    {
      assert v[k] == Word(b, k);
      assert b[2 * k] == w[k] / 256;
    }
  }

  lemma UncompressedText(u: seq<nat>, v: nat)
    requires |u| == 7 && NoZeros(u) && 0 < v < 65536
    ensures IsWords(u + [v]) && Text(FromWords(u + [v])) == Each(u) + Hex(v)
  {
    hide Hex, Each, Joined, FromWords, Words;
    var w := u + [v];
    WordsOf(w);
    assert w[0] == u[0];
    JoinedSnoc(u, v);
    var r := Longest(w, 0);
    assert r.1 == 0;
  }

  /**
   * So the text can silently become that of another address: of eight words without a zero, the last
   * one loses its last digit.
   */
  lemma CutText(u: seq<nat>, v: nat)
    requires |u| == 7 && NoZeros(u) && 16 <= v < 65536
    ensures IsWords(u + [v]) && IsWords(u + [v / 16])
    ensures Copied(Text(FromWords(u + [v])), |Text(FromWords(u + [v]))|) == Text(FromWords(u + [v / 16]))
    ensures FromWords(u + [v]) != FromWords(u + [v / 16])
  {
    hide Each, Text, FromWords, Words;
    UncompressedText(u, v);
    UncompressedText(u, v / 16);
    var t := Each(u) + Hex(v);
    assert t[..|t| - 1] == Each(u) + Hex(v / 16);
    WordsOf(u + [v]);
    WordsOf(u + [v / 16]);
    assert (u + [v])[7] != (u + [v / 16])[7];
  }
}
