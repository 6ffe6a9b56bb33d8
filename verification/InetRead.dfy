/** Reading internet addresses, and addresses with ports. */
module InetRead {
  import opened Bytes
  import opened Options
  import opened Numerals
  import opened InetText
  import opened InetRoundTrip
  import opened Inet

  /** Where the digits in front of the first dot begin. */
  method FindEow(src: string, dot: nat) returns (eow: nat)
    requires dot < |src|
    ensures eow == DigitsBack(src, dot)
  {
    var e := dot - 1;
    while e >= 0 && IsDigit(src[e], 10)
      invariant -1 <= e < dot
      invariant DigitsBack(src, dot) == DigitsBack(src, e + 1)
    {
      e := e - 1;
    }
    eow := e + 1;
  }

  /** The scan has read w and the gap from the characters in front of pos. */
  ghost predicate Scanning(src: string, eow: nat, pos: nat, w: seq<nat>, gap: int) {
    && eow <= |src| && Fits(w, gap) && |w| <= 8
    && (pos < eow ==> Groups(src, eow, [], -1) == Groups(src[pos..], eow - pos, w, gap))
    && (pos >= eow ==> Groups(src, eow, [], -1) == Parsed(w, gap))
  }

  lemma ScanningStart(src: string, eow: nat)
    requires eow <= |src|
    ensures Scanning(src, eow, 0, [], -1)
  {
    assert src[0..] == src;
  }

  lemma ScanningEnd(src: string, eow: nat, pos: nat, w: seq<nat>, gap: int)
    requires Scanning(src, eow, pos, w, gap) && pos >= eow
    ensures Groups(src, eow, [], -1) == Parsed(w, gap)
  {
  }

  /** The next thing at pos is a word of k characters with the value v, and a colon or the end behind it. */
  lemma ScanningWord(src: string, eow: nat, pos: nat, w: seq<nat>, gap: int, t: string, k: nat, v: nat)
    requires Scanning(src, eow, pos, w, gap) && pos < eow && |w| <= 7
    requires t == src[pos..] && IsDigit(t[0], 16) && k == HexTaken(t) && v == HexRead(t)
    ensures k > 4 || v > 65536 ==> Groups(src, eow, [], -1).Refused?
    ensures k <= 4 && v <= 65536 && pos + k != eow && (pos + k >= |src| || src[pos + k] != ':') ==>
              Groups(src, eow, [], -1).Refused?
    ensures k <= 4 && v <= 65536 && pos + k == eow ==> Scanning(src, eow, eow + 1, w + [v % 65536], gap)
  {
    hide HexTaken, HexRead;
    assert pos + k < |src| ==> src[pos + k] == t[k];
  }

  lemma {:induction false} ScanningPast(src: string, eow: nat, pos: nat, w: seq<nat>, gap: int, t: string, k: nat, v: nat)
    requires Scanning(src, eow, pos, w, gap) && pos < eow && |w| <= 7
    requires t == src[pos..] && IsDigit(t[0], 16) && k == HexTaken(t) && v == HexRead(t)
    requires k <= 4 && v <= 65536 && pos + k != eow && pos + k < |src| && src[pos + k] == ':'
    ensures Scanning(src, eow, pos + k + 1, w + [v % 65536], gap)
  {
    hide HexTaken, HexRead;
    assert t[k] == ':';
    assert t[k + 1..] == src[pos + k + 1..];
    var n, w' := eow - pos, w + [v % 65536];
    assert Groups(t, n, w, gap) == Groups(t[k + 1..], n - k - 1, w', gap);
    assert n - k - 1 <= 0 ==> Groups(t[k + 1..], n - k - 1, w', gap) == Parsed(w', gap);
  }

  /** The next thing at pos is not a word. */
  lemma ScanningColon(src: string, eow: nat, pos: nat, w: seq<nat>, gap: int)
    requires Scanning(src, eow, pos, w, gap) && pos < eow && |w| <= 7 && !IsDigit(src[pos], 16)
    ensures src[pos] == ':' && |w| > 0 && gap == -1 ==> Scanning(src, eow, pos + 1, w, |w|)
    ensures src[pos] == ':' && |w| == 0 && pos + 1 < |src| && src[pos + 1] == ':' && gap == -1 ==>
              Scanning(src, eow, pos + 2, w, 0)
    ensures !(src[pos] == ':' && |w| > 0 && gap == -1)
            && !(src[pos] == ':' && |w| == 0 && pos + 1 < |src| && src[pos + 1] == ':' && gap == -1) ==>
              Groups(src, eow, [], -1).Refused?
  {
    var t := src[pos..];
    assert t[0] == src[pos] && (|t| > 1 ==> t[1] == src[pos + 1]);
    assert t[1..] == src[pos + 1..];
    if eow == pos + 1 {
      GroupsDone(t[1..], 0, w, |w|);
    }
    if |t| > 1 {
      assert t[2..] == src[pos + 2..];
      if eow <= pos + 2 {
        GroupsDone(t[2..], eow - pos - 2, w, 0);
      }
    }
  }

  lemma TooManyWords(src: string, eow: nat, pos: nat, w: seq<nat>, gap: int)
    requires Scanning(src, eow, pos, w, gap) && pos < eow && |w| > 7
    ensures Groups(src, eow, [], -1).Refused?
  {
  }

  lemma Push(before: seq<nat>, after: seq<nat>, i: nat, v: nat)
    requires |before| == |after| == 8 && i < 8 && after == before[i := v]
    ensures after[..i + 1] == before[..i] + [v]
    ensures i < 6 ==> after[6..] == before[6..]
  {
  }

  /** The loop over the words and the gap. */
  method ReadGroups(src: string, eow: nat, words: array<nat>) returns (ok: bool, i: nat, gapPos: int)
    requires eow <= |src| && words.Length == 8
    modifies words
    ensures ok <==> Groups(src, eow, [], -1).Parsed?
    ensures ok ==> i <= 8 && Groups(src, eow, [], -1) == Parsed(words[..i], gapPos)
    ensures ok && i <= 6 ==> words[6..] == old(words[6..])
  {
    hide Groups, Scanning, HexTaken, HexRead;
    var pos := 0;
    i, gapPos := 0, -1;
    ScanningStart(src, eow);
    assert words[..0] == [];
    while pos < eow
      invariant i <= 8
      invariant Scanning(src, eow, pos, words[..i], gapPos)
      invariant i <= 6 ==> words[6..] == old(words[6..])
      decreases eow - pos
    {
      if i > 7 {
        TooManyWords(src, eow, pos, words[..i], gapPos);
        return false, i, gapPos;
      }
      if IsDigit(src[pos], 16) {
        var t := src[pos..];
        var k, v := HexTaken(t), HexRead(t);
        ScanningWord(src, eow, pos, words[..i], gapPos, t, k, v);
        if k > 4 || v > 65536 {
          return false, i, gapPos;
        }
        if pos + k != eow && (pos + k >= |src| || src[pos + k] != ':') {
          return false, i, gapPos;
        }
        ghost var before := words[..];
        if pos + k != eow {
          ScanningPast(src, eow, pos, words[..i], gapPos, t, k, v);
        }
        words[i] := v % 65536;
        Push(before, words[..], i, v % 65536);
        i := i + 1;
        pos := pos + k + 1;
      } else {
        ScanningColon(src, eow, pos, words[..i], gapPos);
        if src[pos] == ':' && i > 0 && gapPos == -1 {
          gapPos := i;
          pos := pos + 1;
        } else if src[pos] == ':' && i == 0 && pos + 1 < |src| && src[pos + 1] == ':' && gapPos == -1 {
          gapPos := i;
          pos := pos + 2;
        } else {
          return false, i, gapPos;
        }
      }
    }
    ScanningEnd(src, eow, pos, words[..i], gapPos);
    ok := true;
  }

  /** Opening the gap: the words behind it move up and zeros take their place. */
  method OpenGap(words: array<nat>, gapPos: nat, gapLen: nat, nToMove: nat)
    requires words.Length == 8 && gapPos + gapLen + nToMove <= 8
    modifies words
    ensures Shifted(old(words[..]), words[..], gapPos, gapLen, nToMove)
  {
    forall k | 0 <= k < nToMove {
      words[gapPos + gapLen + k] := words[gapPos + k];
    }
    forall k | gapPos <= k < gapPos + gapLen {
      words[k] := 0;
    }
  }

  predicate Shifted(w: seq<nat>, r: seq<nat>, gap: nat, len: nat, n: nat)
    requires |w| == |r| == 8 && gap + len + n <= 8
  {
    && (forall k {:trigger r[k]} :: 0 <= k < gap ==> r[k] == w[k])
    && (forall k {:trigger r[k]} :: gap <= k < gap + len ==> r[k] == 0)
    && (forall k {:trigger r[k]} :: gap + len <= k < gap + len + n ==> r[k] == w[k - len])
    && (forall k {:trigger r[k]} :: gap + len + n <= k < 8 ==> r[k] == w[k])
  }

  lemma Opened(whole: seq<nat>, w: seq<nat>, r: seq<nat>, tail: seq<nat>, gap: int)
    requires Fits(w, gap) && gap >= 0 && IsWords(tail) && |w| + |tail| < 8 && |whole| == |r| == 8
    requires w == whole[..|w|] && tail == whole[8 - |tail|..]
    requires Shifted(whole, r, gap, 8 - |w| - |tail|, |w| - gap)
    ensures Assembled(w, gap, tail) == Some(r)
  {
    var n := 8 - |w| - |tail|;
    assert r == w[..gap] + (Zeros(n) + (w[gap..] + tail));
  }

  /** The checks on the number of words, and the gap. The answer -1 of the source does not come up. */
  method Assemble(words: array<nat>, i: nat, gapPos: int, dotted: bool, ghost tail: seq<nat>)
    returns (r: int)
    requires words.Length == 8 && i <= 8
    requires Fits(words[..i], gapPos)
    requires IsWords(tail) && |tail| == (if dotted then 2 else 0)
    requires dotted && i <= 6 ==> words[6..] == tail
    modifies words
    ensures r == 0 || r == 1
    ensures r == 0 ==> Assembled(old(words[..i]), gapPos, tail) == None
    ensures r == 1 ==> Assembled(old(words[..i]), gapPos, tail) == Some(words[..])
  {
    hide Zeros, Shifted;
    var setWords := if dotted then i + 2 else i;
    ghost var w := words[..i];
    ghost var whole := words[..];
    if setWords > 8 || (setWords == 8 && gapPos != -1) || (setWords < 8 && gapPos == -1) {
      return 0;
    }
    if gapPos >= 0 {
      var nToMove := setWords - (if dotted then 2 else 0) - gapPos;
      var gapLen := 8 - setWords;
      assert nToMove >= 0;
      OpenGap(words, gapPos, gapLen, nToMove);
      Opened(whole, w, words[..], tail, gapPos);
    } else {
      assert words[..] == w + tail;
    }
    return 1;
  }

  lemma BytesOf(w: seq<nat>, b: seq<u8>, i: nat)
    requires |w| == 8 && IsWords(w) && |b| == 16 && i < 8
    requires b[..2 * i] == FromWords(w)[..2 * i]
    requires b[2 * i] == w[i] / 256 && b[2 * i + 1] == w[i] % 256
    ensures b[..2 * i + 2] == FromWords(w)[..2 * i + 2]
  {
    hide FromWords;
    var c := FromWords(w);
    assert b[..2 * i + 2] == b[..2 * i] + [b[2 * i], b[2 * i + 1]];
    assert c[..2 * i + 2] == c[..2 * i] + [c[2 * i], c[2 * i + 1]];
  }

  method StoreWords(words: array<nat>, out: array<u8>)
    requires words.Length == 8 && IsWords(words[..]) && out.Length == 16
    modifies out
    ensures out[..] == FromWords(words[..])
  {
    hide FromWords;
    ghost var w := words[..];
    var i := 0;
    while i < 8
      invariant 0 <= i <= 8
      invariant words[..] == w
      invariant out[..2 * i] == FromWords(w)[..2 * i]
    {
      assert w[i] == words[i];
      ghost var before := out[..2 * i];
      out[2 * i] := words[i] / 256;
      out[2 * i + 1] := words[i] % 256;
      assert out[..][..2 * i] == before;
      BytesOf(w, out[..], i);
      assert out[..][..2 * i + 2] == out[..2 * (i + 1)];
      i := i + 1;
    }
    assert out[..16] == out[..] && FromWords(w)[..16] == FromWords(w);
  }

  /** 1 with the address stored if the text stands for one, and otherwise 0 with nothing stored. */
  method InetPton6(src: string, out: array<u8>) returns (r: int)
    requires out.Length == 16
    modifies out
    ensures r == 0 || r == 1
    ensures r == 1 ==> ReadText(src) == Some(out[..])
    ensures r == 0 ==> ReadText(src) == None && out[..] == old(out[..])
  {
    hide Find, DigitsBack, ReadQuad, Groups, FromWords, Assembled, QuadWords;
    var words := new nat[8];
    var dot := Find(src, '.');
    var eow: nat := |src|;
    ghost var tail: seq<nat> := [];
    if dot < |src| && dot == 0 {
      return 0;
    } else if dot < |src| {
      eow := FindEow(src, dot);
      var quad := ReadQuad(src[eow..]);
      if quad.None? {
        return 0;
      }
      var q := QuadWords(quad.value);
      tail := q;
      words[6], words[7] := q[0], q[1];
      assert words[6..] == tail;
    }
    var ok, i, gapPos := ReadGroups(src, eow, words);
    if !ok {
      return 0;
    }
    r := Assemble(words, i, gapPos, dot < |src|, tail);
    if r == 1 {
      StoreWords(words, out);
    }
  }

  /** Reading an address of either family; 1 if there is one, 0 if not, -1 for another family. */
  method InetPton(af: Family, src: string, out: array<u8>) returns (r: int)
    requires (af.Inet? ==> out.Length == 4) && (af.Inet6? ==> out.Length == 16)
    modifies out
    ensures af.Inet? && r == 1 ==> ReadQuad(src) == Some(out[..])
    ensures af.Inet? && r != 1 ==> r == 0 && ReadQuad(src) == None
    ensures af.Inet6? && r == 1 ==> ReadText(src) == Some(out[..])
    ensures af.Inet6? && r != 1 ==> r == 0 && ReadText(src) == None
    ensures af.Other? ==> r == -1
    ensures r != 1 ==> out[..] == old(out[..])
  {
    hide ReadQuad, ReadText;
    match af
    case Inet =>
      var quad := ReadQuad(src);
      if quad.None? {
        return 0;
      }
      out[0], out[1], out[2], out[3] := quad.value[0], quad.value[1], quad.value[2], quad.value[3];
      assert out[..] == quad.value;
      r := 1;
    case Inet6 =>
      r := InetPton6(src, out);
    case Other(_) =>
      r := -1;
  }
}

/** Socket addresses as text. */
module SockaddrText {
  import opened Bytes
  import opened Options
  import opened Numerals
  import opened InetText
  import opened InetRoundTrip
  import opened InetForms
  import opened Inet

  datatype Sockaddr =
    | V4(addr: seq<u8>, port: nat)
    | V6(addr: seq<u8>, port: nat, scope: nat)
    | Unknown(family: int)

  predicate WellFormed(sa: Sockaddr) {
    && (sa.V4? ==> |sa.addr| == 4 && sa.port < 65536)
    && (sa.V6? ==> |sa.addr| == 16 && sa.port < 65536)
  }

  /** The sizes of the two socket address structures, and of the buffers the functions work in. */
  const SIZEOF_V4 := 16
  const SIZEOF_V6 := 28
  const BUFFER := 128

  /** A number as %d prints it. */
  function Signed(n: int): string {
    if n < 0 then "-" + Dec(-n) else Dec(n)
  }

  /** The text of a socket address, before it is cut to the size of the caller's buffer. */
  function FullText(sa: Sockaddr): string
    requires WellFormed(sa)
  {
    match sa
    case V4(addr, port) => Dotted(addr) + (":" + Dec(port))
    case V6(addr, port, _) => "[" + (Text(addr) + ("]:" + Dec(port)))
    case Unknown(family) => "<addr with socktype " + (Signed(family) + ">")
  }

  /** The address is printed into a buffer of its own, where it always fits, and then with the port into the
      caller's, which is left as it was if it has no room at all. */
  method FormatSockaddrPort(sa: Sockaddr, was: string, outlen: nat) returns (out: string)
    requires WellFormed(sa)
    ensures outlen == 0 ==> out == was
    ensures outlen > 0 ==> out == Copied(FullText(sa), outlen) && (|FullText(sa)| < outlen ==> out == FullText(sa))
  {
    hide Text, Dotted, Dec;
    if outlen == 0 {
      return was;
    }
    match sa
    case V4(addr, port) =>
      DottedLength(addr);
      var b := InetNtop(Family.Inet, addr, BUFFER);
      out := Copied(b.value + (":" + Dec(port)), outlen);
    case V6(addr, port, _) =>
      TextLength(addr);
      var b := InetNtop(Family.Inet6, addr, BUFFER);
      out := Copied("[" + (b.value + ("]:" + Dec(port))), outlen);
    case Unknown(family) =>
      out := Copied("<addr with socktype " + (Signed(family) + ">"), outlen);
  }

  /** A text taken apart into the address and what stands for the port. */
  datatype Parts = Malformed | Parts(ipv6: bool, addr: string, port: Option<string>)

  function Split(s: string): Parts {
    var cp := Find(s, ':');
    if |s| > 0 && s[0] == '[' then
      var close := Find(s, ']');
      if close == |s| || close - 1 > BUFFER - 1 then Malformed
      else Parts(true, s[1..close], if close + 1 < |s| && s[close + 1] == ':' then Some(s[close + 2..]) else None)
    else if cp < |s| && Find(s[cp + 1..], ':') < |s[cp + 1..]| then Parts(true, s, None)
    else if cp < |s| then
      if cp > BUFFER - 1 then Malformed else Parts(false, s[..cp], Some(s[cp + 1..]))
    else Parts(false, s, None)
  }

  /** The port, which is zero if the text has none and must not be zero if it has one. */
  function Port(p: Option<string>): (r: Option<nat>)
    ensures r.Some? ==> r.value < 65536
  {
    if p.None? then Some(0)
    else
      var n := Atoi(p.value);
      if n <= 0 || n > 65535 then None else Some(n)
  }

  /** The interface after a percent sign: one known by name, or a number; zero if there is no percent sign. */
  function Scope(s: string, ifIndex: map<string, nat>): (r: Option<nat>) {
    var cp := Find(s, '%');
    if cp == |s| then Some(0)
    else
      var zone := s[cp + 1..];
      var n := ScanUnsigned(zone);
      if zone in ifIndex && ifIndex[zone] != 0 then Some(ifIndex[zone])
      else if n.NoMatch? then if |zone| > 0 then None else Some(0)
      else if |n.rest| > 0 then None
      else Some(n.value)
  }

  /** The socket address a text stands for, if there is one and the caller has room for it. */
  function Parse(s: string, outlen: nat, ifIndex: map<string, nat>): (r: Option<Sockaddr>)
    ensures r.Some? ==> WellFormed(r.value)
  {
    var p := Split(s);
    if p.Malformed? then None
    else
      var port := Port(p.port);
      if port.None? then None
      else if p.ipv6 then
        var scope := Scope(p.addr, ifIndex);
        var addr := ReadText(p.addr[..Find(p.addr, '%')]);
        if scope.None? || addr.None? || outlen < SIZEOF_V6 then None
        else Some(V6(addr.value, port.value, scope.value))
      else
        var addr := ReadQuad(p.addr);
        if addr.None? || outlen < SIZEOF_V4 then None else Some(V4(addr.value, port.value))
  }

  // ---------------------------------------------------------------- round trip

  predicate TwoColons(s: string) {
    exists i, j {:trigger s[i], s[j]} :: 0 <= i < j < |s| && s[i] == s[j] == ':'
  }

  /** The characters of a quad. */
  lemma PlainQuad(q: string, b: seq<u8>)
    requires |b| == 4 && Quad(q, b, false)
    ensures Lacks(q, ':') && Unmarked(q) && |q| > 0
  {
    hide Spelled, Numeral;
    var s, t, u, v :|
      && Field(s, b[0], false) && Field(t, b[1], false) && Field(u, b[2], false) && Field(v, b[3], false)
      && q == s + ("." + (t + ("." + (u + ("." + v)))));
    SpelledValue(s, 10, b[0]);
    SpelledValue(t, 10, b[1]);
    SpelledValue(u, 10, b[2]);
    SpelledValue(v, 10, b[3]);
    DigitsOnly(v);
    DigitsOnly(u);
    DigitsOnly(t);
    DigitsOnly(s);
    hide AllDigits;
    Dotless(u, v);
    Dotless(t, u + ("." + v));
    Dotless(s, t + ("." + (u + ("." + v))));
  }

  lemma DigitsOnly(s: string)
    requires AllDigits(s, 10)
    ensures Lacks(s, ':') && Unmarked(s)
  {
  }

  lemma Dotless(s: string, t: string)
    requires Lacks(s, ':') && Unmarked(s) && Lacks(t, ':') && Unmarked(t)
    ensures Lacks(s + ("." + t), ':') && Unmarked(s + ("." + t))
  {
  }

  lemma UnmarkedBoth(s: string, t: string)
    requires Unmarked(s) && Unmarked(t)
    ensures Unmarked(s + t)
  {
  }

  /** The characters of a text of an address. */
  lemma PlainText(a: string, b: seq<u8>)
    requires |b| == 16 && Denotes(a, b)
    ensures Unmarked(a) && TwoColons(a)
  {
    hide Row, Gap, Front, Quad, Pairs, ZeroRun, Plain, Unmarked, TwoColons;
    var w := Pairs(b);
    if Row(a, w, false) {
      PlainRow(a, w, false);
      RowColons(a, w);
      PlainUnmarked(a);
    } else if pos: nat, len: nat :| 0 < len && ZeroRun(w, pos, len) && Gap(a, w, pos, len, false) {
      PlainGap(a, w, pos, len, false);
      GapColons(a, w, pos, len);
      PlainUnmarked(a);
    } else {
      var front, q :| Front(front, w) && Quad(q, b[12..], false) && a == front + q;
      PlainFront(front, w);
      PlainUnmarked(front);
      PlainQuad(q, b[12..]);
      UnmarkedBoth(front, q);
      FrontColons(front, w);
      MoreColons(front, q);
    }
  }

  lemma PlainUnmarked(s: string)
    requires Plain(s)
    ensures Unmarked(s)
  {
  }

  lemma ColonsAt(s: string, i: nat, j: nat)
    requires i < j < |s| && s[i] == ':' && s[j] == ':'
    ensures TwoColons(s)
  {
  }

  lemma MoreColons(s: string, t: string)
    requires TwoColons(s)
    ensures TwoColons(s + t)
  {
    var i, j :| 0 <= i < j < |s| && s[i] == s[j] == ':';
    ColonsAt(s + t, i, j);
  }

  lemma RowColons(text: string, w: seq<nat>)
    requires |w| > 2 && Row(text, w, false)
    ensures TwoColons(text)
  {
    hide Group, TwoColons;
    var first, rest :| Group(first, w[0], false) && Row(rest, w[1..], false) && text == first + (":" + rest);
    var second, more :| Group(second, w[1..][0], false) && Row(more, w[1..][1..], false) && rest == second + (":" + more);
    ColonsAt(text, |first|, |first| + 1 + |second|);
  }

  lemma GapColons(text: string, w: seq<nat>, pos: nat, len: nat)
    requires Gap(text, w, pos, len, false)
    ensures TwoColons(text)
  {
    hide Row, TwoColons;
    var left, right :| Row(left, w[..pos], false) && Row(right, w[pos + len..], false) && text == left + ("::" + right);
    ColonsAt(text, |left|, |left| + 1);
  }

  lemma FrontColons(front: string, w: seq<nat>)
    requires |w| == 8 && Front(front, w)
    ensures TwoColons(front)
  {
    hide Row, ZeroRun, TwoColons;
    if all :| Row(all, w[..6], false) && front == all + ":" {
      RowColons(all, w[..6]);
      MoreColons(all, ":");
    } else if pos: nat, left :| pos < 6 && ZeroRun(w, pos, 6 - pos) && Row(left, w[..pos], false) && front == left + "::" {
      ColonsAt(front, |left|, |left| + 1);
    } else {
      var pos: nat, len: nat, left, right :| 0 < len && pos + len < 6 && ZeroRun(w, pos, len)
        && Row(left, w[..pos], false) && Row(right, w[pos + len..6], false) && front == left + ("::" + (right + ":"));
      ColonsAt(front, |left|, |left| + 1);
    }
  }

  /** A colon with another behind it. */
  lemma {:induction false} ColonsFound(s: string)
    requires TwoColons(s)
    ensures var cp := Find(s, ':'); cp < |s| && Find(s[cp + 1..], ':') < |s[cp + 1..]|
  {
    hide Find;
    var i, j :| 0 <= i < j < |s| && s[i] == s[j] == ':';
    var cp := Find(s, ':');
    Before(s, ':', i);
    var rest := s[cp + 1..];
    assert rest[j - cp - 1] == ':';
    Before(rest, ':', j - cp - 1);
  }

  lemma {:induction false} Before(s: string, c: char, i: nat)
    requires i < |s| && s[i] == c
    ensures Find(s, c) <= i
  {
  }

  lemma SplitV4(a: string, d: string)
    requires |a| > 0 && Unmarked(a) && |a| < BUFFER && Lacks(a, ':') && Lacks(d, ':')
    ensures Split(a + (":" + d)) == Parts(false, a, Some(d)) && Split(a) == Parts(false, a, None)
  {
    hide Find;
    var s := a + (":" + d);
    assert s[0] == a[0];
    FindAt(a, ':', ":" + d);
    assert s[|a|..] == ":" + d && s[|a| + 1..] == d && s[..|a|] == a;
    NotFound(d, ':');
    NotFound(a, ':');
  }

  lemma {:induction false} SplitV6(a: string, d: string)
    requires |a| < BUFFER && Unmarked(a) && TwoColons(a)
    ensures Split("[" + (a + ("]:" + d))) == Parts(true, a, Some(d))
    ensures Split("[" + (a + "]")) == Parts(true, a, None) && Split(a) == Parts(true, a, None)
  {
    hide Find;
    Bracketed(a, "]:" + d);
    var s := "[" + (a + ("]:" + d));
    assert s[|a| + 2] == ':' && s[|a| + 3..] == d;
    Bracketed(a, "]");
    ColonsFound(a);
  }

  lemma Bracketed(a: string, rest: string)
    requires Lacks(a, ']') && |rest| > 0 && rest[0] == ']'
    ensures var s := "[" + (a + rest); Find(s, ']') == |a| + 1 && s[1..|a| + 1] == a
  {
    hide Find;
    var before, s := "[" + a, "[" + (a + rest);
    assert s == before + rest;
    FindAt(before, ']', rest);
  }

  lemma NoScope(a: string, ifIndex: map<string, nat>)
    requires Lacks(a, '%')
    ensures Scope(a, ifIndex) == Some(0) && a[..Find(a, '%')] == a
  {
    hide Find;
    NotFound(a, '%');
  }

  lemma PortSpelled(p: string, n: nat)
    requires Spelled(p, 10, n) && n < TWO_32 / 2
    ensures Port(Some(p)) == if 0 < n < 65536 then Some(n) else None
    ensures Lacks(p, ':')
  {
    hide Spelled, Atoi;
    AtoiSpelled(p, n);
    SpelledValue(p, 10, n);
    DigitsOnly(p);
  }

  /** The formats of an IPv4 address: alone, which leaves the port zero, and with a colon and a port in front of which no
      zero is stored. */
  lemma ParseV4(b: seq<u8>, a: string, p: string, n: nat, outlen: nat, ifIndex: map<string, nat>)
    requires |b| == 4 && Quad(a, b, false) && |a| < BUFFER && Spelled(p, 10, n) && n < TWO_32 / 2 && outlen >= SIZEOF_V4
    ensures Parse(a, outlen, ifIndex) == Some(V4(b, 0))
    ensures Parse(a + (":" + p), outlen, ifIndex) == if 0 < n < 65536 then Some(V4(b, n)) else None
  {
    hide Quad, Spelled, ReadQuad, Split, Port, Scope;
    PlainQuad(a, b);
    PortSpelled(p, n);
    SplitV4(a, p);
    QuadBack(a, b);
    NoPort();
  }

  lemma NoPort()
    ensures Port(None) == Some(0)
  {
  }

  /** The formats of an IPv6 address: alone, in brackets, and in brackets with a colon and a port. */
  lemma ParseV6(b: seq<u8>, a: string, p: string, n: nat, outlen: nat, ifIndex: map<string, nat>)
    requires |b| == 16 && Denotes(a, b) && |a| < BUFFER && Spelled(p, 10, n) && n < TWO_32 / 2 && outlen >= SIZEOF_V6
    ensures Parse(a, outlen, ifIndex) == Parse("[" + (a + "]"), outlen, ifIndex) == Some(V6(b, 0, 0))
    ensures Parse("[" + (a + ("]:" + p)), outlen, ifIndex) == if 0 < n < 65536 then Some(V6(b, n, 0)) else None
  {
    hide Denotes, Spelled, ReadText, Split, Port, Scope, Find, TwoColons;
    PlainText(a, b);
    PortSpelled(p, n);
    SplitV6(a, p);
    NoScope(a, ifIndex);
    ReadForms(a, b);
    NoPort();
  }

  /** The address in its form and the port in decimal: behind a colon, and for IPv6 with brackets around the address;
      for another family, its number. */
  lemma SockaddrForm(sa: Sockaddr)
    requires WellFormed(sa)
    ensures sa.V4? ==> exists a, p :: Quad(a, sa.addr, true) && Numeral(p, 10, sa.port) && FullText(sa) == a + (":" + p)
    ensures sa.V6? ==> exists a, p :: TextOf(a, sa.addr) && Numeral(p, 10, sa.port) && FullText(sa) == "[" + (a + ("]:" + p))
    ensures sa.Unknown? && sa.family >= 0 ==>
              exists n :: Numeral(n, 10, sa.family) && FullText(sa) == "<addr with socktype " + (n + ">")
    ensures sa.Unknown? && sa.family < 0 ==>
              exists n :: Numeral(n, 10, -sa.family) && FullText(sa) == "<addr with socktype " + ("-" + n + ">")
  {
    hide Quad, Numeral, TextOf, Dotted, Text, Dec;
    if sa.Unknown? {
      if sa.family < 0 {
        DecNumeral(-sa.family);
        assert FullText(sa) == "<addr with socktype " + ("-" + Dec(-sa.family) + ">");
      } else {
        DecNumeral(sa.family);
      }
    } else {
      DecNumeral(sa.port);
      if sa.V4? {
        DottedQuad(sa.addr);
      } else {
        TextForm(sa.addr);
      }
    }
  }

  lemma V4Back(sa: Sockaddr, outlen: nat, ifIndex: map<string, nat>)
    requires WellFormed(sa) && sa.V4? && outlen >= SIZEOF_V4
    ensures Parse(FullText(sa), outlen, ifIndex) == if sa.port == 0 then None else Some(sa)
  {
    hide Dotted, Dec, Parse, Quad, Numeral, Spelled;
    DottedLength(sa.addr);
    DottedQuad(sa.addr);
    QuadAny(Dotted(sa.addr), sa.addr);
    DecNumeral(sa.port);
    NumeralSpelled(Dec(sa.port), 10, sa.port);
    ParseV4(sa.addr, Dotted(sa.addr), Dec(sa.port), sa.port, outlen, ifIndex);
  }

  lemma V6Back(sa: Sockaddr, outlen: nat, ifIndex: map<string, nat>)
    requires WellFormed(sa) && sa.V6? && outlen >= SIZEOF_V6
    ensures Parse(FullText(sa), outlen, ifIndex) == if sa.port == 0 then None else Some(V6(sa.addr, sa.port, 0))
  {
    hide Text, Dec, Parse, TextOf, Denotes, Numeral, Spelled;
    TextLength(sa.addr);
    TextForm(sa.addr);
    FormDenotes(Text(sa.addr), sa.addr);
    DecNumeral(sa.port);
    NumeralSpelled(Dec(sa.port), 10, sa.port);
    ParseV6(sa.addr, Text(sa.addr), Dec(sa.port), sa.port, outlen, ifIndex);
  }

  /**
   * The text of an address with a port is read as the same address and port exactly if the port is not
   * zero and the address has no scope, which is not printed.
   */
  lemma SockaddrRoundTrip(sa: Sockaddr, outlen: nat, ifIndex: map<string, nat>)
    requires WellFormed(sa) && !sa.Unknown? && outlen >= if sa.V4? then SIZEOF_V4 else SIZEOF_V6
    ensures Parse(FullText(sa), outlen, ifIndex) == Some(sa) <==> sa.port != 0 && (sa.V6? ==> sa.scope == 0)
  {
    hide Parse, FullText;
    if sa.V4? {
      V4Back(sa, outlen, ifIndex);
    } else {
      V6Back(sa, outlen, ifIndex);
    }
  }
}
