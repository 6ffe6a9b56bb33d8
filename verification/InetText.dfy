/** Internet addresses as text: what is printed for an address, and which address a text stands for. */
module InetText {
  import opened Bytes
  import opened Options
  import opened Numerals

  // ---------------------------------------------------------------- dotted quads

  function Dotted(b: seq<u8>): string
    requires |b| > 0
  {
    if |b| == 1 then Dec(b[0]) else Dec(b[0]) + ("." + Dotted(b[1..]))
  }

  /** k numbers with dots between them and nothing behind, as one scan of %u.%u... and a final %c finds them. */
  function Fields(s: string, k: nat): Option<seq<nat>>
    requires k > 0
    decreases k
  {
    var f := ScanUnsigned(s);
    if f.NoMatch? then None
    else if k == 1 then if |f.rest| > 0 then None else Some([f.value])
    else if |f.rest| == 0 || f.rest[0] != '.' then None
    else
      var more := Fields(f.rest[1..], k - 1);
      if more.None? then None else Some([f.value] + more.value)
  }

  predicate InBytes(v: seq<nat>) {
    forall i {:trigger v[i]} :: 0 <= i < |v| ==> v[i] <= 255
  }

  function ReadQuad(s: string): (r: Option<seq<u8>>)
    ensures r.Some? ==> |r.value| == 4
  {
    var v := Fields(s, 4);
    FieldCount(s, 4);
    if v.None? || !InBytes(v.value) then None else Some(AsBytes(v.value))
  }

  function AsBytes(v: seq<nat>): (b: seq<u8>)
    requires InBytes(v)
    ensures b == v
  {
    if |v| == 0 then [] else [v[0]] + AsBytes(v[1..])
  }

  lemma {:induction false} FieldCount(s: string, k: nat)
    requires k > 0
    ensures Fields(s, k).Some? ==> |Fields(s, k).value| == k
    decreases k
  {
    hide ScanUnsigned;
    var f := ScanUnsigned(s);
    if f.Scanned? && k > 1 && |f.rest| > 0 {
      FieldCount(f.rest[1..], k - 1);
    }
  }

  lemma {:induction false} FieldsDotted(b: seq<u8>)
    requires |b| > 0
    ensures Fields(Dotted(b), |b|) == Some(b)
  {
    hide ScanUnsigned, Dec;
    if |b| == 1 {
      assert Dec(b[0]) + "" == Dec(b[0]);
      ScanDec(b[0], "");
      assert [b[0]] == b;
    } else {
      var rest := "." + Dotted(b[1..]);
      ScanDec(b[0], rest);
      assert rest[1..] == Dotted(b[1..]);
      FieldsDotted(b[1..]);
      assert [b[0]] + b[1..] == b;
    }
  }

  /** Every IPv4 address is read back from its text. */
  lemma QuadRoundTrip(b: seq<u8>)
    requires |b| == 4
    ensures ReadQuad(Dotted(b)) == Some(b)
  {
    hide Fields, Dotted, AsBytes;
    FieldsDotted(b);
  }

  // ---------------------------------------------------------------- the longest run of zero words

  predicate IsWords(w: seq<nat>) {
    forall i {:trigger w[i]} :: 0 <= i < |w| ==> w[i] < 65536
  }

  function ZerosAt(w: seq<nat>, i: nat): (n: nat)
    requires i <= |w|
    ensures i + n <= |w|
    ensures forall k {:trigger w[k]} :: i <= k < i + n ==> w[k] == 0
    ensures i + n < |w| ==> w[i + n] != 0
    decreases |w| - i
  {
    if i < |w| && w[i] == 0 then 1 + ZerosAt(w, i + 1) else 0
  }

  /** Position and length of the longest run of zeros at or after i, the first of several such. */
  function Longest(w: seq<nat>, i: nat): (r: (nat, nat))
    requires i <= |w|
    ensures IsLongest(w, i, r.0, r.1)
    decreases |w| - i
  {
    if i == |w| then (i, 0)
    else
      var z := ZerosAt(w, i);
      var rest := Longest(w, i + 1);
      if z >= rest.1 then (i, z) else rest
  }

  predicate IsLongest(w: seq<nat>, i: nat, pos: nat, len: nat)
    requires i <= |w|
  {
    && i <= pos <= |w| && len == ZerosAt(w, pos)
    && (forall p {:trigger ZerosAt(w, p)} :: i <= p < |w| ==> ZerosAt(w, p) <= len)
    && (forall p {:trigger ZerosAt(w, p)} :: i <= p < pos ==> ZerosAt(w, p) < len)
  }

  // ---------------------------------------------------------------- the text of an IPv6 address

  /** The words in hexadecimal, a colon after each. */
  function Each(w: seq<nat>): string {
    if |w| == 0 then "" else Hex(w[0]) + (":" + Each(w[1..]))
  }

  /** The words in hexadecimal, colons between them. */
  function Joined(w: seq<nat>): string {
    if |w| == 0 then "" else if |w| == 1 then Hex(w[0]) else Hex(w[0]) + (":" + Joined(w[1..]))
  }

  function Separator(pos: nat): string {
    if pos == 0 then "::" else ":"
  }

  /** w with its words from pos to pos + len left out. */
  function Compressed(w: seq<nat>, pos: nat, len: nat): string
    requires pos + len <= |w|
  {
    Each(w[..pos]) + (Separator(pos) + Joined(w[pos + len..]))
  }

  function HexText(w: seq<nat>): string {
    var (pos, len) := Longest(w, 0);
    if len <= 1 then Joined(w) else Compressed(w, pos, len)
  }

  /** Whether the last four bytes are printed as an IPv4 address. */
  predicate Embeds(w: seq<nat>)
    requires |w| == 8
  {
    && w[0] == 0 && w[1] == 0 && w[2] == 0 && w[3] == 0 && w[4] == 0
    && ((w[5] == 0 && w[6] != 0 && w[7] != 0) || w[5] == 0xffff)
  }

  function Word(b: seq<u8>, i: nat): (v: nat)
    requires 2 * i + 1 < |b|
    ensures v < 65536
  {
    256 * (b[2 * i] as nat) + b[2 * i + 1]
  }

  /** The words of b from the i-th on. */
  function WordsFrom(b: seq<u8>, i: nat): (w: seq<nat>)
    requires |b| == 16 && i <= 8
    ensures |w| == 8 - i && IsWords(w)
    ensures forall k {:trigger w[k]} :: 0 <= k < |w| ==> w[k] == Word(b, i + k)
    decreases 8 - i
  {
    if i == 8 then [] else [Word(b, i)] + WordsFrom(b, i + 1)
  }

  function Words(b: seq<u8>): (w: seq<nat>)
    requires |b| == 16
    ensures |w| == 8 && IsWords(w)
    ensures forall k {:trigger w[k]} :: 0 <= k < 8 ==> w[k] == Word(b, k)
  {
    WordsFrom(b, 0)
  }

  /** The bytes of words, the high byte of each first. */
  function FromWords(w: seq<nat>): (b: seq<u8>)
    requires IsWords(w)
    ensures |b| == 2 * |w|
    ensures forall k {:trigger w[k]} :: 0 <= k < |w| ==> b[2 * k] == w[k] / 256 && b[2 * k + 1] == w[k] % 256
  {
    if |w| == 0 then [] else
      var rest := FromWords(w[1..]);
      assert forall k {:trigger w[k]} :: 0 < k < |w| ==> w[k] == w[1..][k - 1];
      [w[0] / 256, w[0] % 256] + rest
  }

  lemma WordBack(b: seq<u8>, k: nat)
    requires |b| == 16 && k < 8
    ensures FromWords(Words(b))[2 * k] == b[2 * k] && FromWords(Words(b))[2 * k + 1] == b[2 * k + 1]
  {
    var w := Words(b);
    assert w[k] == Word(b, k);
    var hi: nat, lo: nat := b[2 * k], b[2 * k + 1];
    assert w[k] == 256 * hi + lo && lo < 256;
  }

  lemma WordsBack(b: seq<u8>)
    requires |b| == 16
    ensures FromWords(Words(b)) == b
  {
    hide *;
    var c := FromWords(Words(b));
    forall j | 0 <= j < 16
      ensures c[j] == b[j]
    {
      WordBack(b, j / 2);
    }
  }

  function Text(b: seq<u8>): string
    requires |b| == 16
  {
    var w := Words(b);
    if !Embeds(w) then HexText(w)
    else if w[5] == 0 then "::" + Dotted(b[12..])
    else "::" + (Hex(w[5]) + (":" + Dotted(b[12..])))
  }

  // ---------------------------------------------------------------- reading an IPv6 address

  datatype Parsed = Refused | Parsed(words: seq<nat>, gap: int)

  predicate Fits(w: seq<nat>, gap: int) {
    IsWords(w) && -1 <= gap <= |w|
  }

  /**
   * The words in the first n characters of s, after the words w and with the gap where it was found so
   * far. A word may reach past the n characters, and what stands behind them is looked at.
   */
  function Groups(s: string, n: int, w: seq<nat>, gap: int): (p: Parsed)
    requires n <= |s| && Fits(w, gap)
    ensures p.Parsed? ==> Fits(p.words, p.gap)
    decreases |s|
  {
    if n <= 0 then Parsed(w, gap)
    else if |w| > 7 then Refused
    else if IsDigit(s[0], 16) then
      var k := HexTaken(s);
      if k > 4 || HexRead(s) > 65536 then Refused
      else if k == n then Parsed(w + [HexRead(s) % 65536], gap)
      else if k < |s| && s[k] == ':' then Groups(s[k + 1..], n - k - 1, w + [HexRead(s) % 65536], gap)
      else Refused
    else if s[0] == ':' && |w| > 0 && gap == -1 then Groups(s[1..], n - 1, w, |w|)
    else if s[0] == ':' && |w| == 0 && |s| > 1 && s[1] == ':' && gap == -1 then Groups(s[2..], n - 2, w, 0)
    else Refused
  }

  function Zeros(n: nat): (z: seq<nat>)
    ensures |z| == n && forall i {:trigger z[i]} :: 0 <= i < n ==> z[i] == 0
  {
    if n == 0 then [] else [0] + Zeros(n - 1)
  }

  /** The eight words meant by words with a gap, and the words of a dotted quad behind them. */
  function Assembled(w: seq<nat>, gap: int, tail: seq<nat>): (r: Option<seq<nat>>)
    requires Fits(w, gap) && IsWords(tail)
    ensures r.Some? ==> |r.value| == 8 && IsWords(r.value)
  {
    var n := |w| + |tail|;
    if n > 8 || (n == 8 && gap != -1) || (n < 8 && gap == -1) then None
    else if gap == -1 then Some(w + tail)
    else Some(w[..gap] + (Zeros(8 - n) + (w[gap..] + tail)))
  }

  lemma OneMore(s: string, k: nat, i: nat)
    requires k < i <= |s|
    ensures s[k..i] == s[k..i - 1] + [s[i - 1]]
  {
    var t := s[k..i];
    assert t[..|t| - 1] == s[k..i - 1] && t == t[..|t| - 1] + [t[|t| - 1]];
  }

  /** Where the digits that end in front of position i begin. */
  function DigitsBack(s: string, i: nat): (k: nat)
    requires i <= |s|
    ensures k <= i && AllDigits(s[k..i], 10) && (k > 0 ==> !IsDigit(s[k - 1], 10))
  {
    if i > 0 && IsDigit(s[i - 1], 10) then
      var k := DigitsBack(s, i - 1);
      OneMore(s, k, i);
      k
    else i
  }

  function QuadWords(b: seq<u8>): (w: seq<nat>)
    requires |b| == 4
    ensures |w| == 2 && IsWords(w)
  {
    [256 * (b[0] as nat) + b[1], 256 * (b[2] as nat) + b[3]]
  }

  /** The words read from src when its dotted quad, if any, starts at eow and stands for tail. */
  function ReadWords(src: string, eow: nat, tail: seq<nat>): (r: Option<seq<nat>>)
    requires eow <= |src| && IsWords(tail)
    ensures r.Some? ==> |r.value| == 8 && IsWords(r.value)
  {
    var p := Groups(src, eow, [], -1);
    if p.Refused? then None else Assembled(p.words, p.gap, tail)
  }

  /** The address a text stands for, if any. */
  function ReadText(src: string): (r: Option<seq<u8>>)
    ensures r.Some? ==> |r.value| == 16
  {
    var dot := Find(src, '.');
    if dot == |src| then Packed(ReadWords(src, |src|, []))
    else if dot == 0 then None
    else
      var eow := DigitsBack(src, dot);
      var quad := ReadQuad(src[eow..]);
      if quad.None? then None else Packed(ReadWords(src, eow, QuadWords(quad.value)))
  }

  function Packed(w: Option<seq<nat>>): (b: Option<seq<u8>>)
    requires w.Some? ==> |w.value| == 8 && IsWords(w.value)
    ensures b.Some? <==> w.Some?
    ensures b.Some? ==> |b.value| == 16
  {
    if w.None? then None else Some(FromWords(w.value))
  }
}
