/** The number formats of tagged streams, as functions on byte sequences. */
module TagCodec {
  import opened Bytes
  import opened Options

  function Pow(b: nat, e: nat): (p: nat)
    ensures b > 0 ==> p > 0
  {
    if e == 0 then 1 else b * Pow(b, e - 1)
  }

  // ---------------------------------------------------------------- integers

  /** The hexadecimal digits of n, least significant first, without leading zeros. */
  function Nibbles(n: nat): (s: seq<nat>)
    ensures forall i {:trigger s[i]} :: 0 <= i < |s| ==> s[i] < 16
  {
    if n == 0 then [] else [n % 16] + Nibbles(n / 16)
  }

  /** The number whose digits, least significant first, are s. */
  function Value(s: seq<nat>): nat {
    if |s| == 0 then 0 else s[0] + 16 * Value(s[1..])
  }

  /** The half bytes of an encoded integer: the number of digits less one, then the digits. */
  function HalfBytes(n: nat): (h: seq<nat>)
    requires |Nibbles(n)| <= 16
    ensures |h| == |Nibbles(n)| + 1 && forall i {:trigger h[i]} :: 0 <= i < |h| ==> h[i] < 16
  {
    [if |Nibbles(n)| == 0 then 0 else |Nibbles(n)| - 1] + Nibbles(n)
  }

  /** Half bytes packed two to a byte, the first one high, with a zero at the end if one is missing. */
  function Pack(h: seq<nat>): (b: seq<u8>)
    requires forall i {:trigger h[i]} :: 0 <= i < |h| ==> h[i] < 16
    ensures |b| == (|h| + 1) / 2
    ensures forall i {:trigger b[i]} :: 0 <= i < |b| ==>
              b[i] / 16 == h[2 * i] && b[i] % 16 == if 2 * i + 1 < |h| then h[2 * i + 1] else 0
  {
    if |h| == 0 then []
    else if |h| == 1 then [h[0] * 16]
    else
      var rest := Pack(h[2..]);
      assert forall i {:trigger rest[i]} :: 0 <= i < |rest| ==>
          rest[i] / 16 == h[2 * (i + 1)] && rest[i] % 16 == if 2 * (i + 1) + 1 < |h| then h[2 * (i + 1) + 1] else 0;
      [h[0] * 16 + h[1]] + rest
  }

  function EncInt(n: nat): (b: seq<u8>)
    requires |Nibbles(n)| <= 16
    ensures |b| == |Nibbles(n)| / 2 + 1
  {
    Pack(HalfBytes(n))
  }

  /** Half byte m of b. */
  function HalfAt(b: seq<u8>, m: nat): nat
    requires m / 2 < |b|
  {
    if m % 2 == 1 then b[m / 2] % 16 else b[m / 2] / 16
  }

  /** The number made of the half bytes k, k - 1, ..., 1 of b in front of acc digits read before. */
  function Gather(b: seq<u8>, k: nat, acc: nat): nat
    requires k / 2 < |b|
  {
    if k == 0 then acc else Gather(b, k - 1, 16 * acc + HalfAt(b, k))
  }

  /** What decoding b yields: the number and the bytes it takes, or None. */
  function DecInt(b: seq<u8>, maxNibbles: nat): Option<(nat, nat)> {
    if |b| == 0 then None else
      var k := b[0] / 16 + 1;
      if k > maxNibbles || k / 2 + 1 > |b| then None else Some((Gather(b, k, 0), k / 2 + 1))
  }

  lemma {:induction false} NibblesValue(n: nat)
    ensures Value(Nibbles(n)) == n
  {
    if n > 0 {
      NibblesValue(n / 16);
      assert Nibbles(n)[1..] == Nibbles(n / 16);
    }
  }

  /** Numbers below 16^k have at most k digits. */
  lemma {:induction false} NibblesCount(n: nat, k: nat)
    requires n < Pow(16, k)
    ensures |Nibbles(n)| <= k
  {
    if n > 0 {
      assert n / 16 < Pow(16, k - 1);
      NibblesCount(n / 16, k - 1);
    }
  }

  lemma {:induction false} ValueSnoc(s: seq<nat>, x: nat)
    ensures Value(s + [x]) == Value(s) + Pow(16, |s|) * x
  {
    hide Pow;
    if |s| == 0 {
      PowZero(16);
      assert Value(s + [x]) == x + 16 * Value((s + [x])[1..]);
    } else {
      ValueSnoc(s[1..], x);
      assert (s + [x])[1..] == s[1..] + [x];
      PowStep(16, |s| - 1);
      Sixteen(Pow(16, |s| - 1), x);
    }
  }

  lemma Sixteen(p: nat, x: nat)
    ensures 16 * p * x == 16 * (p * x)
  {
  }

  /** Reading k digits from the top gives their value. */
  lemma {:induction false} GatherValue(b: seq<u8>, s: seq<nat>, k: nat, acc: nat)
    requires k / 2 < |b| && k <= |s|
    requires forall m {:trigger s[m - 1]} :: 1 <= m <= k ==> HalfAt(b, m) == s[m - 1]
    ensures Gather(b, k, acc) == Pow(16, k) * acc + Value(s[..k])
  {
    if k > 0 {
      GatherValue(b, s, k - 1, 16 * acc + HalfAt(b, k));
      assert s[..k] == s[..k - 1] + [s[k - 1]];
      ValueSnoc(s[..k - 1], s[k - 1]);
      assert HalfAt(b, k) == s[k - 1];
      Distribute(Pow(16, k - 1), acc, s[k - 1]);
    } else {
      assert s[..0] == [];
    }
  }

  lemma Distribute(p: nat, a: nat, x: nat)
    ensures p * (16 * a + x) == (16 * p) * a + p * x
  {
  }

  /** The half bytes that encoding writes, found again in front of other bytes. */
  lemma EncHalf(n: nat, rest: seq<u8>, m: nat)
    requires |Nibbles(n)| <= 16 && m <= |Nibbles(n)|
    ensures m / 2 < |EncInt(n)|
    ensures HalfAt(EncInt(n) + rest, m) == HalfBytes(n)[m]
  {
    var h, e := HalfBytes(n), EncInt(n);
    assert (e + rest)[m / 2] == e[m / 2];
    assert m % 2 == 1 ==> e[m / 2] % 16 == h[2 * (m / 2) + 1];
    assert m % 2 == 0 ==> e[m / 2] / 16 == h[2 * (m / 2)];
  }

  lemma GatherEnc(n: nat, rest: seq<u8>)
    requires |Nibbles(n)| <= 16
    ensures |Nibbles(n)| / 2 < |EncInt(n) + rest|
    ensures Gather(EncInt(n) + rest, |Nibbles(n)|, 0) == n
  {
    NibblesValue(n);
    var s, b := Nibbles(n), EncInt(n) + rest;
    forall m | 1 <= m <= |s| ensures HalfAt(b, m) == s[m - 1] {
      EncHalf(n, rest, m);
    }
    hide EncInt, HalfBytes, Nibbles, Value;
    GatherValue(b, s, |s|, 0);
    assert s[..|s|] == s;
  }

  lemma HeaderEnc(n: nat, rest: seq<u8>)
    requires |Nibbles(n)| <= 16
    ensures |EncInt(n) + rest| > 0
    ensures (EncInt(n) + rest)[0] / 16 == if |Nibbles(n)| == 0 then 0 else |Nibbles(n)| - 1
    ensures n == 0 ==> (EncInt(n) + rest)[0] == 0
  {
    EncHalf(n, rest, 0);
    if n == 0 {
      assert HalfBytes(0) == [0];
    }
  }

  /** Decoding undoes encoding and takes exactly the encoded bytes. */
  lemma DecEncInt(n: nat, rest: seq<u8>, maxNibbles: nat)
    requires n < Pow(16, maxNibbles) && 1 <= maxNibbles <= 16
    ensures |Nibbles(n)| <= maxNibbles
    ensures DecInt(EncInt(n) + rest, maxNibbles) == Some((n, |EncInt(n)|))
  {
    hide EncInt, Gather, Nibbles, HalfAt, Pow;
    NibblesCount(n, maxNibbles);
    HeaderEnc(n, rest);
    GatherEnc(n, rest);
    var b := EncInt(n) + rest;
    NoNibbles(n);
    if n == 0 {
      GatherOne(b);
    }
  }

  lemma NoNibbles(n: nat)
    ensures |Nibbles(n)| == 0 <==> n == 0
  {
  }

  lemma GatherOne(b: seq<u8>)
    requires |b| > 0 && b[0] == 0
    ensures Gather(b, 1, 0) == 0
  {
    assert Gather(b, 1, 0) == Gather(b, 0, HalfAt(b, 1));
  }

  // ---------------------------------------------------------------- tags and records

  /** A tag in groups of seven bits, least significant first, all but the last with the high bit. */
  function EncTag(tag: nat): (b: seq<u8>)
    ensures |b| >= 1
  {
    if tag < 128 then [tag] else [tag % 128 + 128] + EncTag(tag / 128)
  }

  /** Reads the groups of b from place i on in front of number; the tag and its length, or None. */
  function DecTagFrom(b: seq<u8>, i: nat, number: nat): Option<(nat, nat)>
    decreases |b| - i
  {
    if i >= |b| || i > 4 || (i == 4 && b[i] % 128 > 15) then None
    else
      var n := number + b[i] % 128 * Pow(128, i);
      if b[i] < 128 then Some((n, i + 1)) else DecTagFrom(b, i + 1, n)
  }

  function DecTag(b: seq<u8>): Option<(nat, nat)> {
    DecTagFrom(b, 0, 0)
  }

  lemma PowZero(b: nat)
    ensures Pow(b, 0) == 1
  {
  }

  lemma PowStep(b: nat, e: nat)
    ensures Pow(b, e + 1) == b * Pow(b, e)
  {
  }

  lemma Regroup(t: nat, p: nat)
    ensures t % 128 * p + t / 128 * (128 * p) == t * p
  {
    assert t == t % 128 + 128 * (t / 128);
    var q, r := t / 128, t % 128;
    assert q * (128 * p) == (128 * q) * p;
    assert (r + 128 * q) * p == r * p + (128 * q) * p;
  }

  /** The encoding of tag at place i, after lower groups worth number, decodes to their sum. */
  lemma {:induction false} DecEncTagFrom(pre: seq<u8>, tag: nat, rest: seq<u8>, number: nat)
    requires |pre| <= 4 && tag < Pow(128, 4 - |pre|) * 16
    ensures DecTagFrom(pre + EncTag(tag) + rest, |pre|, number)
         == Some((number + tag * Pow(128, |pre|), |pre| + |EncTag(tag)|))
    decreases 4 - |pre|
  {
    hide Pow;
    var i := |pre|;
    var b := pre + EncTag(tag) + rest;
    assert b[i] == EncTag(tag)[0];
    PowZero(128);
    if tag >= 128 {
      PowStep(128, 3 - i);
      var pre' := pre + [b[i]];
      assert b == pre' + EncTag(tag / 128) + rest;
      var n := number + tag % 128 * Pow(128, i);
      PowStep(128, i);
      Regroup(tag, Pow(128, i));
      DecEncTagFrom(pre', tag / 128, rest, n);
    }
  }

  lemma DecEncTag(tag: nat, rest: seq<u8>)
    requires tag < 0x1_0000_0000
    ensures DecTag(EncTag(tag) + rest) == Some((tag, |EncTag(tag)|))
  {
    assert Pow(128, 4) == 128 * (128 * (128 * 128)) by {
      PowStep(128, 3); PowStep(128, 2); PowStep(128, 1); PowStep(128, 0);
    }
    DecEncTagFrom([], tag, rest, 0);
    assert [] + EncTag(tag) + rest == EncTag(tag) + rest;
  }

  datatype Record = Record(tag: nat, payload: seq<u8>)

  /** A record with a 32-bit tag and a length that fits a signed 32-bit integer. */
  predicate Sound(r: Record) {
    r.tag < 0x1_0000_0000 && |r.payload| < 0x8000_0000
  }

  function EncRecord(r: Record): seq<u8> {
    EncTag(r.tag) + EncInt32(|r.payload|) + r.payload
  }

  /** A length as it is stored: modulo 2^32. */
  function EncInt32(n: nat): (b: seq<u8>) {
    Small32(n % 0x1_0000_0000);
    EncInt(n % 0x1_0000_0000)
  }

  lemma Small32(n: nat)
    requires n < 0x1_0000_0000
    ensures n < Pow(16, 8) && |Nibbles(n)| <= 8
  {
    PowStep(16, 7); PowStep(16, 6); PowStep(16, 5); PowStep(16, 4);
    PowStep(16, 3); PowStep(16, 2); PowStep(16, 1); PowStep(16, 0);
    NibblesCount(n, 8);
  }

  lemma Small32Pow()
    ensures Pow(16, 8) == 0x1_0000_0000
  {
    PowStep(16, 7); PowStep(16, 6); PowStep(16, 5); PowStep(16, 4);
    PowStep(16, 3); PowStep(16, 2); PowStep(16, 1); PowStep(16, 0);
  }

  /** The first record of b and its size in bytes, or None. */
  function DecRecord(b: seq<u8>): Option<(Record, nat)> {
    match DecTag(b)
    case None => None
    case Some((tag, n)) =>
      if n > |b| then None else
      match DecInt(b[n..], 8)
      case None => None
      case Some((len, m)) =>
        if n + m + len > |b| then None else Some((Record(tag, b[n + m..n + m + len]), n + m + len))
  }

  lemma DecEncRecord(r: Record, rest: seq<u8>)
    requires Sound(r)
    ensures DecRecord(EncRecord(r) + rest) == Some((r, |EncRecord(r)|))
  {
    hide EncTag, DecTag, EncInt32, DecInt;
    var t, l, p := EncTag(r.tag), EncInt32(|r.payload|), r.payload;
    var b := EncRecord(r) + rest;
    assert b == t + (l + (p + rest));
    DecEncTag(r.tag, l + (p + rest));
    assert b[|t|..] == l + (p + rest);
    DecEncInt32(|p|, p + rest);
    assert b[|t| + |l|..|t| + |l| + |p|] == p;
  }

  lemma DecEncInt32(n: nat, rest: seq<u8>)
    requires n < 0x1_0000_0000
    ensures DecInt(EncInt32(n) + rest, 8) == Some((n, |EncInt32(n)|))
  {
    hide EncInt, DecInt, Nibbles;
    Small32(n);
    DecEncInt(n, rest, 8);
  }

  function Stream(rs: seq<Record>): seq<u8> {
    if |rs| == 0 then [] else EncRecord(rs[0]) + Stream(rs[1..])
  }

  /** The records read off the front of b until none can be read; the bytes left over. */
  function ReadAll(b: seq<u8>): (seq<Record>, seq<u8>)
    decreases |b|
  {
    match DecRecord(b)
    case None => ([], b)
    case Some((r, n)) =>
      if n == 0 || n > |b| then ([], b) else
      var (rs, left) := ReadAll(b[n..]);
      ([r] + rs, left)
  }

  lemma RecordSize(r: Record)
    requires Sound(r)
    ensures |EncRecord(r)| > 0
  {
    hide EncInt32;
  }

  lemma NothingToRead()
    ensures ReadAll([]) == ([], [])
  {
    hide DecInt;
  }

  /** Any stream of records is read back as it was written. */
  lemma {:induction false} StreamRoundTrip(rs: seq<Record>)
    requires forall i {:trigger rs[i]} :: 0 <= i < |rs| ==> Sound(rs[i])
    ensures ReadAll(Stream(rs)) == (rs, [])
  {
    hide EncRecord, DecRecord, Sound;
    if |rs| == 0 {
      NothingToRead();
    } else {
      RecordSize(rs[0]);
      var b := Stream(rs);
      DecEncRecord(rs[0], Stream(rs[1..]));
      assert b[|EncRecord(rs[0])|..] == Stream(rs[1..]);
      StreamRoundTrip(rs[1..]);
      assert rs == [rs[0]] + rs[1..];
    }
  }

  // ---------------------------------------------------------------- byte by byte

  lemma Times(a: int, b: int, d: nat)
    requires a <= b
    ensures a * d <= b * d
  {
  }

  lemma Minus(a: int, b: int, d: int)
    ensures (a - b) * d == a * d - b * d
  {
  }

  lemma DivUnique(t: nat, d: nat, q: nat, r: nat)
    requires r < d && t == q * d + r
    ensures t / d == q
  {
    var x, y := t / d, t % d;
    assert x * d + y == t;
    Minus(x, q, d);
    if x < q {
      Times(x - q, -1, d);
    } else if x > q {
      Times(1, x - q, d);
    }
  }

  lemma Products(c: nat, q: nat, p: nat, r: nat)
    ensures c * (q * p + r) == q * (c * p) + c * r
  {
  }

  lemma DivMod(t: nat, c: nat)
    requires c > 0
    ensures t == c * (t / c) + t % c && t % c < c
  {
  }

  lemma DivParts(t: nat, c: nat, p: nat, u: nat, q: nat, r: nat, r0: nat)
    requires t == c * u + r0 && r0 < c && u == q * p + r && r < p
    ensures c * p > 0 && t / (c * p) == q
  {
    Times(1, c, p);
    Products(c, q, p, r);
    Times(r + 1, p, c);
    DivUnique(t, c * p, q, c * r + r0);
  }

  /** Dividing by c and then by p is dividing by both at once. */
  lemma DivDiv(t: nat, c: nat, p: nat)
    requires c > 0 && p > 0
    ensures c * p > 0 && t / c / p == t / (c * p)
  {
    DivMod(t, c);
    DivMod(t / c, p);
    DivParts(t, c, p, t / c, t / c / p, t / c % p, t % c);
  }

  /** Digit i of the rest is digit i + 1 of the whole. */
  lemma NextDigit(t: nat, c: nat, i: nat)
    requires c > 0
    ensures Pow(c, i) > 0 && Pow(c, i + 1) > 0 && t / c / Pow(c, i) == t / Pow(c, i + 1)
  {
    DivDiv(t, c, Pow(c, i));
  }

  /**
   * The bytes b of a tag: byte i holds digit i of the tag to the base 128, and its high bit tells that more
   * follow; there are no more than the tag needs.
   */
  predicate TagWire(tag: nat, b: seq<u8>) {
    && |b| > 0 && tag < Pow(128, |b|) && (|b| > 1 ==> tag >= Pow(128, |b| - 1))
    && forall i {:trigger b[i]} :: 0 <= i < |b| ==> b[i] % 128 == tag / Pow(128, i) % 128 && (b[i] >= 128 <==> i + 1 < |b|)
  }

  lemma {:induction false} EncTagWire(tag: nat)
    ensures TagWire(tag, EncTag(tag))
  {
    var b := EncTag(tag);
    PowStep(128, 0);
    PowZero(128);
    if tag >= 128 {
      var c, t := EncTag(tag / 128), tag / 128;
      EncTagWire(t);
      PowStep(128, |c|);
      PowStep(128, |c| - 1);
      assert b[0] == tag % 128 + 128;
      hide Pow, EncTag;
      forall i {:trigger b[i]} | 0 <= i < |b| ensures b[i] % 128 == tag / Pow(128, i) % 128 && (b[i] >= 128 <==> i + 1 < |b|) {
        if i > 0 {
          assert b[i] == c[i - 1];
          NextDigit(tag, 128, i - 1);
        }
      }
      BoundsUp(tag, t, 128, Pow(128, |c|), if |c| > 1 then Pow(128, |c| - 1) else 1);
    }
  }

  lemma BoundsUp(tag: nat, t: nat, c: nat, hi: nat, lo: nat)
    requires c > 0 && t == tag / c && lo <= t < hi
    ensures c * lo <= tag < c * hi
  {
    assert tag == t * c + tag % c;
    Times(lo, t, c);
    Times(t + 1, hi, c);
  }

  /** The tag at the front of b takes n bytes: the first byte without its high bit is number n, of five at most, and a
      fifth one has no more than four bits. */
  predicate TagEnd(b: seq<u8>, n: nat) {
    && 1 <= n <= 5 && n <= |b| && (n == 5 ==> b[4] <= 15)
    && forall j {:trigger b[j]} :: 0 <= j < n ==> (b[j] >= 128 <==> j + 1 < n)
  }

  /** Digit j of tag to the base 128 is in the low bits of byte j. */
  predicate TagDigits(b: seq<u8>, tag: nat, n: nat) {
    n <= |b| && tag < Pow(128, n) && forall j {:trigger b[j]} :: 0 <= j < n ==> b[j] % 128 == tag / Pow(128, j) % 128
  }

  /** A tag is read if and only if it ends, and it is the number made of the digits. */
  ghost predicate TagRead(b: seq<u8>, n: int, tag: nat) {
    && (n == -1 <==> forall k: nat {:trigger TagEnd(b, k)} :: !TagEnd(b, k))
    && (n != -1 ==> n > 0 && TagEnd(b, n) && TagDigits(b, tag, n) && tag < 0x1_0000_0000)
  }

  lemma DecTagWire(b: seq<u8>)
    ensures DecTag(b).None? ==> TagRead(b, -1, 0)
    ensures DecTag(b).Some? ==> var (tag, n) := DecTag(b).value; TagRead(b, n, tag)
  {
    PowZero(128);
    DecTagFromWire(b, 0, 0);
    assert Pow(128, 4) == 0x1000_0000 by {
      PowStep(128, 3); PowStep(128, 2); PowStep(128, 1); PowStep(128, 0);
    }
  }

  /** A digit more: t has digit d at place i in front of the digits of number. */
  lemma {:induction false} AddDigit(t: nat, number: nat, d: nat, i: nat, j: nat)
    requires t == number + d * Pow(128, i) && number < Pow(128, i) && d < 128 && j <= i
    ensures Pow(128, j) > 0
    ensures j < i ==> t / Pow(128, j) % 128 == number / Pow(128, j) % 128
    ensures j == i ==> t / Pow(128, j) % 128 == d
    decreases j
  {
    hide Pow;
    var p := Pow(128, i);
    if j == i {
      DivUnique(t, p, d, number);
    } else {
      var q := Pow(128, i - 1);
      PowStep(128, i - 1);
      DigitStep(t, number, d, p, q);
      if j == 0 {
        PowZero(128);
      } else {
        AddDigit(t / 128, number / 128, d, i - 1, j - 1);
        NextDigit(number, 128, j - 1);
        NextDigit(t, 128, j - 1);
      }
    }
  }

  lemma DigitStep(t: nat, number: nat, d: nat, p: nat, q: nat)
    requires t == number + d * p && p == 128 * q && number < p
    ensures t / 128 == number / 128 + d * q && t % 128 == number % 128 && number / 128 < q
  {
    Products(128, d, q, 0);
    AddTimes(number, 128, d * q);
    BelowQuotient(number, 128, q);
  }

  lemma DigitBound(number: nat, c: nat, d: nat, p: nat)
    requires number < p && d < c
    ensures number + d * p < c * p
  {
    Times(d + 1, c, p);
    Minus(d + 1, d, p);
  }

  lemma AddTimes(n: nat, c: nat, x: nat)
    requires c > 0
    ensures (n + c * x) / c == n / c + x && (n + c * x) % c == n % c
  {
    var q, r := n / c, n % c;
    assert n == q * c + r;
    assert (q + x) * c == q * c + c * x;
    DivUnique(n + c * x, c, q + x, r);
  }

  lemma BelowQuotient(n: nat, c: nat, q: nat)
    requires c > 0 && n < c * q
    ensures n / c < q
  {
    assert n == n / c * c + n % c;
    if n / c >= q {
      Times(q, n / c, c);
    }
  }

  /** The same with i bytes read, whose digits make number. */
  lemma {:induction false} DecTagFromWire(b: seq<u8>, i: nat, number: nat)
    requires i <= 5 && TagDigits(b, number, i) && More(b, i)
    ensures DecTagFrom(b, i, number).None? <==> forall n {:trigger TagEnd(b, n)} :: !TagEnd(b, n)
    ensures DecTagFrom(b, i, number).Some? ==>
              var (tag, n) := DecTagFrom(b, i, number).value;
              TagEnd(b, n) && TagDigits(b, tag, n) && tag < 16 * Pow(128, 4)
    decreases |b| - i
  {
    hide Pow, TagDigits, TagEnd, More;
    EndsLater(b, i);
    if i < |b| && i <= 4 && (i < 4 || b[4] % 128 <= 15) {
      var n := number + b[i] % 128 * Pow(128, i);
      MoreDigits(b, number, i, n);
      EndsHere(b, i);
      if b[i] < 128 {
        TagSmall(b, number, i);
      } else {
        DecTagFromWire(b, i + 1, n);
      }
    }
  }

  /** The first i bytes of b all tell that more follow. */
  predicate More(b: seq<u8>, i: nat) {
    i <= |b| && forall j {:trigger b[j]} :: 0 <= j < i ==> b[j] >= 128
  }

  lemma EndsLater(b: seq<u8>, i: nat)
    requires i <= 5 && More(b, i)
    ensures forall n {:trigger TagEnd(b, n)} :: TagEnd(b, n) ==> i < n && i < |b| && i <= 4 && (i == 4 ==> b[4] % 128 <= 15)
  {
    forall n {:trigger TagEnd(b, n)} | TagEnd(b, n) ensures i < n && i < |b| && i <= 4 && (i == 4 ==> b[4] % 128 <= 15) {
      assert b[n - 1] < 128;
    }
  }

  lemma EndsHere(b: seq<u8>, i: nat)
    requires More(b, i) && i < |b| && i <= 4 && (i == 4 ==> b[4] % 128 <= 15)
    ensures b[i] < 128 ==> TagEnd(b, i + 1)
    ensures b[i] >= 128 ==> More(b, i + 1)
  {
  }

  lemma MoreDigits(b: seq<u8>, number: nat, i: nat, t: nat)
    requires TagDigits(b, number, i) && i < |b| && t == number + b[i] % 128 * Pow(128, i)
    ensures TagDigits(b, t, i + 1)
  {
    var d := b[i] % 128;
    DigitBound(number, 128, d, Pow(128, i));
    PowStep(128, i);
    hide Pow;
    forall j {:trigger b[j]} | 0 <= j < i + 1 ensures b[j] % 128 == t / Pow(128, j) % 128 {
      AddDigit(t, number, d, i, j);
    }
  }

  lemma TagSmall(b: seq<u8>, number: nat, i: nat)
    requires TagDigits(b, number, i) && i < |b| && i <= 4 && (i == 4 ==> b[4] % 128 <= 15)
    ensures number + b[i] % 128 * Pow(128, i) < 16 * Pow(128, 4)
  {
    var d := b[i] % 128;
    if i == 4 {
      DigitBound(number, 16, d, Pow(128, 4));
    } else {
      DigitBound(number, 128, d, Pow(128, i));
      PowStep(128, i);
      PowGrows(i + 1);
    }
  }

  lemma PowGrows(i: nat)
    requires i <= 4
    ensures Pow(128, i) <= Pow(128, 4)
  {
    PowStep(128, 3);
    PowStep(128, 2);
    PowStep(128, 1);
    PowStep(128, 0);
  }

  // ---------------------------------------------------------------- half byte by half byte

  lemma {:induction false} NibblesAre(n: nat)
    ensures var s := Nibbles(n);
            && n < Pow(16, |s|) && (|s| > 0 ==> n >= Pow(16, |s| - 1))
            && forall i {:trigger s[i]} :: 0 <= i < |s| ==> s[i] == n / Pow(16, i) % 16
  {
    PowZero(16);
    if n > 0 {
      var s, t := Nibbles(n), Nibbles(n / 16);
      NibblesAre(n / 16);
      PowStep(16, |t|);
      if |t| > 0 {
        PowStep(16, |t| - 1);
      }
      assert |s| == |t| + 1 && s[0] == n % 16;
      hide Pow;
      BoundsUp(n, n / 16, 16, Pow(16, |t|), if |t| > 0 then Pow(16, |t| - 1) else 0);
      forall i {:trigger s[i]} | 0 <= i < |s| ensures s[i] == n / Pow(16, i) % 16 {
        if i > 0 {
          assert s[i] == t[i - 1];
          NextDigit(n, 16, i - 1);
        }
      }
    }
  }

  /** The half bytes of b that stand for digit i of a number: the digits begin behind the first half byte. */
  predicate DigitAt(b: seq<u8>, i: nat, d: nat) {
    (i + 1) / 2 < |b| && d == if i % 2 == 0 then b[(i + 1) / 2] % 16 else b[(i + 1) / 2] / 16
  }

  /** The half bytes of b behind the first are the k digits of n. */
  predicate IntDigits(b: seq<u8>, n: nat, k: nat) {
    n < Pow(16, k) && forall i {:trigger DigitAt(b, i, n / Pow(16, i) % 16)} :: 0 <= i < k ==> DigitAt(b, i, n / Pow(16, i) % 16)
  }

  /**
   * The bytes b of an integer with k hexadecimal digits: the high half of the first byte is k - 1, the digits
   * follow, least significant first, high halves before low ones, and no half byte but the last is unused.
   */
  predicate IntWire(n: nat, k: nat, b: seq<u8>) {
    && 1 <= k <= 16 && (k > 1 ==> n >= Pow(16, k - 1)) && IntDigits(b, n, k)
    && |b| == k / 2 + 1 && b[0] / 16 == k - 1 && (k % 2 == 0 ==> b[k / 2] % 16 == 0)
  }

  lemma EncIntWire(n: nat) returns (k: nat)
    requires |Nibbles(n)| <= 16
    ensures IntWire(n, k, EncInt(n))
  {
    var s, h, b := Nibbles(n), HalfBytes(n), EncInt(n);
    NibblesAre(n);
    NoNibbles(n);
    PowStep(16, 0);
    PowZero(16);
    k := if |s| == 0 then 1 else |s|;
    hide Pow, Nibbles;
    assert b[0] / 16 == h[0];
    assert k % 2 == 0 ==> b[k / 2] % 16 == 0;
    forall i {:trigger DigitAt(b, i, n / Pow(16, i) % 16)} | 0 <= i < k ensures DigitAt(b, i, n / Pow(16, i) % 16) {
      if |s| == 0 {
        assert b[0] % 16 == 0;
      } else {
        EncDigit(n, i);
      }
    }
  }

  lemma EncDigit(n: nat, i: nat)
    requires |Nibbles(n)| <= 16 && i < |Nibbles(n)|
    ensures DigitAt(EncInt(n), i, Nibbles(n)[i])
  {
    hide EncInt, Nibbles, HalfBytes, Pack;
    HalfDigit(n, i);
    EncHalf(n, [], i + 1);
    assert EncInt(n) + [] == EncInt(n);
  }

  lemma HalfDigit(n: nat, i: nat)
    requires |Nibbles(n)| <= 16 && i < |Nibbles(n)|
    ensures HalfBytes(n)[i + 1] == Nibbles(n)[i]
  {
    hide Nibbles;
  }

  /** An integer is read if and only if its length is allowed and all its half bytes are there; it is the number n that
      has them for digits, and takes m bytes. */
  predicate IntRead(b: seq<u8>, maxNibbles: nat, m: int, n: nat) {
    && (m == -1 <==> |b| == 0 || b[0] / 16 >= maxNibbles || (b[0] / 16 + 1) / 2 >= |b|)
    && (m != -1 ==> m == (b[0] / 16 + 1) / 2 + 1 && IntDigits(b, n, b[0] / 16 + 1))
  }

  lemma DecIntWire(b: seq<u8>, maxNibbles: nat)
    ensures DecInt(b, maxNibbles).None? ==> IntRead(b, maxNibbles, -1, 0)
    ensures DecInt(b, maxNibbles).Some? ==> var (n, m) := DecInt(b, maxNibbles).value; IntRead(b, maxNibbles, m, n)
  {
    if DecInt(b, maxNibbles).Some? {
      var k := b[0] / 16 + 1;
      var s := Digits(b, k);
      hide HalfAt, Pow, Gather, DigitAt;
      PowZero(16);
      GatherValue(b, s, k, 0);
      assert s[..k] == s;
      forall i {:trigger DigitAt(b, i, Value(s) / Pow(16, i) % 16)} | 0 <= i < k ensures DigitAt(b, i, Value(s) / Pow(16, i) % 16) {
        ValueDigit(s, i);
        HalfIsDigit(b, i);
      }
      ValueBelow(s);
    }
  }

  // ---------------------------------------------------------------- records byte by byte

  /** A record: the bytes of the tag, the bytes of the length, the payload. */
  ghost predicate RecordWire(r: Record, b: seq<u8>) {
    exists t, l, k :: TagWire(r.tag, t) && IntWire(|r.payload|, k, l) && b == t + l + r.payload
  }

  lemma EncRecordWire(r: Record)
    requires |r.payload| < 0x1_0000_0000
    ensures RecordWire(r, EncRecord(r))
  {
    hide EncTag, EncInt, TagWire, IntWire, Nibbles;
    EncTagWire(r.tag);
    Small32(|r.payload|);
    var k := EncIntWire(|r.payload|);
  }

  /** The record read from the front of b and its size, or none: a tag, a length, and as many bytes as it says. */
  ghost predicate RecordRead(b: seq<u8>, d: Option<(Record, nat)>) {
    exists n: int, tag: nat :: TagRead(b, n, tag) && if n == -1 then d.None? else n <= |b| && PayloadRead(b, n, tag, d)
  }

  ghost predicate PayloadRead(b: seq<u8>, n: int, tag: nat, d: Option<(Record, nat)>)
    requires 0 <= n <= |b|
  {
    exists m: int, len: nat ::
      && IntRead(b[n..], 8, m, len)
      && if m == -1 || n + m + len > |b| then d.None?
         else m >= 0 && d == Some((Record(tag, b[n + m..n + m + len]), n + m + len))
  }

  lemma DecRecordWire(b: seq<u8>)
    ensures RecordRead(b, DecRecord(b))
  {
    hide DecTag, DecInt, IntRead;
    DecTagWire(b);
    match DecTag(b)
    case None =>
    case Some((tag, n)) =>
      hide TagRead;
      DecIntWire(b[n..], 8);
      match DecInt(b[n..], 8)
      case None => assert IntRead(b[n..], 8, -1, 0);
      case Some((len, m)) => assert IntRead(b[n..], 8, m, len);
  }

  /** The half bytes 1 to k of b. */
  function Digits(b: seq<u8>, k: nat): (s: seq<nat>)
    requires k / 2 < |b|
    ensures |s| == k && forall m {:trigger s[m]} :: 0 <= m < k ==> s[m] == HalfAt(b, m + 1) && s[m] < 16
  {
    seq(k, m requires 0 <= m < k => HalfAt(b, m + 1))
  }

  lemma HalfIsDigit(b: seq<u8>, i: nat)
    requires (i + 1) / 2 < |b|
    ensures DigitAt(b, i, HalfAt(b, i + 1))
  {
  }

  lemma {:induction false} ValueBelow(s: seq<nat>)
    requires forall m {:trigger s[m]} :: 0 <= m < |s| ==> s[m] < 16
    ensures Value(s) < Pow(16, |s|)
  {
    if |s| > 0 {
      ValueBelow(s[1..]);
    }
  }

  lemma {:induction false} ValueDigit(s: seq<nat>, i: nat)
    requires i < |s| && forall m {:trigger s[m]} :: 0 <= m < |s| ==> s[m] < 16
    ensures Pow(16, i) > 0 && Value(s) / Pow(16, i) % 16 == s[i]
    decreases i
  {
    PowZero(16);
    if i > 0 {
      hide Pow;
      var t := s[1..];
      assert forall m {:trigger t[m]} :: 0 <= m < |t| ==> t[m] == s[m + 1];
      ValueDigit(t, i - 1);
      assert Value(s) / 16 == Value(t);
      NextDigit(Value(s), 16, i - 1);
    }
  }
}
