/** Numbers as text: what the C library prints for %d and %x, and what it reads for %u and in strtol and atoi. */
module Numerals {
  predicate IsDigit(c: char, base: nat) {
    '0' <= c <= '9' || (base == 16 && ('a' <= c <= 'f' || 'A' <= c <= 'F'))
  }

  function DigitValue(c: char): (d: nat)
    ensures IsDigit(c, 16) ==> d < 16
    ensures IsDigit(c, 10) ==> d < 10
  {
    if '0' <= c <= '9' then c as nat - '0' as nat
    else if 'a' <= c <= 'f' then c as nat - 'a' as nat + 10
    else if 'A' <= c <= 'F' then c as nat - 'A' as nat + 10
    else 0
  }

  function DigitChar(d: nat): (c: char)
    requires d < 16
    ensures IsDigit(c, 16) && DigitValue(c) == d
    ensures d < 10 ==> IsDigit(c, 10)
  {
    if d < 10 then ('0' as int + d) as char else ('a' as int + (d - 10)) as char
  }

  predicate AllDigits(s: string, base: nat) {
    forall i {:trigger s[i]} :: 0 <= i < |s| ==> IsDigit(s[i], base)
  }

  /** n without leading zeros, letters in lower case. */
  function Dec(n: nat): (s: string)
    ensures |s| > 0 && AllDigits(s, 10)
  {
    if n < 10 then [DigitChar(n)] else Dec(n / 10) + [DigitChar(n % 10)]
  }

  function Hex(n: nat): (s: string)
    ensures |s| > 0 && AllDigits(s, 16)
  {
    if n < 16 then [DigitChar(n)] else Hex(n / 16) + [DigitChar(n % 16)]
  }

  function Value(s: string, base: nat): nat {
    if |s| == 0 then 0 else Value(s[..|s| - 1], base) * base + DigitValue(s[|s| - 1])
  }

  // ---------------------------------------------------------------- digits column by column

  const LOWER := "0123456789abcdef"
  const UPPER := "0123456789ABCDEF"

  /** s spells a number from its first digit to its last, letters in either case: p holds the numbers spelled by
      its beginnings, and each is base times the one before it plus the place of its last digit among the digits. */
  predicate Columns(s: string, base: nat, p: seq<nat>)
    requires base == 10 || base == 16
  {
    && |p| == |s| + 1 && p[0] == 0
    && forall i {:trigger s[i]} :: 0 <= i < |s| ==> Column(s[i], base, p[i], p[i + 1])
  }

  predicate Column(c: char, base: nat, v: nat, w: nat)
    requires base == 10 || base == 16
  {
    0 <= w - base * v < base && (c == LOWER[w - base * v] || c == UPPER[w - base * v])
  }

  /** s is a number v in digits. */
  ghost predicate Spelled(s: string, base: nat, v: nat)
    requires base == 10 || base == 16
  {
    |s| > 0 && exists p: seq<nat> :: Columns(s, base, p) && p[|s|] == v
  }

  /** s is v as it is printed: without leading zeros, letters in lower case. */
  ghost predicate Numeral(s: string, base: nat, v: nat)
    requires base == 10 || base == 16
  {
    Spelled(s, base, v) && (|s| > 1 ==> s[0] != '0') && forall i {:trigger s[i]} :: 0 <= i < |s| ==> s[i] in LOWER
  }

  lemma ColumnValue(c: char, base: nat, v: nat, w: nat)
    requires (base == 10 || base == 16) && Column(c, base, v, w)
    ensures IsDigit(c, base) && w == v * base + DigitValue(c)
  {
    var d := w - base * v;
    DigitPlace(d, c);
  }

  lemma DigitPlace(d: nat, c: char)
    requires d < 16 && (c == LOWER[d] || c == UPPER[d])
    ensures IsDigit(c, 16) && DigitValue(c) == d && (d < 10 ==> IsDigit(c, 10))
  {
  }

  /** What is spelled is read. */
  lemma {:induction false} ColumnsValue(s: string, base: nat, p: seq<nat>)
    requires (base == 10 || base == 16) && Columns(s, base, p)
    ensures AllDigits(s, base) && Value(s, base) == p[|s|]
  {
    hide DigitValue, Column, IsDigit;
    if |s| > 0 {
      var n := |s| - 1;
      var t, q := s[..n], p[..n + 1];
      assert forall i {:trigger t[i]} :: 0 <= i < n ==> t[i] == s[i] && q[i] == p[i] && q[i + 1] == p[i + 1];
      ColumnsValue(t, base, q);
      ColumnValue(s[n], base, p[n], p[n + 1]);
    }
  }

  lemma SpelledValue(s: string, base: nat, v: nat)
    requires (base == 10 || base == 16) && Spelled(s, base, v)
    ensures AllDigits(s, base) && Value(s, base) == v
  {
    var p: seq<nat> :| Columns(s, base, p) && p[|s|] == v;
    ColumnsValue(s, base, p);
  }

  lemma DigitPrinted(d: nat)
    requires d < 16
    ensures DigitChar(d) == LOWER[d]
  {
  }

  /** p spells s, as it is printed. */
  predicate Printed(s: string, base: nat, p: seq<nat>)
    requires base == 10 || base == 16
  {
    Columns(s, base, p) && (|s| > 0 ==> (s[0] == '0' ==> p[1] == 0)) && forall i {:trigger s[i]} :: 0 <= i < |s| ==> s[i] in LOWER
  }

  /** One more digit behind a number. */
  lemma PrintedNext(s: string, base: nat, p: seq<nat>, d: nat, c: char)
    requires (base == 10 || base == 16) && Printed(s, base, p) && d < base && c == LOWER[d]
    ensures Printed(s + [c], base, p + [base * p[|s|] + d])
  {
    hide Column;
    DigitColumn(d, c, base, p[|s|]);
    PrintedMore(s, base, p, c, base * p[|s|] + d);
  }

  lemma PrintedMore(s: string, base: nat, p: seq<nat>, c: char, v: nat)
    requires (base == 10 || base == 16) && Printed(s, base, p) && Column(c, base, p[|s|], v) && c in LOWER
    requires p[|s|] == 0 && c == '0' ==> v == 0
    ensures Printed(s + [c], base, p + [v])
  {
    hide Column;
  }

  lemma DigitColumn(d: nat, c: char, base: nat, v: nat)
    requires (base == 10 || base == 16) && d < base && c == LOWER[d]
    ensures Column(c, base, v, base * v + d) && (v == 0 && c == '0' ==> base * v + d == 0) && c in LOWER
  {
  }

  lemma NothingPrinted(base: nat)
    requires base == 10 || base == 16
    ensures Printed("", base, [0])
  {
  }

  lemma {:induction false} DecPrinted(n: nat) returns (p: seq<nat>)
    ensures Printed(Dec(n), 10, p) && |p| == |Dec(n)| + 1 && p[|p| - 1] == n && (|p| > 2 ==> p[1] > 0)
  {
    hide DigitChar, Printed, IsDigit, AllDigits;
    DigitPrinted(n % 10);
    if n < 10 {
      NothingPrinted(10);
      PrintedNext("", 10, [0], n, DigitChar(n));
      p := [0] + [10 * 0 + n];
      assert "" + [DigitChar(n)] == Dec(n);
    } else {
      var q := DecPrinted(n / 10);
      PrintedNext(Dec(n / 10), 10, q, n % 10, DigitChar(n % 10));
      p := q + [10 * (n / 10) + n % 10];
    }
  }

  lemma {:induction false} HexPrinted(n: nat) returns (p: seq<nat>)
    ensures Printed(Hex(n), 16, p) && |p| == |Hex(n)| + 1 && p[|p| - 1] == n && (|p| > 2 ==> p[1] > 0)
  {
    hide DigitChar, Printed, IsDigit, AllDigits;
    DigitPrinted(n % 16);
    if n < 16 {
      NothingPrinted(16);
      PrintedNext("", 16, [0], n, DigitChar(n));
      p := [0] + [16 * 0 + n];
      assert "" + [DigitChar(n)] == Hex(n);
    } else {
      var q := HexPrinted(n / 16);
      PrintedNext(Hex(n / 16), 16, q, n % 16, DigitChar(n % 16));
      p := q + [16 * (n / 16) + n % 16];
    }
  }

  /** What is printed for a number. */
  lemma DecNumeral(n: nat)
    ensures Numeral(Dec(n), 10, n)
  {
    hide Dec, Columns;
    var p := DecPrinted(n);
  }

  lemma HexNumeral(n: nat)
    ensures Numeral(Hex(n), 16, n)
  {
    hide Hex, Columns;
    var p := HexPrinted(n);
  }

  lemma HexLength(n: nat)
    requires n < 65536
    ensures |Hex(n)| <= 4
  {
    if n >= 16 {
      assert |Hex(n)| == |Hex(n / 16)| + 1;
      if n / 16 >= 16 {
        assert |Hex(n / 16)| == |Hex(n / 16 / 16)| + 1;
        if n / 16 / 16 >= 16 {
          assert |Hex(n / 16 / 16)| == |Hex(n / 16 / 16 / 16)| + 1;
        }
      }
    }
  }

  lemma DecLength(n: nat)
    requires n < 65536
    ensures |Dec(n)| <= 5 && (n < 256 ==> |Dec(n)| <= 3)
  {
    if n >= 10 {
      assert |Dec(n)| == |Dec(n / 10)| + 1;
      if n / 10 >= 10 {
        assert |Dec(n / 10)| == |Dec(n / 10 / 10)| + 1;
        if n / 10 / 10 >= 10 {
          assert |Dec(n / 10 / 10)| == |Dec(n / 10 / 10 / 10)| + 1;
          if n / 10 / 10 / 10 >= 10 {
            assert |Dec(n / 10 / 10 / 10)| == |Dec(n / 10 / 10 / 10 / 10)| + 1;
          }
        }
      }
    }
  }

  /** The length of the digits at the front of s. */
  function Run(s: string, base: nat): (n: nat)
    ensures n <= |s| && AllDigits(s[..n], base) && (n < |s| ==> !IsDigit(s[n], base))
  {
    if |s| > 0 && IsDigit(s[0], base) then
      var n := Run(s[1..], base);
      assert forall i {:trigger s[i]} :: 0 < i < n + 1 ==> s[i] == s[1..][..n][i - 1];
      n + 1
    else 0
  }

  predicate Ends(rest: string, base: nat) {
    |rest| == 0 || !IsDigit(rest[0], base)
  }

  lemma RunOf(d: string, rest: string, base: nat)
    requires AllDigits(d, base) && Ends(rest, base)
    ensures Run(d + rest, base) == |d|
  {
    var s := d + rest;
    var n := Run(s, base);
    assert forall i {:trigger s[i]} :: 0 <= i < n ==> s[i] == s[..n][i];
    assert forall i {:trigger s[i]} :: 0 <= i < |d| ==> s[i] == d[i];
    assert |rest| > 0 ==> s[|d|] == rest[0];
  }

  predicate IsSpace(c: char) {
    c == ' ' || '\t' <= c <= '\r'
  }

  function SkipSpaces(s: string): (r: string)
    ensures |r| <= |s| && (|r| > 0 ==> !IsSpace(r[0]))
    ensures |s| > 0 && !IsSpace(s[0]) ==> r == s
  {
    if |s| > 0 && IsSpace(s[0]) then SkipSpaces(s[1..]) else s
  }

  datatype Scanned = NoMatch | Scanned(value: nat, rest: string)

  const TWO_32 := 0x1_0000_0000
  const TWO_64 := 0x1_0000_0000_0000_0000

  /**
   * One %u: spaces, a sign and at least one digit. The digits are read as a 64-bit number, which a minus
   * sign negates and which stays at its largest value on overflow; its low 32 bits are stored.
   */
  function ScanUnsigned(s: string): Scanned {
    var t := SkipSpaces(s);
    var signed := |t| > 0 && (t[0] == '-' || t[0] == '+');
    var u := if signed then t[1..] else t;
    var n := Run(u, 10);
    if n == 0 then NoMatch else Scanned(Stored(Value(u[..n], 10), signed && t[0] == '-'), u[n..])
  }

  function Stored(v: nat, negative: bool): (w: nat)
    ensures w < TWO_32
  {
    if v >= TWO_64 then TWO_32 - 1 else if negative && v > 0 then (TWO_64 - v) % TWO_32 else v % TWO_32
  }

  lemma StoredSmall(v: nat)
    requires v < TWO_32
    ensures Stored(v, false) == v
  {
  }

  lemma ScanSpelled(d: string, n: nat, rest: string)
    requires Spelled(d, 10, n) && n < TWO_32 && Ends(rest, 10)
    ensures ScanUnsigned(d + rest) == Scanned(n, rest)
  {
    SpelledValue(d, 10, n);
    hide Stored, Value, Spelled;
    var s := d + rest;
    assert IsDigit(s[0], 10) by {
      assert s[0] == d[0];
    }
    StoredSmall(n);
    RunOf(d, rest, 10);
    assert s[..|d|] == d && s[|d|..] == rest;
  }

  lemma ScanDec(n: nat, rest: string)
    requires n < TWO_32 && Ends(rest, 10)
    ensures ScanUnsigned(Dec(n) + rest) == Scanned(n, rest)
  {
    hide Dec, ScanUnsigned, Spelled;
    DecNumeral(n);
    ScanSpelled(Dec(n), n, rest);
  }

  /**
   * How many characters strtol in base 16 takes from s, which starts with a digit: an 0x may stand in
   * front when another digit follows it.
   */
  function HexTaken(s: string): (n: nat)
    requires |s| > 0 && IsDigit(s[0], 16)
    ensures 0 < n <= |s|
  {
    Prefix(s) + Run(s[Prefix(s)..], 16)
  }

  function Prefix(s: string): (n: nat)
    ensures n <= |s|
  {
    if |s| > 2 && s[0] == '0' && (s[1] == 'x' || s[1] == 'X') && IsDigit(s[2], 16) then 2 else 0
  }

  /** The number strtol in base 16 reads from s. */
  function HexRead(s: string): nat
    requires |s| > 0 && IsDigit(s[0], 16)
  {
    Value(s[Prefix(s)..HexTaken(s)], 16)
  }

  lemma ReadSpelled(d: string, n: nat, rest: string)
    requires Spelled(d, 16, n) && Ends(rest, 16) && (|rest| == 0 || rest[0] !in "xX")
    ensures IsDigit((d + rest)[0], 16)
    ensures HexTaken(d + rest) == |d| && HexRead(d + rest) == n
  {
    var s := d + rest;
    SpelledValue(d, 16, n);
    hide Spelled, Value;
    assert s[0] == d[0];
    assert Prefix(s) == 0 by {
      if |s| > 2 && |d| > 1 {
        assert s[1] == d[1];
      } else if |s| > 2 {
        assert s[1] == rest[0];
      }
    }
    RunOf(d, rest, 16);
    assert s[0..] == s;
    assert s[..|d|] == d;
  }

  /** The low 32 bits of x as a signed number. */
  function Int32(x: int): (r: int)
    ensures -TWO_32 / 2 <= r < TWO_32 / 2
    ensures -TWO_32 / 2 <= x < TWO_32 / 2 ==> r == x
  {
    var w := x % TWO_32;
    if w >= TWO_32 / 2 then w - TWO_32 else w
  }

  /**
   * What atoi reads: a sign and digits after spaces, zero if there are none. They are read as a signed
   * 64-bit number, which stays at its extreme values on overflow, and cut down to an int.
   */
  function Atoi(s: string): int {
    var t := SkipSpaces(s);
    var signed := |t| > 0 && (t[0] == '-' || t[0] == '+');
    var u := if signed then t[1..] else t;
    var v := Value(u[..Run(u, 10)], 10);
    if signed && t[0] == '-' then Int32(if v > TWO_64 / 2 then -(TWO_64 / 2) else 0 - v)
    else Int32(if v >= TWO_64 / 2 then TWO_64 / 2 - 1 else v)
  }

  lemma AtoiSpelled(d: string, n: nat)
    requires Spelled(d, 10, n) && n < TWO_32 / 2
    ensures Atoi(d) == n
  {
    SpelledValue(d, 10, n);
    hide Int32, Value, Spelled;
    assert IsDigit(d[0], 10);
    assert d + "" == d;
    RunOf(d, "", 10);
    assert d[..|d|] == d;
  }

  /** The position of the first c in s, or the length of s if there is none. */
  function Find(s: string, c: char): (n: nat)
    ensures n <= |s| && c !in s[..n] && (n < |s| ==> s[n] == c)
  {
    if |s| == 0 || s[0] == c then 0
    else
      var n := Find(s[1..], c);
      assert s[..n + 1] == [s[0]] + s[1..][..n];
      n + 1
  }

  lemma FindAt(before: string, c: char, rest: string)
    requires c !in before && (|rest| == 0 || rest[0] == c)
    ensures Find(before + rest, c) == |before|
  {
    var s := before + rest;
    var n := Find(s, c);
    assert forall i {:trigger s[i]} :: 0 <= i < n ==> s[i] == s[..n][i];
    assert forall i {:trigger s[i]} :: 0 <= i < |before| ==> s[i] == before[i];
    assert |rest| > 0 ==> s[|before|] == rest[0];
  }
}
