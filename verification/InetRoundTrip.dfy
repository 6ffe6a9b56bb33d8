/** Every text in one of the forms is read as the address it is a text of, and so what is printed is read back. */
module InetRoundTrip {
  import opened Bytes
  import opened Options
  import opened Numerals
  import opened InetText
  import opened Inet
  import opened InetForms

  // ---------------------------------------------------------------- the texts of an address

  /** All words in front of a dotted quad and the colon behind them, or some of them and a gap that the others of the
      first six fill. */
  ghost predicate Front(text: string, w: seq<nat>)
    requires |w| == 8
  {
    || (exists all :: Row(all, w[..6], false) && text == all + ":")
    || (exists pos: nat, left :: pos < 6 && ZeroRun(w, pos, 6 - pos) && Row(left, w[..pos], false) && text == left + "::")
    || (exists pos: nat, len: nat, left, right ::
          && 0 < len && pos + len < 6 && ZeroRun(w, pos, len)
          && Row(left, w[..pos], false) && Row(right, w[pos + len..6], false) && text == left + ("::" + (right + ":")))
  }

  /** A text of an address: words of up to four digits in either case, one run of zero words of any length may be left
      out, and the last two words may be a dotted quad. */
  ghost predicate Denotes(text: string, b: seq<u8>)
    requires |b| == 16
  {
    var w := Pairs(b);
    || Row(text, w, false)
    || (exists pos: nat, len: nat :: 0 < len && ZeroRun(w, pos, len) && Gap(text, w, pos, len, false))
    || (exists front, q :: Front(front, w) && Quad(q, b[12..], false) && text == front + q)
  }

  // ---------------------------------------------------------------- reading words

  /** One word and the colon behind it. */
  lemma GroupsWord(d: string, v: nat, rest: string, n: int, w: seq<nat>, gap: int)
    requires Group(d, v, false) && v < 65536 && Fits(w, gap) && |w| <= 7
    requires |d| < n <= |d + (":" + rest)|
    ensures n - |d| - 1 <= |rest| && Fits(w + [v], gap)
    ensures Groups(d + (":" + rest), n, w, gap) == Groups(rest, n - |d| - 1, w + [v], gap)
  {
    hide HexTaken, HexRead, Spelled, Numeral;
    var tail := ":" + rest;
    ReadSpelled(d, v, tail);
    var s := d + tail;
    var k := |d|;
    assert s[k] == ':';
    assert s[k + 1..] == rest;
  }

  /** One word at the end. */
  lemma GroupsLast(d: string, v: nat, w: seq<nat>, gap: int)
    requires Group(d, v, false) && v < 65536 && Fits(w, gap) && |w| <= 7
    ensures Groups(d, |d|, w, gap) == Parsed(w + [v], gap)
  {
    hide HexTaken, HexRead, Spelled, Numeral;
    ReadSpelled(d, v, "");
    assert d + "" == d;
  }

  lemma GroupsDone(s: string, n: int, w: seq<nat>, gap: int)
    requires Fits(w, gap) && n <= 0
    ensures Groups(s, n, w, gap) == Parsed(w, gap)
  {
  }

  lemma RowStep(text: string, u: seq<nat>)
    requires Row(text, u, false)
    ensures |u| == 0 ==> text == ""
    ensures |u| == 1 ==> Group(text, u[0], false)
    ensures |u| > 1 ==> exists d, more :: Group(d, u[0], false) && Row(more, u[1..], false) && text == d + (":" + more)
  {
  }

  lemma FitsMore(w: seq<nat>, gap: int)
    requires Fits(w, gap)
    ensures forall v: nat {:trigger w + [v]} :: v < 65536 ==> Fits(w + [v], gap)
  {
  }

  /** Words with a colon behind the last as well. */
  lemma {:induction false} GroupsRow(text: string, u: seq<nat>, rest: string, n: nat, w: seq<nat>, gap: int)
    requires Row(text, u, false) && IsWords(u) && |u| > 0 && Fits(w, gap) && |w| + |u| <= 8 && n <= |rest|
    ensures Fits(w + u, gap)
    ensures Groups(text + (":" + rest), |text| + 1 + n, w, gap) == Groups(rest, n, w + u, gap)
    decreases |u|
  {
    hide Groups, Group, Fits, Row;
    RowStep(text, u);
    FitsMore(w, gap);
    if |u| == 1 {
      GroupsWord(text, u[0], rest, |text| + 1 + n, w, gap);
      assert u == [u[0]];
    } else {
      var d, more :| Group(d, u[0], false) && Row(more, u[1..], false) && text == d + (":" + more);
      assert text + (":" + rest) == d + (":" + (more + (":" + rest)));
      GroupsWord(d, u[0], more + (":" + rest), |text| + 1 + n, w, gap);
      GroupsRow(more, u[1..], rest, n, w + [u[0]], gap);
      assert w + [u[0]] + u[1..] == w + u;
    }
  }

  /** Words up to the end. */
  lemma {:induction false} GroupsEnd(text: string, u: seq<nat>, w: seq<nat>, gap: int)
    requires Row(text, u, false) && IsWords(u) && Fits(w, gap) && |w| + |u| <= 8
    ensures Groups(text, |text|, w, gap) == Parsed(w + u, gap)
    decreases |u|
  {
    hide Groups, Group, Fits, Row;
    RowStep(text, u);
    FitsMore(w, gap);
    if |u| == 0 {
      assert w + u == w;
      GroupsDone("", 0, w, gap);
    } else if |u| == 1 {
      GroupsLast(text, u[0], w, gap);
      assert u == [u[0]];
    } else {
      var d, more :| Group(d, u[0], false) && Row(more, u[1..], false) && text == d + (":" + more);
      GroupsWord(d, u[0], more, |text|, w, gap);
      GroupsEnd(more, u[1..], w + [u[0]], gap);
      assert w + [u[0]] + u[1..] == w + u;
    }
  }

  /** The second colon of a gap behind words, or both colons of a gap in front. */
  lemma GroupsSeparator(pos: nat, rest: string, n: nat, w: seq<nat>)
    requires n <= |rest| && |w| == pos <= 7 && IsWords(w)
    ensures Groups(Separator(pos) + rest, |Separator(pos)| + n, w, -1) == Groups(rest, n, w, pos)
  {
    var s := Separator(pos) + rest;
    assert s[|Separator(pos)|..] == rest;
    assert w == [] || pos > 0;
  }

  /** Words and a gap. */
  lemma GroupsGap(left: string, u: seq<nat>, rest: string, n: nat)
    requires Row(left, u, false) && IsWords(u) && |u| <= 7 && n <= |rest|
    ensures Groups(left + ("::" + rest), |left| + 2 + n, [], -1) == Groups(rest, n, u, |u|)
  {
    hide Groups, Group, Row;
    RowStep(left, u);
    GroupsSeparator(|u|, rest, n, u);
    if |u| == 0 {
      assert left + ("::" + rest) == "::" + rest;
    } else {
      assert left + ("::" + rest) == left + (":" + (":" + rest));
      GroupsRow(left, u, ":" + rest, 1 + n, [], -1);
      assert [] + u == u;
    }
  }

  // ---------------------------------------------------------------- putting the words together

  lemma {:induction false} ZerosEqual(w: seq<nat>, i: nat, n: nat)
    requires ZeroRun(w, i, n)
    ensures w[i..i + n] == Zeros(n)
  {
  }

  lemma SliceWords(w: seq<nat>, i: nat, j: nat)
    requires IsWords(w) && i <= j <= |w|
    ensures IsWords(w[i..j]) && IsWords(w[..i]) && IsWords(w[j..])
  {
  }

  /** Words, a gap, more words, and the last two or none from a dotted quad. */
  lemma AssembledBack(w: seq<nat>, pos: nat, len: nat, k: nat)
    requires |w| == 8 && IsWords(w) && pos + len <= k <= 8 && len > 0 && ZeroRun(w, pos, len)
    ensures Fits(w[..pos] + w[pos + len..k], pos) && IsWords(w[k..])
    ensures Assembled(w[..pos] + w[pos + len..k], pos, w[k..]) == Some(w)
  {
    var u := w[..pos] + w[pos + len..k];
    ZerosEqual(w, pos, len);
    hide Zeros, ZeroRun;
    assert u[..pos] == w[..pos];
    assert u[pos..] + w[k..] == w[pos + len..];
    assert w == w[..pos] + (w[pos..pos + len] + w[pos + len..]);
  }

  lemma AllAssembled(w: seq<nat>, k: nat)
    requires |w| == 8 && IsWords(w) && k <= 8
    ensures Assembled(w[..k], -1, w[k..]) == Some(w)
  {
    assert w[..k] + w[k..] == w;
  }

  lemma ReadRow(text: string, w: seq<nat>)
    requires |w| == 8 && IsWords(w) && Row(text, w, false)
    ensures ReadWords(text, |text|, []) == Some(w)
  {
    hide Groups, Row, Assembled;
    GroupsEnd(text, w, [], -1);
    assert [] + w == w && w[..8] == w && w[8..] == [];
    AllAssembled(w, 8);
  }

  lemma ReadGap(text: string, w: seq<nat>, pos: nat, len: nat)
    requires |w| == 8 && IsWords(w) && 0 < len && ZeroRun(w, pos, len) && Gap(text, w, pos, len, false)
    ensures ReadWords(text, |text|, []) == Some(w)
  {
    hide Groups, Row, Assembled;
    var left, right :| Row(left, w[..pos], false) && Row(right, w[pos + len..], false) && text == left + ("::" + right);
    SliceWords(w, pos, pos + len);
    GroupsGap(left, w[..pos], right, |right|);
    GroupsEnd(right, w[pos + len..], w[..pos], pos);
    AssembledBack(w, pos, len, 8);
    assert w[pos + len..8] == w[pos + len..] && w[8..] == [];
  }

  /** The words in front of a dotted quad. */
  lemma ReadFront(front: string, w: seq<nat>, q: string)
    requires |w| == 8 && IsWords(w) && Front(front, w)
    ensures ReadWords(front + q, |front|, w[6..]) == Some(w)
  {
    hide Groups, Row, Assembled, ZeroRun, Fits;
    if all :| Row(all, w[..6], false) && front == all + ":" {
      assert front + q == all + (":" + q);
      NoWordsFit();
      GroupsRow(all, w[..6], q, 0, [], -1);
      assert [] + w[..6] == w[..6];
      GroupsDone(q, 0, w[..6], -1);
      AllAssembled(w, 6);
    } else if pos: nat, left :| pos < 6 && ZeroRun(w, pos, 6 - pos) && Row(left, w[..pos], false) && front == left + "::" {
      assert front + q == left + ("::" + q);
      GroupsGap(left, w[..pos], q, 0);
      AssembledBack(w, pos, 6 - pos, 6);
      assert w[..pos] + w[6..6] == w[..pos];
      GroupsDone(q, 0, w[..pos], pos);
    } else {
      var pos: nat, len: nat, left, right :| 0 < len && pos + len < 6 && ZeroRun(w, pos, len)
        && Row(left, w[..pos], false) && Row(right, w[pos + len..6], false) && front == left + ("::" + (right + ":"));
      assert front + q == left + ("::" + (right + (":" + q)));
      GroupsGap(left, w[..pos], right + (":" + q), |right| + 1);
      WordsFit(w[..pos]);
      GroupsRow(right, w[pos + len..6], q, 0, w[..pos], pos);
      AssembledBack(w, pos, len, 6);
      GroupsDone(q, 0, w[..pos] + w[pos + len..6], pos);
    }
  }

  lemma NoWordsFit()
    ensures Fits([], -1)
  {
  }

  lemma WordsFit(w: seq<nat>)
    requires IsWords(w)
    ensures Fits(w, |w|)
  {
  }

  // ---------------------------------------------------------------- finding the dotted quad

  predicate Lacks(s: string, c: char) {
    forall i {:trigger s[i]} :: 0 <= i < |s| ==> s[i] != c
  }

  /** The characters of words: no dots, brackets or percent signs. */
  predicate Plain(s: string) {
    Lacks(s, '.') && Unmarked(s)
  }

  predicate Unmarked(s: string) {
    Lacks(s, '[') && Lacks(s, ']') && Lacks(s, '%')
  }

  lemma PlainDigits(s: string)
    requires AllDigits(s, 16)
    ensures Plain(s)
  {
    assert forall i {:trigger s[i]} :: 0 <= i < |s| ==> IsDigit(s[i], 16);
  }

  lemma PlainPair(s: string, t: string)
    requires Plain(s) && Plain(t)
    ensures Plain(s + t)
  {
  }

  lemma PlainParts()
    ensures Plain("") && Plain(":") && Plain("::")
  {
  }

  lemma {:induction false} PlainRow(text: string, w: seq<nat>, printed: bool)
    requires Row(text, w, printed)
    ensures Plain(text)
    decreases |w|
  {
    hide Plain, Spelled, Numeral;
    PlainParts();
    if |w| == 1 {
      SpelledValue(text, 16, w[0]);
      PlainDigits(text);
    } else if |w| > 1 {
      var first, rest :| Group(first, w[0], printed) && Row(rest, w[1..], printed) && text == first + (":" + rest);
      SpelledValue(first, 16, w[0]);
      PlainDigits(first);
      PlainRow(rest, w[1..], printed);
      PlainPair(":", rest);
      PlainPair(first, ":" + rest);
    }
  }

  lemma PlainGap(text: string, w: seq<nat>, pos: nat, len: nat, printed: bool)
    requires Gap(text, w, pos, len, printed)
    ensures Plain(text)
  {
    hide Plain, Row;
    var left, right :| Row(left, w[..pos], printed) && Row(right, w[pos + len..], printed) && text == left + ("::" + right);
    PlainParts();
    PlainRow(left, w[..pos], printed);
    PlainRow(right, w[pos + len..], printed);
    PlainPair("::", right);
    PlainPair(left, "::" + right);
  }

  lemma PlainHexText(w: seq<nat>)
    requires |w| == 8 && IsWords(w)
    ensures Plain(HexText(w))
  {
    hide Plain, Joined, Compressed, Row, Gap;
    var (pos, len) := Longest(w, 0);
    if len <= 1 {
      JoinedRow(w);
      PlainRow(HexText(w), w, true);
    } else {
      CompressedGap(w, pos, len);
      PlainGap(HexText(w), w, pos, len, true);
    }
  }

  lemma PlainFront(front: string, w: seq<nat>)
    requires |w| == 8 && Front(front, w)
    ensures Plain(front) && |front| > 0 && front[|front| - 1] == ':'
  {
    hide Plain, Row, ZeroRun;
    PlainParts();
    if all :| Row(all, w[..6], false) && front == all + ":" {
      PlainRow(all, w[..6], false);
      PlainPair(all, ":");
    } else if pos: nat, left :| pos < 6 && ZeroRun(w, pos, 6 - pos) && Row(left, w[..pos], false) && front == left + "::" {
      PlainRow(left, w[..pos], false);
      PlainPair(left, "::");
    } else {
      var pos: nat, len: nat, left, right :| 0 < len && pos + len < 6 && ZeroRun(w, pos, len)
        && Row(left, w[..pos], false) && Row(right, w[pos + len..6], false) && front == left + ("::" + (right + ":"));
      PlainRow(left, w[..pos], false);
      PlainRow(right, w[pos + len..6], false);
      PlainPair(right, ":");
      PlainPair("::", right + ":");
      PlainPair(left, "::" + (right + ":"));
    }
  }

  lemma NotFound(s: string, c: char)
    requires Lacks(s, c)
    ensures Find(s, c) == |s|
  {
    assert s + "" == s;
    FindAt(s, c, "");
  }

  /** The first dot behind a number, and the digits in front of it. */
  lemma QuadFound(front: string, first: string, more: string)
    requires AllDigits(first, 10) && Lacks(front, '.') && (|front| > 0 ==> front[|front| - 1] == ':')
    ensures Find(front + (first + ("." + more)), '.') == |front| + |first|
    ensures DigitsBack(front + (first + ("." + more)), |front| + |first|) == |front|
  {
    hide *;
    DotFound(front, first, "." + more);
    DigitsFound(front, first, "." + more);
  }

  lemma DotFound(front: string, first: string, rest: string)
    requires AllDigits(first, 10) && Lacks(front, '.') && |rest| > 0 && rest[0] == '.'
    ensures Find(front + (first + rest), '.') == |front| + |first|
  {
    hide Find, AllDigits, Lacks;
    DigitsLack(first);
    LackBoth(front, first);
    FindAt(front + first, '.', rest);
    assert front + (first + rest) == front + first + rest;
  }

  lemma DigitsFound(front: string, first: string, rest: string)
    requires AllDigits(first, 10) && (|front| > 0 ==> front[|front| - 1] == ':')
    ensures DigitsBack(front + (first + rest), |front| + |first|) == |front|
  {
    hide DigitsBack;
    var s := front + (first + rest);
    assert forall j {:trigger s[j]} :: |front| <= j < |front| + |first| ==> s[j] == first[j - |front|];
    DigitsBackAt(s, |front|, |front| + |first|);
  }

  lemma DigitsLack(d: string)
    requires AllDigits(d, 10)
    ensures Lacks(d, '.')
  {
  }

  lemma LackBoth(s: string, t: string)
    requires Lacks(s, '.') && Lacks(t, '.')
    ensures '.' !in s + t
  {
  }

  lemma {:induction false} DigitsBackAt(s: string, k: nat, i: nat)
    requires k <= i <= |s| && forall j {:trigger s[j]} :: k <= j < i ==> IsDigit(s[j], 10)
    requires k > 0 ==> !IsDigit(s[k - 1], 10)
    ensures DigitsBack(s, i) == k
  {
    if i > k {
      DigitsBackAt(s, k, i - 1);
    }
  }

  /** Four bytes in decimal are read. */
  lemma QuadBack(q: string, b: seq<u8>)
    requires |b| == 4 && Quad(q, b, false)
    ensures ReadQuad(q) == Some(b)
  {
    hide Field, Fields, AsBytes;
    var s, t, u, v :|
      && Field(s, b[0], false) && Field(t, b[1], false) && Field(u, b[2], false) && Field(v, b[3], false)
      && q == s + ("." + (t + ("." + (u + ("." + v)))));
    FieldsLast(v, b[3]);
    FieldsNext(u, b[2], v, 1, [b[3]]);
    FieldsNext(t, b[1], u + ("." + v), 2, [b[2]] + [b[3]]);
    FieldsNext(s, b[0], t + ("." + (u + ("." + v))), 3, [b[1]] + ([b[2]] + [b[3]]));
    assert [b[0]] + ([b[1]] + ([b[2]] + [b[3]])) == b;
  }

  lemma FieldsLast(s: string, x: u8)
    requires Field(s, x, false)
    ensures Fields(s, 1) == Some([x])
  {
    hide Spelled, Numeral, ScanUnsigned;
    ScanSpelled(s, x, "");
    assert s + "" == s;
  }

  lemma FieldsNext(s: string, x: u8, rest: string, k: nat, v: seq<u8>)
    requires k > 0 && Field(s, x, false) && Fields(rest, k) == Some(v)
    ensures Fields(s + ("." + rest), k + 1) == Some([x] + v)
  {
    hide Spelled, Numeral, ScanUnsigned;
    ScanSpelled(s, x, "." + rest);
    assert ("." + rest)[1..] == rest;
  }

  /** A text with a quad behind a plain part that ends in a colon is read in two parts. */
  lemma QuadText(front: string, q: string, b: seq<u8>)
    requires |b| == 4 && Quad(q, b, false) && Lacks(front, '.') && |front| > 0 && front[|front| - 1] == ':'
    ensures ReadText(front + q) == Packed(ReadWords(front + q, |front|, QuadWords(b)))
  {
    hide DigitsBack, Find, ReadQuad, ReadWords, Lacks, Quad, AllDigits;
    QuadBack(q, b);
    var s, more := QuadStart(q, b);
    QuadFound(front, s, more);
    assert (front + q)[|front|..] == q;
  }

  lemma QuadStart(q: string, b: seq<u8>) returns (s: string, more: string)
    requires |b| == 4 && Quad(q, b, false)
    ensures AllDigits(s, 10) && q == s + ("." + more)
  {
    hide Spelled, Numeral, AllDigits;
    var a, t, u, v :|
      && Field(a, b[0], false) && Field(t, b[1], false) && Field(u, b[2], false) && Field(v, b[3], false)
      && q == a + ("." + (t + ("." + (u + ("." + v)))));
    SpelledValue(a, 10, b[0]);
    s, more := a, t + ("." + (u + ("." + v)));
  }

  lemma QuadPairs(b: seq<u8>)
    requires |b| == 16
    ensures Pairs(b)[6..] == QuadWords(b[12..]) && IsWords(Pairs(b))
  {
    PairsWords(b);
    var w, q := Pairs(b)[6..], QuadWords(b[12..]);
    assert w[0] == Pairs(b)[6] == q[0] && w[1] == Pairs(b)[7] == q[1];
  }

  // ---------------------------------------------------------------- the theorems

  /** Whatever form a text of an address has, it is read as that address. */
  lemma ReadForms(text: string, b: seq<u8>)
    requires |b| == 16 && Denotes(text, b)
    ensures ReadText(text) == Some(b)
  {
    hide ReadWords, Row, Gap, Front, Quad, Find, Pairs, Words, FromWords, ZeroRun, Lacks;
    var w := Pairs(b);
    PairsWords(b);
    WordsBack(b);
    if Row(text, w, false) {
      PlainRow(text, w, false);
      NotFound(text, '.');
      ReadRow(text, w);
    } else if pos: nat, len: nat :| 0 < len && ZeroRun(w, pos, len) && Gap(text, w, pos, len, false) {
      PlainGap(text, w, pos, len, false);
      NotFound(text, '.');
      ReadGap(text, w, pos, len);
    } else {
      var front, q :| Front(front, w) && Quad(q, b[12..], false) && text == front + q;
      PlainFront(front, w);
      QuadText(front, q, b[12..]);
      QuadPairs(b);
      ReadFront(front, w, q);
    }
  }

  lemma {:induction false} RowAny(text: string, w: seq<nat>)
    requires Row(text, w, true)
    ensures Row(text, w, false)
    decreases |w|
  {
    hide Spelled, Numeral;
    if |w| > 1 {
      var first, rest :| Group(first, w[0], true) && Row(rest, w[1..], true) && text == first + (":" + rest);
      RowAny(rest, w[1..]);
      assert Group(first, w[0], false);
    }
  }

  lemma GapAny(text: string, w: seq<nat>, pos: nat, len: nat)
    requires Gap(text, w, pos, len, true)
    ensures Gap(text, w, pos, len, false)
  {
    hide Row;
    var left, right :| Row(left, w[..pos], true) && Row(right, w[pos + len..], true) && text == left + ("::" + right);
    RowAny(left, w[..pos]);
    RowAny(right, w[pos + len..]);
  }

  lemma QuadAny(q: string, b: seq<u8>)
    requires |b| == 4 && Quad(q, b, true)
    ensures Quad(q, b, false)
  {
    hide Spelled, Numeral;
    var s, t, u, v :|
      && Field(s, b[0], true) && Field(t, b[1], true) && Field(u, b[2], true) && Field(v, b[3], true)
      && q == s + ("." + (t + ("." + (u + ("." + v)))));
    assert Field(s, b[0], false) && Field(t, b[1], false) && Field(u, b[2], false) && Field(v, b[3], false);
  }

  /** The words in front of a mapped address. */
  lemma MappedFront(b: seq<u8>)
    requires |b| == 16 && Mapped(b)
    ensures Front(if b[10] == 0 then "::" else "::ffff:", Pairs(b))
  {
    var w := Pairs(b);
    MappedPairs(b);
    hide Pairs, Mapped, Spelled, Numeral;
    assert w[..0] == [] && Row("", w[..0], false);
    if b[10] == 0 {
      assert "" + "::" == "::";
    } else {
      LastGroup(w);
      assert "" + ("::" + ("ffff" + ":")) == "::ffff:";
    }
  }

  lemma MappedPairs(b: seq<u8>)
    requires |b| == 16 && Mapped(b)
    ensures var w := Pairs(b); ZeroRun(w, 0, 5) && (b[10] == 0 ==> ZeroRun(w, 0, 6)) && (b[10] != 0 ==> w[5] == 0xffff)
  {
    var w := Pairs(b);
    assert w[0] == w[1] == w[2] == w[3] == w[4] == 0;
    assert w[5] == 256 * (b[10] as nat) + b[11];
  }

  lemma LastGroup(w: seq<nat>)
    requires |w| == 8 && w[5] == 0xffff
    ensures Row("ffff", w[0 + 5..6], false)
  {
    hide Spelled, Numeral;
    Ffff();
    HexGroup(0xffff);
    assert w[0 + 5..6] == [0xffff];
  }

  /** What is printed is one of the texts of the address. */
  lemma FormDenotes(text: string, b: seq<u8>)
    requires |b| == 16 && TextOf(text, b)
    ensures Denotes(text, b)
  {
    hide Row, Gap, Quad, Front, Pairs, Mapped, ZeroRun, FirstLongest;
    var w := Pairs(b);
    if Mapped(b) {
      var q :| Quad(q, b[12..], true) && text == (if b[10] == 0 then "::" else "::ffff:") + q;
      QuadAny(q, b[12..]);
      MappedFront(b);
    } else if exists p: nat :: ZeroRun(w, p, 2) {
      var pos: nat, len: nat :| len >= 2 && FirstLongest(w, pos, len) && Gap(text, w, pos, len, true);
      LongestIsRun(w, pos, len);
      GapAny(text, w, pos, len);
    } else {
      RowAny(text, w);
    }
  }

  lemma LongestIsRun(w: seq<nat>, pos: nat, len: nat)
    requires FirstLongest(w, pos, len)
    ensures ZeroRun(w, pos, len) && pos + len <= |w|
  {
  }

  /** For every address: what is printed for it is read as the same address. */
  lemma TextRoundTrip(b: seq<u8>)
    requires |b| == 16
    ensures ReadText(Text(b)) == Some(b)
  {
    hide Text, ReadText, TextOf, Denotes;
    TextForm(b);
    FormDenotes(Text(b), b);
    ReadForms(Text(b), b);
  }

  /** No two addresses have the same text. */
  lemma TextInjective(b: seq<u8>, c: seq<u8>)
    requires |b| == 16 && |c| == 16 && Text(b) == Text(c)
    ensures b == c
  {
    hide Text, ReadText;
    TextRoundTrip(b);
    TextRoundTrip(c);
  }
}
