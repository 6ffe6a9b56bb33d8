/** What the text of an address looks like: the forms of section 2.2 of RFC 4291, stated on the bytes of the address
    and the characters of the text. */
module InetForms {
  import opened Bytes
  import opened Numerals
  import opened InetText
  import opened Inet

  // ---------------------------------------------------------------- the forms

  /** A word in hexadecimal: up to four digits, and as it is printed without leading zeros and in lower case. */
  ghost predicate Group(text: string, v: nat, printed: bool) {
    Spelled(text, 16, v) && |text| <= 4 && (printed ==> Numeral(text, 16, v))
  }

  /** Words with a colon between each and the next. */
  ghost predicate Row(text: string, w: seq<nat>, printed: bool)
    decreases |w|
  {
    if |w| == 0 then text == ""
    else if |w| == 1 then Group(text, w[0], printed)
    else exists first, rest :: Group(first, w[0], printed) && Row(rest, w[1..], printed) && text == first + (":" + rest)
  }

  /** A byte in decimal. */
  ghost predicate Field(text: string, v: u8, printed: bool) {
    Spelled(text, 10, v) && (printed ==> Numeral(text, 10, v))
  }

  /** Four bytes with dots between them. */
  ghost predicate Quad(text: string, b: seq<u8>, printed: bool)
    requires |b| == 4
  {
    exists s, t, u, v ::
      && Field(s, b[0], printed) && Field(t, b[1], printed) && Field(u, b[2], printed) && Field(v, b[3], printed)
      && text == s + ("." + (t + ("." + (u + ("." + v)))))
  }

  /** The eight words of an address, the high byte of each first. */
  function Pairs(b: seq<u8>): (w: seq<nat>)
    requires |b| == 16
    ensures |w| == 8
  {
    seq(8, i requires 0 <= i < 8 => 256 * (b[2 * i] as nat) + b[2 * i + 1])
  }

  /** Ten zero bytes in front, and then two more and two words that are not zero, or two bytes 0xff. */
  predicate Mapped(b: seq<u8>)
    requires |b| == 16
  {
    && (forall i {:trigger b[i]} :: 0 <= i < 10 ==> b[i] == 0)
    && (|| (b[10] == 0 && b[11] == 0 && (b[12] != 0 || b[13] != 0) && (b[14] != 0 || b[15] != 0))
        || (b[10] == 0xff && b[11] == 0xff))
  }

  /** The longest run of zero words, and the first of several such. */
  ghost predicate FirstLongest(w: seq<nat>, pos: nat, len: nat) {
    && ZeroRun(w, pos, len)
    && forall p: nat, n: nat {:trigger ZeroRun(w, p, n)} :: ZeroRun(w, p, n) && n > 0 ==> n < len || (n == len && pos <= p)
  }

  /** Where words are left out, two colons stand. */
  ghost predicate Gap(text: string, w: seq<nat>, pos: nat, len: nat, printed: bool) {
    && pos + len <= |w|
    && exists left, right :: Row(left, w[..pos], printed) && Row(right, w[pos + len..], printed) && text == left + ("::" + right)
  }

  /** The text of an address: of some, the last four bytes as a dotted quad; of others, the first longest run of two or
      more zero words left out; or else all words. */
  ghost predicate TextOf(text: string, b: seq<u8>)
    requires |b| == 16
  {
    var w := Pairs(b);
    if Mapped(b) then exists q :: Quad(q, b[12..], true) && text == (if b[10] == 0 then "::" else "::ffff:") + q
    else if exists p: nat :: ZeroRun(w, p, 2) then
      exists pos: nat, len: nat :: len >= 2 && FirstLongest(w, pos, len) && Gap(text, w, pos, len, true)
    else Row(text, w, true)
  }

  // ---------------------------------------------------------------- what is printed

  lemma HexGroup(v: nat)
    requires v < 0x1_0000
    ensures Group(Hex(v), v, true)
  {
    hide Numeral, Hex;
    HexNumeral(v);
    HexLength(v);
    assert Spelled(Hex(v), 16, v) by {
      NumeralSpelled(Hex(v), 16, v);
    }
  }

  lemma NumeralSpelled(s: string, base: nat, v: nat)
    requires (base == 10 || base == 16) && Numeral(s, base, v)
    ensures Spelled(s, base, v)
  {
  }

  lemma {:induction false} JoinedRow(w: seq<nat>)
    requires IsWords(w)
    ensures Row(Joined(w), w, true)
    decreases |w|
  {
    hide Hex, Group;
    if |w| > 0 {
      HexGroup(w[0]);
      if |w| > 1 {
        JoinedRow(w[1..]);
      }
    }
  }

  lemma {:induction false} EachJoined(w: seq<nat>)
    requires |w| > 0
    ensures Each(w) == Joined(w) + ":"
  {
    hide Hex;
    if |w| == 1 {
      assert Each(w[1..]) == "";
      assert Hex(w[0]) + (":" + "") == Hex(w[0]) + ":";
    } else {
      EachJoined(w[1..]);
      assert Hex(w[0]) + (":" + (Joined(w[1..]) + ":")) == Hex(w[0]) + (":" + Joined(w[1..])) + ":";
    }
  }

  lemma CompressedGap(w: seq<nat>, pos: nat, len: nat)
    requires IsWords(w) && pos + len <= |w|
    ensures Gap(Compressed(w, pos, len), w, pos, len, true)
  {
    hide Each, Joined, Row;
    var a, b := w[..pos], w[pos + len..];
    JoinedRow(a);
    JoinedRow(b);
    if pos == 0 {
      NoWords();
      assert Compressed(w, pos, len) == Joined(a) + ("::" + Joined(b));
    } else {
      EachJoined(a);
      assert Compressed(w, pos, len) == Joined(a) + ":" + (":" + Joined(b)) == Joined(a) + ("::" + Joined(b));
    }
  }

  lemma DecField(v: u8)
    ensures Field(Dec(v), v, true)
  {
    hide Numeral, Dec;
    DecNumeral(v);
    NumeralSpelled(Dec(v), 10, v);
  }

  lemma {:induction false} DottedQuad(b: seq<u8>)
    requires |b| == 4
    ensures Quad(Dotted(b), b, true)
  {
    hide Dec, Field;
    var s, t, u, v := Dec(b[0]), Dec(b[1]), Dec(b[2]), Dec(b[3]);
    DecField(b[0]);
    DecField(b[1]);
    DecField(b[2]);
    DecField(b[3]);
    assert b[3..] == [b[3]] && b[1..][1..] == b[2..] && b[2..][1..] == b[3..];
    assert Dotted(b[3..]) == v && Dotted(b[2..]) == u + ("." + v) && Dotted(b[1..]) == t + ("." + (u + ("." + v)));
  }

  lemma PairsWords(b: seq<u8>)
    requires |b| == 16
    ensures Pairs(b) == Words(b)
  {
    hide Words;
    var w := Words(b);
    forall k | 0 <= k < 8 ensures w[k] == Pairs(b)[k] {
      assert w[k] == Word(b, k);
    }
  }

  lemma MappedEmbeds(b: seq<u8>)
    requires |b| == 16
    ensures Mapped(b) <==> Embeds(Words(b))
    ensures Mapped(b) ==> (b[10] == 0 <==> Words(b)[5] == 0) && (b[10] != 0 ==> Words(b)[5] == 0xffff)
  {
    var w := Words(b);
    assert forall k {:trigger w[k]} :: 0 <= k < 8 ==> w[k] == Word(b, k);
    assert forall k {:trigger w[k]} :: 0 <= k < 8 ==> (w[k] == 0 <==> b[2 * k] == 0 && b[2 * k + 1] == 0);
  }

  lemma Ffff()
    ensures Hex(0xffff) == "ffff"
  {
    assert Hex(0xf) == "f" && Hex(0xff) == "ff" && Hex(0xfff) == "fff";
  }

  /** Every address is printed in this form. */
  lemma TextForm(b: seq<u8>)
    requires |b| == 16
    ensures TextOf(Text(b), b)
  {
    hide Words, Embeds, Mapped, Dotted, Hex, Joined, Compressed, Row, Gap, Quad, Pairs, HexText;
    var w := Words(b);
    PairsWords(b);
    MappedEmbeds(b);
    if Mapped(b) {
      DottedQuad(b[12..]);
      Ffff();
      assert "::" + ("ffff" + (":" + Dotted(b[12..]))) == "::ffff:" + Dotted(b[12..]);
    } else {
      var (pos, len) := Longest(w, 0);
      CompressedRun(b, pos, len);
      if len >= 2 {
        assert ZeroRun(w, pos, 2);
        CompressedGap(w, pos, len);
      } else {
        JoinedRow(w);
      }
    }
  }
}
