/** Tagged records in chained buffers: the writers and readers of event_tagging.c. */
module Tagging {
  import opened Bytes
  import opened Chunks
  import opened Evbuffers
  import opened EvbufferMove
  import opened Options
  import opened TagCodec

  const INT_MAX: nat := 0x7fff_ffff
  const UINT32: nat := 0x1_0000_0000

  // ---------------------------------------------------------------- writing

  /** Digits s[..i] stand in half bytes 1..i of d and everything else is zero. */
  predicate Holds(d: seq<u8>, s: seq<nat>, i: nat) {
    && i <= |s|
    && forall m {:trigger HalfAt(d, m)} :: 0 <= m < 2 * |d| ==> HalfAt(d, m) == if 1 <= m <= i then s[m - 1] else 0
  }

  /** Byte x with its low half, or its high half, replaced by v. */
  function WithHalf(x: u8, low: bool, v: nat): (y: u8)
    requires v < 16
    ensures low ==> y % 16 == v && y / 16 == x / 16
    ensures !low ==> y / 16 == v && y % 16 == x % 16
  {
    if low then x / 16 * 16 + v else x % 16 + v * 16
  }

  lemma HoldsMore(d: seq<u8>, s: seq<nat>, i: nat)
    requires Holds(d, s, i) && i < |s| && (i + 1) / 2 < |d| && s[i] < 16
    ensures Holds(d[(i + 1) / 2 := WithHalf(d[(i + 1) / 2], (i + 1) % 2 == 1, s[i])], s, i + 1)
  {
    var e := d[(i + 1) / 2 := WithHalf(d[(i + 1) / 2], (i + 1) % 2 == 1, s[i])];
    forall m | 0 <= m < 2 * |e| ensures HalfAt(e, m) == if 1 <= m <= i + 1 then s[m - 1] else 0 {
      assert HalfAt(d, m) == if 1 <= m <= i then s[m - 1] else 0;
      if m != i + 1 {
        assert HalfAt(e, m) == HalfAt(d, m);
      }
    }
  }

  /** With the header in place, the bytes written are the encoding. */
  lemma HoldsAll(d: seq<u8>, number: nat, count: nat)
    requires |Nibbles(number)| <= 16 && |Nibbles(number)| / 2 < |d|
    requires Holds(d, Nibbles(number), |Nibbles(number)|) && count == HalfBytes(number)[0]
    ensures d[0 := WithHalf(d[0], false, count)][..|Nibbles(number)| / 2 + 1] == EncInt(number)
  {
    hide Nibbles;
    var s, h, e := Nibbles(number), HalfBytes(number), EncInt(number);
    var f := d[0 := WithHalf(d[0], false, count)];
    forall j | 0 <= j < |e| ensures f[j] == e[j] {
      assert HalfAt(d, 2 * j) == d[j] / 16 && HalfAt(d, 2 * j + 1) == d[j] % 16;
      assert f[j] % 16 == d[j] % 16;
      assert e[j] / 16 == h[2 * j];
      assert f[j] / 16 == e[j] / 16;
      assert f[j] % 16 == e[j] % 16;
    }
  }

  /** Sets half byte m of data. */
  method PutHalf(data: array<u8>, m: nat, v: nat)
    requires m / 2 < data.Length && v < 16
    modifies data
    ensures data[..] == old(data[..])[m / 2 := WithHalf(old(data[m / 2]), m % 2 == 1, v)]
  {
    if m % 2 == 1 {
      data[m / 2] := data[m / 2] / 16 * 16 + v;
    } else {
      data[m / 2] := data[m / 2] % 16 + v * 16;
    }
  }

  /** ENCODE_INT_INTERNAL: writes number into data, which has room for every half byte. */
  method EncodeIntInternal(data: array<u8>, number: nat, size: nat) returns (len: nat)
    requires number < Pow(256, size) && 1 <= size <= 8 && data.Length > size
    modifies data
    ensures |Nibbles(number)| <= 2 * size && len <= data.Length
    ensures data[..len] == EncInt(number) && exists k :: IntWire(number, k, data[..len])
  {
    hide Pow, Pack, HalfAt, WithHalf, Holds, Nibbles, HalfBytes, EncInt, IntWire;
    PowSquare(size);
    NibblesCount(number, 2 * size);
    ghost var s := Nibbles(number);
    forall j | 0 <= j < data.Length {
      data[j] := 0;
    }
    HoldsNone(data[..], s);
    var off: nat, n: nat := 1, number;
    NibblesStart(number);
    while n != 0
      invariant 1 <= off <= |s| + 1 && Nibbles(n) == s[off - 1..]
      invariant Holds(data[..], s, off - 1)
      decreases n
    {
      NextNibble(s, n, off - 1);
      HoldsMore(data[..], s, off - 1);
      PutHalf(data, off, n % 16);
      n := n / 16;
      off := off + 1;
    }
    NibblesEnd(s, off - 1);
    var nibbles := if off > 2 then off - 2 else 0;
    HoldsAll(data[..], number, nibbles);
    PutHalf(data, 0, nibbles);
    len := (off + 1) / 2;
    Wired(number, data[..len]);
  }

  lemma Wired(n: nat, b: seq<u8>)
    requires |Nibbles(n)| <= 16 && b == EncInt(n)
    ensures exists k :: IntWire(n, k, b)
  {
    hide IntWire, EncInt, Nibbles;
    var _ := EncIntWire(n);
  }

  lemma {:induction false} HoldsNone(d: seq<u8>, s: seq<nat>)
    requires forall j {:trigger d[j]} :: 0 <= j < |d| ==> d[j] == 0
    ensures Holds(d, s, 0)
  {
  }

  lemma NibblesStart(n: nat)
    requires |Nibbles(n)| <= 16
    ensures Nibbles(n) == Nibbles(n)[0..]
    ensures HalfBytes(n)[0] == if |Nibbles(n)| == 0 then 0 else |Nibbles(n)| - 1
  {
  }

  lemma NibblesEnd(s: seq<nat>, i: nat)
    requires i <= |s| && Nibbles(0) == s[i..]
    ensures i == |s|
  {
  }

  lemma NextNibble(s: seq<nat>, n: nat, i: nat)
    requires n != 0 && i <= |s| && Nibbles(n) == s[i..]
    ensures i < |s| && s[i] == n % 16 && Nibbles(n / 16) == s[i + 1..]
  {
    assert s[i..][0] == s[i] && s[i..][1..] == s[i + 1..];
  }

  lemma {:induction false} PowSquare(k: nat)
    ensures Pow(256, k) == Pow(16, 2 * k)
  {
    if k > 0 {
      PowSquare(k - 1);
      PowStep(16, 2 * k - 1);
      PowStep(16, 2 * k - 2);
    }
  }

  lemma Width()
    ensures Pow(256, 4) == UINT32 && Pow(256, 8) == UINT32 * UINT32
  {
    PowStep(256, 7); PowStep(256, 6); PowStep(256, 5); PowStep(256, 4);
    PowStep(256, 3); PowStep(256, 2); PowStep(256, 1); PowStep(256, 0);
  }

  /** What a buffer that held b holds after data was added to it, or refused because it would not fit. */
  function Put(b: seq<u8>, data: seq<u8>): seq<u8> {
    if |b| + |data| <= SIZE_MAX then b + data else b
  }

  /** evtag_encode_int and evtag_encode_int64: size is 4 or 8. */
  method EncodeInt(buf: Evbuffer, number: nat, size: nat) returns (ok: bool)
    requires buf.Valid() && number < Pow(256, size) && 1 <= size <= 8
    modifies buf
    ensures buf.Valid() && forall a :: a in Addrs(buf.chain) ==> a in old(Addrs(buf.chain)) || fresh(a)
    ensures |Nibbles(number)| <= 2 * size
    ensures ok == (old(buf.totalLen) + |EncInt(number)| <= SIZE_MAX)
    ensures buf.Contents() == Put(old(buf.Contents()), EncInt(number))
  {
    hide Pow, Nibbles, EncInt, Core, Flat, AllOk, Addrs;
    var data := new u8[size + 1];
    var len := EncodeIntInternal(data, number, size);
    ok := buf.Add(data[..len]);
  }

  /** The loop of evtag_encode_tag: the groups of seven bits, least significant first. */
  method TagBytes(tag: nat) returns (data: seq<u8>)
    ensures data == EncTag(tag)
  {
    var t := tag;
    data := [];
    while t >= 128
      invariant EncTag(tag) == data + EncTag(t)
      decreases t
    {
      data := data + [t % 128 + 128];
      t := t / 128;
    }
    data := data + [t];
  }

  /** evtag_encode_tag */
  method EncodeTag(buf: Evbuffer, tag: nat) returns (ok: bool)
    requires buf.Valid() && tag < UINT32
    modifies buf
    ensures buf.Valid() && forall a :: a in Addrs(buf.chain) ==> a in old(Addrs(buf.chain)) || fresh(a)
    ensures ok == (old(buf.totalLen) + |EncTag(tag)| <= SIZE_MAX)
    ensures buf.Contents() == Put(old(buf.Contents()), EncTag(tag))
    ensures ok ==> |old(buf.Contents())| <= |buf.Contents()| && TagWire(tag, buf.Contents()[|old(buf.Contents())|..])
  {
    hide EncTag, Core, Flat, AllOk, Addrs, TagWire;
    ValidFacts(buf);
    EncTagWire(tag);
    var data := TagBytes(tag);
    ok := buf.Add(data);
  }

  lemma PutOne(b: seq<u8>, data: seq<u8>)
    ensures |b| + |data| <= SIZE_MAX ==> Put(b, data) == b + data
    ensures |b| + |data| > SIZE_MAX ==> Put(b, data) == b
  {
  }

  lemma PutAll(b: seq<u8>, t: seq<u8>, l: seq<u8>, p: seq<u8>)
    ensures |b| + |t| + |l| + |p| <= SIZE_MAX ==> Put(Put(Put(b, t), l), p) == b + t + l + p
    ensures |b| + |t| + |l| <= SIZE_MAX ==> Put(Put(b, t), l) == b + t + l
  {
  }

  /** evtag_marshal: appends one record. */
  method Marshal(buf: Evbuffer, r: Record)
    requires buf.Valid() && r.tag < UINT32 && |r.payload| < UINT32
    modifies buf
    ensures buf.Valid() && |Nibbles(|r.payload|)| <= 8
    ensures buf.Contents() == Put(Put(Put(old(buf.Contents()), EncTag(r.tag)), EncInt(|r.payload|)), r.payload)
    ensures old(buf.totalLen) + |EncRecord(r)| <= SIZE_MAX ==>
              && buf.Contents() == old(buf.Contents()) + EncRecord(r)
              && RecordWire(r, buf.Contents()[|old(buf.Contents())|..])
  {
    hide EncTag, EncInt, EncRecord, Pow, Nibbles, Core, Flat, AllOk, Addrs, Put, RecordWire, TagWire;
    EncRecordWire(r);
    Width();
    ValidFacts(buf);
    RecordParts(r, buf.Contents());
    PutAll(buf.Contents(), EncTag(r.tag), EncInt(|r.payload|), r.payload);
    var a := EncodeTag(buf, r.tag);
    var b := EncodeInt(buf, |r.payload|, 4);
    ValidFacts(buf);
    PutOne(buf.Contents(), r.payload);
    var c := buf.Add(r.payload);
  }

  /** evtag_marshal_int and evtag_marshal_int64: a record whose payload is an encoded integer. */
  method MarshalInt(buf: Evbuffer, tag: nat, number: nat, size: nat)
    requires buf.Valid() && tag < UINT32 && number < Pow(256, size) && 1 <= size <= 8
    modifies buf
    ensures buf.Valid() && |Nibbles(number)| <= 2 * size && |Nibbles(|EncInt(number)|)| <= 8
    ensures buf.Contents() == Put(Put(Put(old(buf.Contents()), EncTag(tag)), EncInt(|EncInt(number)|)), EncInt(number))
    ensures old(buf.totalLen) + |EncRecord(Record(tag, EncInt(number)))| <= SIZE_MAX ==>
              buf.Contents() == old(buf.Contents()) + EncRecord(Record(tag, EncInt(number)))
  {
    hide EncInt, EncRecord, Pow, Nibbles, Core, Flat, AllOk, Addrs;
    var data := new u8[size + 1];
    var len := EncodeIntInternal(data, number, size);
    Marshal(buf, Record(tag, data[..len]));
  }

  lemma RecordParts(r: Record, b: seq<u8>)
    requires |r.payload| < UINT32
    ensures |Nibbles(|r.payload|)| <= 8
    ensures |EncRecord(r)| == |EncTag(r.tag)| + |EncInt(|r.payload|)| + |r.payload|
    ensures b + EncRecord(r) == b + EncTag(r.tag) + EncInt(|r.payload|) + r.payload
  {
    hide EncTag, EncInt, Nibbles;
    Small32(|r.payload|);
    var t, l, p := EncTag(r.tag), EncInt(|r.payload|), r.payload;
    assert EncInt32(|p|) == l;
    Joined(b, t, l, p);
  }

  lemma Joined<T>(a: seq<T>, b: seq<T>, c: seq<T>, d: seq<T>)
    ensures a + (b + c + d) == a + b + c + d
  {
  }

  /** evtag_marshal_buffer: the payload moves from data; the length is stored modulo 2^32. */
  method MarshalBuffer(buf: Evbuffer, tag: nat, data: Evbuffer)
    requires buf.Valid() && data.Valid() && buf != data && Addrs(buf.chain) !! Addrs(data.chain)
    requires tag < UINT32
    modifies buf, data
    ensures buf.Valid() && data.Valid() && Addrs(buf.chain) !! Addrs(data.chain)
    ensures data.Contents() == []
    ensures buf.Contents() == Put(Put(old(buf.Contents()), EncTag(tag)), EncInt32(old(data.totalLen))) + old(data.Contents())
    ensures old(buf.totalLen) + |EncTag(tag)| + |EncInt32(old(data.totalLen))| <= SIZE_MAX ==>
              buf.Contents() == old(buf.Contents()) + EncTag(tag) + EncInt32(old(data.totalLen)) + old(data.Contents())
  {
    hide EncTag, EncInt, EncInt32, Pow, Nibbles, Core, Flat, AllOk, Addrs;
    Width();
    ValidFacts(buf);
    ValidFacts(data);
    AddrsAllocated(data.chain);
    Stored(data.totalLen);
    var a := EncodeTag(buf, tag);
    ValidFacts(buf);
    var b := EncodeInt(buf, data.totalLen % UINT32, 4);
    ValidFacts(buf);
    AddBuffer(buf, data);
  }

  lemma Stored(n: nat)
    ensures |Nibbles(n % UINT32)| <= 8 && EncInt32(n) == EncInt(n % UINT32)
  {
    hide EncInt;
    Small32(n % UINT32);
  }

  // ---------------------------------------------------------------- reading

  /** The first n bytes, made contiguous. */
  method Front(buf: Evbuffer, n: nat) returns (data: seq<u8>)
    requires buf.Valid() && 0 < n <= buf.totalLen
    modifies buf
    ensures buf.Valid() && buf.Contents() == old(buf.Contents()) && buf.totalLen == old(buf.totalLen)
    ensures |data| == n <= |buf.Contents()| && data == buf.Contents()[..n]
    ensures forall a :: a in Addrs(buf.chain) ==> a in old(Addrs(buf.chain)) || fresh(a)
  {
    hide Flat, AllOk, Addrs, Core;
    ValidFacts(buf);
    var ok := buf.Pullup(n);
    ValidFacts(buf);
    data := buf.chain[0].Data()[..n];
  }

  /** decode_tag_internal: the tag at the front and its length, or -1. */
  method DecodeTagInternal(buf: Evbuffer, drain: bool) returns (res: int, tag: nat)
    requires buf.Valid()
    modifies buf
    ensures buf.Valid()
    ensures forall a :: a in Addrs(buf.chain) ==> a in old(Addrs(buf.chain)) || fresh(a)
    ensures var d := DecTag(old(buf.Contents()));
            && (d.None? ==> res == -1 && buf.Contents() == old(buf.Contents()))
            && (d.Some? ==> (tag, res) == d.value && 0 < res <= |old(buf.Contents())|)
            && (d.Some? && drain ==> buf.Contents() == old(buf.Contents())[res..])
            && (d.Some? && !drain ==> buf.Contents() == old(buf.Contents()))
    ensures TagRead(old(buf.Contents()), res, tag)
  {
    hide Pow, Flat, AllOk, Addrs, Core, TagRead, DecTag;
    ValidFacts(buf);
    ghost var b := buf.Contents();
    DecTagWire(b);
    TagNone(b);
    res, tag := -1, 0;
    if buf.totalLen == 0 {
      return;
    }
    var data := Front(buf, Min(buf.totalLen, 5));
    ValidFacts(buf);
    var len := buf.totalLen;
    var count, done := TagLoop(data, len, b);
    if done.None? {
      return;
    }
    res, tag := count, done.value;
    if drain {
      buf.Drain(count);
    }
  }

  lemma TagNone(b: seq<u8>)
    ensures |b| == 0 ==> DecTag(b).None?
  {
  }

  /** The loop of decode_tag_internal over the len bytes that begin with data. */
  method TagLoop(data: seq<u8>, len: nat, ghost b: seq<u8>) returns (count: nat, number: Option<nat>)
    requires |b| == len > 0 && |data| == Min(len, 5) && data == b[..|data|]
    ensures number.None? <==> DecTag(b).None?
    ensures number.Some? ==> DecTag(b) == Some((number.value, count)) && 0 < count <= len
  {
    hide Pow;
    var n: nat, scale: nat := 0, 1;
    count := 0;
    PowZero(128);
    while count < len
      invariant count <= len && scale == Pow(128, count)
      invariant DecTag(b) == DecTagFrom(b, count, n)
    {
      if count > 4 {
        return count, None;
      }
      assert data[count] == b[count];
      if count == 4 && data[count] % 128 > 15 {
        return count, None;
      }
      n := n + data[count] % 128 * scale;
      count := count + 1;
      if data[count - 1] < 128 {
        return count, Some(n);
      }
      PowStep(128, count - 1);
      scale := scale * 128;
    }
    number := None;
  }

  /** DECODE_INT_INTERNAL: the number that starts at offset and its length, or -1. It never outgrows
      the width that maxNibbles stands for, so no shift loses a digit. */
  method DecodeIntInternal(buf: Evbuffer, maxNibbles: nat, offset: nat) returns (res: int, number: nat)
    requires buf.Valid() && offset <= buf.totalLen && maxNibbles <= 16
    modifies buf
    ensures buf.Valid() && buf.Contents() == old(buf.Contents()) && buf.totalLen == old(buf.totalLen)
    ensures forall a :: a in Addrs(buf.chain) ==> a in old(Addrs(buf.chain)) || fresh(a)
    ensures offset <= |buf.Contents()| && number < Pow(16, maxNibbles)
    ensures var d := DecInt(buf.Contents()[offset..], maxNibbles);
            && (d.None? ==> res == -1)
            && (d.Some? ==> (number, res) == d.value && 0 < res && offset + res <= |buf.Contents()|)
    ensures IntRead(buf.Contents()[offset..], maxNibbles, res, number)
  {
    hide Pow, Flat, AllOk, Addrs, Core, IntRead;
    ValidFacts(buf);
    PowPositive(maxNibbles);
    ghost var b := buf.Contents();
    DecIntWire(b[offset..], maxNibbles);
    res, number := -1, 0;
    var len := buf.totalLen - offset;
    if len == 0 {
      return;
    }
    var data := Front(buf, offset + 1);
    ValidFacts(buf);
    assert data[offset] == b[offset] == b[offset..][0];
    var nibbles := data[offset] / 16 + 1;
    if nibbles > maxNibbles || nibbles / 2 + 1 > len {
      return;
    }
    len := nibbles / 2 + 1;
    data := Front(buf, offset + len);
    ValidFacts(buf);
    number := GatherLoop(data[offset..], nibbles, maxNibbles);
    GatherFront(data[offset..], b[offset..], nibbles, 0);
    res := len;
  }

  /** The loop of DECODE_INT_INTERNAL. */
  method GatherLoop(data: seq<u8>, count: nat, maxNibbles: nat) returns (number: nat)
    requires count <= maxNibbles && count / 2 < |data|
    ensures number == Gather(data, count, 0) && number < Pow(16, maxNibbles)
  {
    hide Pow;
    var nibbles: nat := count;
    number := 0;
    PowPositive(0);
    while nibbles > 0
      invariant nibbles <= count && Gather(data, nibbles, number) == Gather(data, count, 0)
      invariant number < Pow(16, count - nibbles)
    {
      PowStep(16, count - nibbles);
      number := number * 16 + if nibbles % 2 == 1 then data[nibbles / 2] % 16 else data[nibbles / 2] / 16;
      nibbles := nibbles - 1;
    }
    PowMonotone(count, maxNibbles);
  }

  lemma PowPositive(e: nat)
    ensures Pow(16, e) > 0 && Pow(16, 0) == 1
  {
  }

  lemma {:induction false} PowMonotone(d: nat, e: nat)
    requires d <= e
    ensures Pow(16, d) <= Pow(16, e)
  {
    if d < e {
      PowMonotone(d, e - 1);
      PowStep(16, e - 1);
    }
  }

  lemma {:induction false} GatherFront(data: seq<u8>, b: seq<u8>, k: nat, acc: nat)
    requires k / 2 < |data| <= |b| && data == b[..|data|]
    ensures Gather(data, k, acc) == Gather(b, k, acc)
  {
    if k > 0 {
      assert HalfAt(data, k) == HalfAt(b, k);
      GatherFront(data, b, k - 1, 16 * acc + HalfAt(b, k));
    }
  }

  /** evtag_decode_int and evtag_decode_int64: maxNibbles is 8 or 16. */
  method DecodeInt(buf: Evbuffer, maxNibbles: nat) returns (ok: bool, number: nat)
    requires buf.Valid() && maxNibbles <= 16
    modifies buf
    ensures buf.Valid() && number < Pow(16, maxNibbles)
    ensures forall a :: a in Addrs(buf.chain) ==> a in old(Addrs(buf.chain)) || fresh(a)
    ensures var d := DecInt(old(buf.Contents()), maxNibbles);
            && ok == d.Some?
            && (!ok ==> buf.Contents() == old(buf.Contents()))
            && (ok ==> number == d.value.0 && d.value.1 <= |old(buf.Contents())|)
            && (ok ==> buf.Contents() == old(buf.Contents())[d.value.1..])
  {
    hide Pow, DecInt, Flat, AllOk, Addrs, Core;
    ValidFacts(buf);
    assert buf.Contents()[0..] == buf.Contents();
    var res, n := DecodeIntInternal(buf, maxNibbles, 0);
    ValidFacts(buf);
    ok, number := res != -1, n;
    if ok {
      buf.Drain(res);
    }
  }

  /** evtag_peek */
  method Peek(buf: Evbuffer) returns (res: int, tag: nat)
    requires buf.Valid()
    modifies buf
    ensures buf.Valid() && buf.Contents() == old(buf.Contents())
    ensures var d := DecTag(buf.Contents());
            (d.None? ==> res == -1) && (d.Some? ==> (tag, res) == d.value)
  {
    hide DecTag, Core, Flat, AllOk, Addrs;
    res, tag := DecodeTagInternal(buf, false);
  }

  /** evtag_payload_length and, with total, evtag_peek_length. */
  method PeekLength(buf: Evbuffer, total: bool) returns (ok: bool, length: nat)
    requires buf.Valid()
    modifies buf
    ensures buf.Valid() && buf.Contents() == old(buf.Contents())
    ensures DecRecord(buf.Contents()).Some? ==>
              ok && length == if total then DecRecord(buf.Contents()).value.1 % UINT32
                              else |DecRecord(buf.Contents()).value.0.payload|
    ensures ok <==> var d := DecTag(buf.Contents());
                    d.Some? && d.value.1 <= |buf.Contents()| && DecInt(buf.Contents()[d.value.1..], 8).Some?
  {
    hide DecTag, DecInt, Pow, Core, Flat, AllOk, Addrs;
    ok, length := false, 0;
    var len, _ := DecodeTagInternal(buf, false);
    if len == -1 {
      return;
    }
    ValidFacts(buf);
    var res, n := DecodeIntInternal(buf, 8, len);
    if res == -1 {
      return;
    }
    ok, length := true, n;
    if total {
      length := (length + (res + len)) % UINT32;
    }
  }

  /** An unsigned 32-bit number converted to int. */
  function ToInt(n: nat): int {
    if n <= INT_MAX then n else n - UINT32
  }

  /** What is left behind the header of b when it is taken off, as far as it can be read. */
  function AfterHeader(b: seq<u8>): (r: (Option<(nat, nat)>, seq<u8>))
    ensures |r.1| <= |b|
  {
    match DecTag(b)
    case None => (None, b)
    case Some((tag, n)) =>
      if n > |b| then (None, b) else
      match DecInt(b[n..], 8)
      case None => (None, b[n..])
      case Some((len, m)) => if n + m > |b| then (None, b) else (Some((tag, len)), b[n + m..])
  }

  /** A record that can be read off as a whole is its header with the payload behind it. */
  lemma HeaderRecord(b: seq<u8>)
    ensures DecRecord(b).Some? <==> AfterHeader(b).0.Some? && AfterHeader(b).0.value.1 <= |AfterHeader(b).1|
    ensures DecRecord(b).Some? ==>
              var (h, rest) := AfterHeader(b);
              var (r, n) := DecRecord(b).value;
              h == Some((r.tag, |r.payload|)) && r.payload == rest[..h.value.1] && n <= |b| && b[n..] == rest[h.value.1..]
  {
    hide DecTag, DecInt;
  }

  /** evtag_unmarshal_header: the length of the payload behind the header, as an int, or -1. The header
      is taken off even when the payload behind it is too short. */
  method UnmarshalHeader(buf: Evbuffer) returns (res: int, tag: nat)
    requires buf.Valid()
    modifies buf
    ensures buf.Valid()
    ensures forall a :: a in Addrs(buf.chain) ==> a in old(Addrs(buf.chain)) || fresh(a)
    ensures buf.Contents() == AfterHeader(old(buf.Contents())).1
    ensures var h := AfterHeader(old(buf.Contents())).0;
            && (h.Some? && h.value.1 <= |buf.Contents()| ==> res == ToInt(h.value.1) && tag == h.value.0)
            && (!(h.Some? && h.value.1 <= |buf.Contents()|) ==> res == -1)
  {
    hide TagRead, DecTag, DecInt, Pow, Core, Flat, AllOk, Addrs;
    ValidFacts(buf);
    ghost var b := buf.Contents();
    var r, t := DecodeTagInternal(buf, true);
    tag := t;
    if r == -1 {
      return -1, tag;
    }
    ValidFacts(buf);
    ghost var c := buf.Contents();
    var ok, len := DecodeInt(buf, 8);
    ValidFacts(buf);
    if !ok {
      return -1, tag;
    }
    assert buf.Contents() == b[r + DecInt(c, 8).value.1..];
    if buf.totalLen < len {
      return -1, tag;
    }
    res := ToInt(len);
  }

  /** An int converted to size_t. */
  function ToSize(n: int): nat
    requires -0x8000_0000 <= n
  {
    if n >= 0 then n else n + SIZE_MAX + 1
  }

  /** evtag_consume */
  method Consume(buf: Evbuffer) returns (ok: bool)
    requires buf.Valid()
    modifies buf
    ensures buf.Valid()
    ensures var d := DecRecord(old(buf.Contents()));
            && (d.None? ==> !ok && buf.Contents() == AfterHeader(old(buf.Contents())).1)
            && (d.Some? && |d.value.0.payload| <= INT_MAX ==>
                  ok && d.value.1 <= |old(buf.Contents())| && buf.Contents() == old(buf.Contents())[d.value.1..])
    ensures var d, rest := DecRecord(old(buf.Contents())), AfterHeader(old(buf.Contents())).1;
            d.Some? && |d.value.0.payload| > INT_MAX ==>
              var n := ToInt(|d.value.0.payload|);
              && ok == (n != -1) && (!ok ==> buf.Contents() == rest)
              && (ok ==> buf.Contents() == rest[Min(ToSize(n), |rest|)..])
              && (ok && |rest| < SIZE_MAX - INT_MAX ==> buf.Contents() == [])
  {
    hide DecTag, DecInt, DecRecord, AfterHeader, Pow, Core, Flat, AllOk, Addrs;
    ValidFacts(buf);
    HeaderRecord(buf.Contents());
    HeaderWidth(buf.Contents());
    ok := false;
    var len, _ := UnmarshalHeader(buf);
    if len == -1 {
      return;
    }
    ValidFacts(buf);
    buf.Drain(ToSize(len));
    ok := true;
  }

  /** A length read from a header fits 32 bits. */
  lemma HeaderWidth(b: seq<u8>)
    ensures var h := AfterHeader(b).0; h.Some? ==> h.value.1 < UINT32
  {
    hide DecTag;
    match DecTag(b)
    case None =>
    case Some((tag, n)) =>
      if n <= |b| && DecInt(b[n..], 8).Some? {
        GatherBound(b[n..], b[n] / 16 + 1, 0, 0);
        PowMonotone(b[n] / 16 + 1, 8);
        Small32Pow();
      }
  }

  lemma {:induction false} GatherBound(b: seq<u8>, k: nat, e: nat, acc: nat)
    requires k / 2 < |b| && acc < Pow(16, e)
    ensures Gather(b, k, acc) < Pow(16, e + k)
  {
    if k > 0 {
      PowStep(16, e);
      GatherBound(b, k - 1, e + 1, 16 * acc + HalfAt(b, k));
    }
  }

  /** evtag_unmarshal: moves the payload of the first record of src to dst. */
  method Unmarshal(src: Evbuffer, dst: Evbuffer) returns (res: int, tag: nat)
    requires src.Valid() && dst.Valid() && src != dst && Addrs(src.chain) !! Addrs(dst.chain)
    modifies src, dst
    ensures src.Valid() && dst.Valid() && Addrs(src.chain) !! Addrs(dst.chain)
    ensures var d := DecRecord(old(src.Contents()));
            && (d.None? ==> res == -1 && src.Contents() == AfterHeader(old(src.Contents())).1)
            && (d.None? ==> dst.Contents() == old(dst.Contents()))
            && (d.Some? && |d.value.0.payload| <= INT_MAX && old(dst.totalLen) + |d.value.0.payload| <= SIZE_MAX ==>
                  && res == |d.value.0.payload| && tag == d.value.0.tag
                  && dst.Contents() == old(dst.Contents()) + d.value.0.payload
                  && d.value.1 <= |old(src.Contents())| && src.Contents() == old(src.Contents())[d.value.1..])
            && (d.Some? && (|d.value.0.payload| > INT_MAX || old(dst.totalLen) + |d.value.0.payload| > SIZE_MAX) ==>
                  && res == -1 && src.Contents() == AfterHeader(old(src.Contents())).1
                  && dst.Contents() == old(dst.Contents()))
  {
    hide DecTag, DecInt, DecRecord, AfterHeader, Pow, Core, Flat, AllOk, Addrs;
    ValidFacts(src);
    HeaderRecord(src.Contents());
    HeaderWidth(src.Contents());
    AddrsAllocated(dst.chain);
    var len, t := UnmarshalHeader(src);
    res, tag := len, t;
    if len == -1 {
      return;
    }
    ValidFacts(src);
    AddrsAllocated(src.chain);
    if len < 0 {
      var _ := src.Pullup(len);
      return -1, tag;
    }
    var data := [];
    if len > 0 {
      data := Front(src, len);
    }
    ValidFacts(src);
    AddrsAllocated(src.chain);
    var ok := dst.Add(data);
    if !ok {
      return -1, tag;
    }
    src.Drain(len);
  }

  /** What evtag_unmarshal_int or evtag_unmarshal_int64 makes of b: the result, the number, the rest. */
  function IntRecord(b: seq<u8>, need: nat, maxNibbles: nat): (int, nat, seq<u8>) {
    match DecTag(b)
    case None => (-1, 0, b)
    case Some((tag, n)) =>
      if n > |b| then (-1, 0, b) else if tag != need then (-1, 0, b[n..]) else
      var (h, rest) := AfterHeader(b);
      if h.None? || |rest| < h.value.1 then (-1, 0, rest) else
      match DecInt(rest, maxNibbles)
      case None => (-1, 0, rest[h.value.1..])
      case Some((v, m)) => if m > h.value.1 then (-1, 0, rest[h.value.1..]) else (m, v, rest[h.value.1..])
  }

  /** The payload of len bytes at the front of b read as an integer. */
  function IntPayload(b: seq<u8>, len: nat, maxNibbles: nat): (int, nat) {
    match DecInt(b, maxNibbles)
    case None => (-1, 0)
    case Some((v, m)) => if m > len then (-1, 0) else (m, v)
  }

  /** The integer in a payload of len bytes, which is taken off the front whatever it holds. */
  method UnmarshalPayload(buf: Evbuffer, len: nat, maxNibbles: nat) returns (res: int, number: nat)
    requires buf.Valid() && len <= buf.totalLen && maxNibbles <= 16
    modifies buf
    ensures buf.Valid() && len <= |old(buf.Contents())|
    ensures buf.Contents() == old(buf.Contents())[len..]
    ensures res == IntPayload(old(buf.Contents()), len, maxNibbles).0
    ensures res != -1 ==> number == IntPayload(old(buf.Contents()), len, maxNibbles).1
  {
    hide DecInt, Pow, Core, Flat, AllOk, Addrs, Distinct, LastData, Points;
    ValidFacts(buf);
    ghost var e := buf.Contents();
    assert e[0..] == e;
    res, number := DecodeIntInternal(buf, maxNibbles, 0);
    ValidFacts(buf);
    buf.Drain(len);
    if res < 0 || res > len {
      res := -1;
    }
  }

  lemma IntRecordNone(b: seq<u8>, need: nat, maxNibbles: nat)
    ensures DecTag(b).None? ==> IntRecord(b, need, maxNibbles) == (-1, 0, b)
    ensures DecTag(b).Some? && DecTag(b).value.1 <= |b| && DecTag(b).value.0 != need ==>
              IntRecord(b, need, maxNibbles) == (-1, 0, b[DecTag(b).value.1..])
  {
    hide DecTag, DecInt;
  }

  lemma IntRecordSome(b: seq<u8>, need: nat, maxNibbles: nat, n: nat, c: seq<u8>)
    requires DecTag(b) == Some((need, n)) && n <= |b| && c == b[n..]
    ensures DecInt(c, 8).None? ==> IntRecord(b, need, maxNibbles) == (-1, 0, c)
    ensures DecInt(c, 8).Some? && DecInt(c, 8).value.1 <= |c| ==>
              var len, e := DecInt(c, 8).value.0, c[DecInt(c, 8).value.1..];
              var p := IntPayload(e, len, maxNibbles);
              && (|e| < len ==> IntRecord(b, need, maxNibbles) == (-1, 0, e))
              && (|e| >= len ==> IntRecord(b, need, maxNibbles) == (p.0, p.1, e[len..]))
  {
    hide DecTag, DecInt;
    if DecInt(c, 8).Some? && DecInt(c, 8).value.1 <= |c| {
      assert c[DecInt(c, 8).value.1..] == b[n + DecInt(c, 8).value.1..];
    }
  }

  /** evtag_unmarshal_int and evtag_unmarshal_int64: maxNibbles is 8 or 16. */
  method UnmarshalInt(buf: Evbuffer, need: nat, maxNibbles: nat) returns (res: int, number: nat)
    requires buf.Valid() && maxNibbles <= 16
    modifies buf
    ensures buf.Valid()
    ensures var (r, v, rest) := IntRecord(old(buf.Contents()), need, maxNibbles);
            res == r && buf.Contents() == rest && (res != -1 ==> number == v)
  {
    hide IntRecord, IntPayload, DecTag, DecInt, Pow, Core, Flat, AllOk, Addrs, Distinct, LastData, Points;
    ValidFacts(buf);
    ghost var b := buf.Contents();
    IntRecordNone(b, need, maxNibbles);
    number := 0;
    var r, tag := DecodeTagInternal(buf, true);
    if r == -1 || need != tag {
      return -1, number;
    }
    ValidFacts(buf);
    ghost var c := buf.Contents();
    IntRecordSome(b, need, maxNibbles, r, c);
    var ok, len := DecodeInt(buf, 8);
    if !ok {
      return -1, number;
    }
    ValidFacts(buf);
    if buf.totalLen < len {
      return -1, number;
    }
    res, number := UnmarshalPayload(buf, len, maxNibbles);
  }

  /** An integer that was marshalled is unmarshalled again: evtag_marshal_int(64) followed by
      evtag_unmarshal_int(64) of the same width. */
  lemma IntRoundTrip(tag: nat, n: nat, maxNibbles: nat, rest: seq<u8>)
    requires tag < UINT32 && n < Pow(16, maxNibbles) && 1 <= maxNibbles <= 16
    ensures |Nibbles(n)| <= maxNibbles
    ensures IntRecord(EncRecord(Record(tag, EncInt(n))) + rest, tag, maxNibbles) == (|EncInt(n)|, n, rest)
  {
    NibblesCount(n, maxNibbles);
    var p := EncInt(n);
    var r := Record(tag, p);
    var b := EncRecord(r) + rest;
    DecEncRecord(r, rest);
    DecEncInt(n, rest, maxNibbles);
    hide EncInt, DecInt, DecTag, EncTag, EncRecord, Pow, Nibbles, AfterHeader;
    HeaderRecord(b);
    var (h, left) := AfterHeader(b);
    assert b[|EncRecord(r)|..] == rest;
    assert left == p + rest by {
      assert left == left[..|p|] + left[|p|..];
    }
    TagOfHeader(b);
  }

  lemma TagOfHeader(b: seq<u8>)
    requires AfterHeader(b).0.Some?
    ensures DecTag(b).Some? && DecTag(b).value.0 == AfterHeader(b).0.value.0 && DecTag(b).value.1 <= |b|
  {
    hide DecTag, DecInt;
  }
}
