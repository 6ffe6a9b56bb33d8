/** Any run of operations on two buffers means the same run on two byte sequences. */
module EvbufferRuns {
  import opened Bytes
  import opened Chunks
  import opened Evbuffers
  import opened EvbufferFill
  import opened EvbufferMove
  import opened EvbufferReserve

  /** An operation on the first buffer, on both, or an exchange of their roles. */
  datatype Op =
    | Add(src: seq<u8>)
    | Prepend(src: seq<u8>)
    | Drain(n: nat)
    | Remove(n: nat)
    | Pullup(size: int)
    | ExpandOne(n: nat)
    | ExpandMany(n: nat, vecs: nat)
    | Fill(room: nat, vectors: int, src: seq<u8>)
    | AddAll
    | PrependAll
    | Move(n: nat)
    | Exchange

  /** The bytes in the two buffers, and the bytes removed so far. */
  datatype Bytes2 = Bytes2(x: seq<u8>, y: seq<u8>, taken: seq<u8>)

  /** What an operation makes of the bytes, one that is not allowed being left out; done tells whether room was
      reserved and committed. */
  function After(s: Bytes2, op: Op, done: bool): Bytes2 {
    if !Allowed(s, op) then s else
    match op
    case Fill(_, _, src) => if done then s.(x := s.x + src) else s
    case Add(src) => if |s.x| + |src| <= SIZE_MAX then s.(x := s.x + src) else s
    case Prepend(src) => if |src| == 0 || |s.x| + |src| <= SIZE_MAX then s.(x := src + s.x) else s
    case Drain(n) => s.(x := s.x[Min(n, |s.x|)..])
    case Remove(n) => s.(x := s.x[Min(n, |s.x|)..], taken := s.taken + s.x[..Min(n, |s.x|)])
    case AddAll => s.(x := s.x + s.y, y := [])
    case PrependAll => s.(x := s.y + s.x, y := [])
    case Move(n) => s.(x := s.x[Min(n, |s.x|)..], y := s.y + s.x[..Min(n, |s.x|)])
    case Exchange => Bytes2(s.y, s.x, s.taken)
    case _ => s
  }

  function AfterAll(s: Bytes2, ops: seq<Op>, done: seq<bool>): Bytes2
    requires |done| == |ops|
  {
    if |ops| == 0 then s else
      var k := |ops| - 1;
      After(AfterAll(s, ops[..k], done[..k]), ops[k], done[k])
  }

  // ---------------------------------------------------------------- what an operation does

  /** The step from s to t that an operation makes, told by where each byte of s is in t. */
  predicate Does(s: Bytes2, op: Op, done: bool, t: Bytes2) {
    var same := t.y == s.y && t.taken == s.taken;
    match op
    case Add(src) => same && t.x == s.x + if |s.x| + |src| <= SIZE_MAX then src else []
    case Prepend(src) => same && t.x == (if |s.x| + |src| <= SIZE_MAX then src else []) + s.x
    case Drain(n) => same && |t.x| == (if n < |s.x| then |s.x| - n else 0) && s.x[|s.x| - |t.x|..] == t.x
    case Remove(n) =>
      && t.y == s.y && |s.taken| <= |t.taken| == |s.taken| + (if n < |s.x| then n else |s.x|)
      && s.taken + s.x == t.taken + t.x
    case Pullup(_) => same && t.x == s.x
    case ExpandOne(_) => same && t.x == s.x
    case ExpandMany(_, _) => same && t.x == s.x
    case Fill(room, _, src) => same && t.x == s.x + if done && |src| <= room then src else []
    case AddAll => t.x == s.x + s.y && t.y == [] && t.taken == s.taken
    case PrependAll => t.x == s.y + s.x && t.y == [] && t.taken == s.taken
    case Move(n) =>
      && |t.y| == |s.y| + (if |s.x| + |s.y| > SIZE_MAX then 0 else if n < |s.x| then n else |s.x|)
      && s.y + s.x == t.y + t.x && t.taken == s.taken
    case Exchange => t.x == s.y && t.y == s.x && t.taken == s.taken
  }

  /** From s to t by one step for every operation of the run. */
  ghost predicate Steps(s: Bytes2, ops: seq<Op>, done: seq<bool>, t: Bytes2)
    requires |done| == |ops|
    decreases |ops|
  {
    if |ops| == 0 then t == s else
      var k := |ops| - 1;
      exists mid :: Steps(s, ops[..k], done[..k], mid) && Does(mid, ops[k], done[k], t)
  }

  lemma AfterDoes(s: Bytes2, op: Op, done: bool)
    ensures Does(s, op, done, After(s, op, done))
  {
    hide After, Does;
    match op
    case Remove(n) => RemoveDoes(s, n, done);
    case Move(n) => MoveDoes(s, n, done);
    case Drain(n) => DrainDoes(s, n, done);
    case Add(src) => AddDoes(s, src, done);
    case Prepend(src) => PrependDoes(s, src, done);
    case Fill(room, vectors, src) => FillDoes(s, room, vectors, src, done);
    case _ => ElseDoes(s, op, done);
  }

  lemma DrainDoes(s: Bytes2, n: nat, done: bool)
    ensures Does(s, Drain(n), done, After(s, Drain(n), done))
  {
  }

  lemma AddDoes(s: Bytes2, src: seq<u8>, done: bool)
    ensures Does(s, Add(src), done, After(s, Add(src), done))
  {
    Nothing(s.x);
  }

  lemma PrependDoes(s: Bytes2, src: seq<u8>, done: bool)
    ensures Does(s, Prepend(src), done, After(s, Prepend(src), done))
  {
    Nothing(s.x);
  }

  lemma FillDoes(s: Bytes2, room: nat, vectors: int, src: seq<u8>, done: bool)
    ensures Does(s, Fill(room, vectors, src), done, After(s, Fill(room, vectors, src), done))
  {
    Nothing(s.x);
  }

  lemma ElseDoes(s: Bytes2, op: Op, done: bool)
    requires op.Pullup? || op.ExpandOne? || op.ExpandMany? || op.AddAll? || op.PrependAll? || op.Exchange?
    ensures Does(s, op, done, After(s, op, done))
  {
  }

  lemma RemoveDoes(s: Bytes2, n: nat, done: bool)
    ensures Does(s, Remove(n), done, After(s, Remove(n), done))
  {
    Cut(s.taken, s.x, Min(n, |s.x|));
  }

  lemma MoveDoes(s: Bytes2, n: nat, done: bool)
    ensures Does(s, Move(n), done, After(s, Move(n), done))
  {
    Cut(s.y, s.x, Min(n, |s.x|));
  }

  lemma Nothing(x: seq<u8>)
    ensures x + [] == x && [] + x == x
  {
  }

  lemma Cut(a: seq<u8>, x: seq<u8>, k: nat)
    requires k <= |x|
    ensures a + x == a + x[..k] + x[k..]
  {
    assert x == x[..k] + x[k..];
  }

  lemma {:induction false} AfterSteps(s: Bytes2, ops: seq<Op>, done: seq<bool>)
    requires |done| == |ops|
    ensures Steps(s, ops, done, AfterAll(s, ops, done))
    decreases |ops|
  {
    hide After, Does;
    if |ops| > 0 {
      var k := |ops| - 1;
      AfterSteps(s, ops[..k], done[..k]);
      AfterDoes(AfterAll(s, ops[..k], done[..k]), ops[k], done[k]);
    }
  }

  /** Only one vector, or the reservation of nothing, can fail. */
  predicate Expected(op: Op, done: bool) {
    !done ==> op.Fill? && (op.vectors <= 1 || op.room == 0)
  }

  predicate AllExpected(ops: seq<Op>, done: seq<bool>) {
    |done| == |ops| && forall i {:trigger ops[i]} {:trigger done[i]} :: 0 <= i < |ops| ==> Expected(ops[i], done[i])
  }

  /** Moves stay within what a size_t can count, there is room for two vectors or more, and what is written fits
      what was reserved. */
  predicate Permitted(x: nat, y: nat, op: Op) {
    && (op.Move? ==> x + y <= SIZE_MAX)
    && (op.ExpandMany? ==> op.vecs >= 2)
    && (op.Fill? ==> |op.src| <= op.room)
  }

  predicate Allowed(s: Bytes2, op: Op) {
    Permitted(|s.x|, |s.y|, op)
  }

  ghost predicate Pair(a: Evbuffer, b: Evbuffer, s: Bytes2)
    reads a, b
  {
    && a != b && a.Valid() && b.Valid() && Addrs(a.chain) !! Addrs(b.chain)
    && a.Contents() == s.x && b.Contents() == s.y
  }

  /** What changes the bytes of a. */
  method PerformBytes(a: Evbuffer, b: Evbuffer, op: Op, ghost s: Bytes2) returns (out: seq<u8>)
    requires Pair(a, b, s) && (op.Add? || op.Prepend? || op.Drain? || op.Remove?)
    modifies a
    ensures Pair(a, b, After(s, op, true)) && After(s, op, true).taken == s.taken + out
  {
    hide Core, Flat, AllOk, Addrs, Distinct, LastData, Points;
    ValidFacts(a);
    AddrsAllocated(b.chain);
    out := [];
    assert s.taken + out == s.taken;
    match op {
      case Add(src) => var _ := a.Add(src);
      case Prepend(src) => var _ := a.Prepend(src);
      case Drain(n) => a.Drain(n);
      case Remove(n) =>
        var k, bytes := a.Remove(n);
        out := bytes;
    }
  }

  /** What arranges the chunks of a anew, or writes into their free room. */
  method PerformRoom(a: Evbuffer, b: Evbuffer, op: Op, ghost s: Bytes2) returns (done: bool)
    requires Pair(a, b, s) && Allowed(s, op) && (op.Pullup? || op.ExpandOne? || op.ExpandMany? || op.Fill?)
    modifies a
    ensures Pair(a, b, After(s, op, done)) && After(s, op, done).taken == s.taken && Expected(op, done)
    ensures op.Fill? ==> done == old(Fillable(a.chain, a.lwd, op.room, op.vectors))
  {
    hide Core, Flat, AllOk, Addrs, Distinct, LastData, Points;
    ValidFacts(a);
    AddrsAllocated(b.chain);
    done := true;
    match op {
      case Pullup(size) => var _ := a.Pullup(size);
      case ExpandOne(n) => var _ := ExpandSinglechain(a, n);
      case ExpandMany(n, vecs) => ExpandFast(a, n, vecs);
      case Fill(room, vectors, src) => done := AppendInPlace(a, room, vectors, src);
    }
  }

  /** What moves bytes between a and b. */
  method PerformMove(a: Evbuffer, b: Evbuffer, op: Op, ghost s: Bytes2)
    requires Pair(a, b, s) && Allowed(s, op) && (op.AddAll? || op.PrependAll? || op.Move?)
    modifies a, b
    ensures Pair(a, b, After(s, op, true)) && After(s, op, true).taken == s.taken
  {
    hide Core, Flat, AllOk, Addrs, Distinct, LastData, Points;
    ValidFacts(a);
    ValidFacts(b);
    match op {
      case AddAll => AddBuffer(a, b);
      case PrependAll => PrependBuffer(a, b);
      case Move(n) => var _ := RemoveBuffer(a, b, n);
    }
  }

  /** One operation on a, or with b. */
  method Perform(a: Evbuffer, b: Evbuffer, op: Op, ghost s: Bytes2) returns (out: seq<u8>, done: bool)
    requires Pair(a, b, s) && Allowed(s, op) && !op.Exchange?
    modifies a, b
    ensures Pair(a, b, After(s, op, done)) && After(s, op, done).taken == s.taken + out && Expected(op, done)
  {
    hide Pair, After, Allowed;
    out, done := [], true;
    assert s.taken + [] == s.taken;
    if op.Add? || op.Prepend? || op.Drain? || op.Remove? {
      out := PerformBytes(a, b, op, s);
    } else if op.AddAll? || op.PrependAll? || op.Move? {
      PerformMove(a, b, op, s);
    } else {
      done := PerformRoom(a, b, op, s);
    }
  }

  /** After any run both buffers are sound, share no chunk and hold the bytes the run means; a commit was refused
      only for a reservation in one vector, or of nothing. */
  method Run(a: Evbuffer, b: Evbuffer, ops: seq<Op>, ghost s: Bytes2)
      returns (first: Evbuffer, second: Evbuffer, taken: seq<u8>, done: seq<bool>)
    requires Pair(a, b, s) && s.taken == []
    modifies a, b
    ensures {first, second} == {a, b} && AllExpected(ops, done)
    ensures Pair(first, second, AfterAll(s, ops, done)) && taken == AfterAll(s, ops, done).taken
    ensures Steps(s, ops, done, Bytes2(first.Contents(), second.Contents(), taken))
  {
    hide Pair, After, Allowed, Expected, Steps;
    first, second, taken, done := a, b, [], [];
    var i := 0;
    while i < |ops|
      invariant 0 <= i <= |ops| && {first, second} == {a, b} && AllExpected(ops[..i], done)
      invariant Pair(first, second, AfterAll(s, ops[..i], done)) && taken == AfterAll(s, ops[..i], done).taken
    {
      ghost var now, was := AfterAll(s, ops[..i], done), done;
      var ok := true;
      var may := Permitted(first.totalLen, second.totalLen, ops[i]);
      PairLengths(first, second, now);
      NotAllowed(now, ops[i]);
      if ops[i].Exchange? {
        Exchanged(first, second, now);
        first, second := second, first;
      } else if may {
        var out;
        out, ok := Perform(first, second, ops[i], now);
        taken := taken + out;
      }
      done := done + [ok];
      OneMore(s, ops, was, ok);
      i := i + 1;
    }
    assert ops[..i] == ops;
    AfterSteps(s, ops, done);
    PairBytes(first, second, AfterAll(s, ops, done));
  }

  lemma PairBytes(a: Evbuffer, b: Evbuffer, s: Bytes2)
    requires Pair(a, b, s)
    ensures Bytes2(a.Contents(), b.Contents(), s.taken) == s
  {
  }

  lemma PairLengths(a: Evbuffer, b: Evbuffer, s: Bytes2)
    requires Pair(a, b, s)
    ensures a.totalLen == |s.x| && b.totalLen == |s.y|
  {
  }

  lemma NotAllowed(s: Bytes2, op: Op)
    ensures Allowed(s, op) == Permitted(|s.x|, |s.y|, op)
    ensures !Allowed(s, op) ==> After(s, op, true) == s && Expected(op, true)
  {
  }

  lemma OneMore(s: Bytes2, ops: seq<Op>, done: seq<bool>, ok: bool)
    requires |done| < |ops| && AllExpected(ops[..|done|], done) && Expected(ops[|done|], ok)
    ensures AllExpected(ops[..|done| + 1], done + [ok])
    ensures AfterAll(s, ops[..|done| + 1], done + [ok]) == After(AfterAll(s, ops[..|done|], done), ops[|done|], ok)
  {
    var k := |done|;
    assert ops[..k + 1][..k] == ops[..k] && (done + [ok])[..k] == done;
    assert forall i {:trigger ops[..k + 1][i]} :: 0 <= i < k ==> ops[..k + 1][i] == ops[..k][i];
  }

  lemma Exchanged(a: Evbuffer, b: Evbuffer, s: Bytes2)
    requires Pair(a, b, s)
    ensures Pair(b, a, After(s, Exchange, true)) && After(s, Exchange, true).taken == s.taken && Expected(Exchange, true)
  {
  }

  function Total(s: Bytes2): nat {
    |s.x| + |s.y| + |s.taken|
  }

  /** Nothing but adding brings bytes in, and nothing but draining loses any. */
  predicate Moving(op: Op) {
    !op.Add? && !op.Prepend? && !op.Drain? && !op.Fill?
  }

  ghost function Held(s: Bytes2): multiset<u8> {
    multiset(s.x) + multiset(s.y) + multiset(s.taken)
  }

  lemma MovedOnly(s: Bytes2, op: Op, done: bool)
    requires Moving(op)
    ensures Total(After(s, op, done)) == Total(s) && Held(After(s, op, done)) == Held(s)
  {
    if op.Remove? || op.Move? {
      Parted(s.x, Min(op.n, |s.x|));
    }
  }

  lemma Parted(x: seq<u8>, k: nat)
    requires k <= |x|
    ensures multiset(x) == multiset(x[..k]) + multiset(x[k..])
  {
    assert x == x[..k] + x[k..];
  }

  lemma {:induction false} Conserved(s: Bytes2, ops: seq<Op>, done: seq<bool>)
    requires |done| == |ops| && forall i {:trigger ops[i]} :: 0 <= i < |ops| ==> Moving(ops[i])
    ensures Total(AfterAll(s, ops, done)) == Total(s) && Held(AfterAll(s, ops, done)) == Held(s)
  {
    if |ops| > 0 {
      hide Total, Held, After, Moving;
      var k := |ops| - 1;
      Conserved(s, ops[..k], done[..k]);
      MovedOnly(AfterAll(s, ops[..k], done[..k]), ops[k], done[k]);
    }
  }
}
