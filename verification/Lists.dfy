/** Lists of distinct elements, and lists of such lists. */
module Lists {
  predicate NoDuplicates(s: seq<nat>) {
    forall i, j {:trigger s[i], s[j]} :: 0 <= i < j < |s| ==> s[i] != s[j]
  }

  /** s without x. */
  function Drop(s: seq<nat>, x: nat): seq<nat> {
    if |s| == 0 then [] else if s[0] == x then s[1..] else [s[0]] + Drop(s[1..], x)
  }

  function Lengths(qs: seq<seq<nat>>): nat {
    if |qs| == 0 then 0 else |qs[0]| + Lengths(qs[1..])
  }

  lemma {:induction false} DropFacts(s: seq<nat>, x: nat)
    requires NoDuplicates(s)
    ensures NoDuplicates(Drop(s, x))
    ensures forall y :: y in Drop(s, x) <==> y in s && y != x
    ensures x in s ==> |Drop(s, x)| == |s| - 1
    ensures x !in s ==> Drop(s, x) == s
  {
    if |s| > 0 {
      var t := s[1..];
      FirstApart(s);
      hide NoDuplicates;
      assert s == [s[0]] + t;
      DropFacts(t, x);
      if s[0] != x {
        ConsDistinct(s[0], Drop(t, x));
      }
    }
  }

  lemma FirstApart(s: seq<nat>)
    requires NoDuplicates(s) && |s| > 0
    ensures NoDuplicates(s[1..]) && s[0] !in s[1..]
    ensures forall y :: y in s <==> y == s[0] || y in s[1..]
  {
    var t := s[1..];
    assert forall i {:trigger t[i]} :: 0 <= i < |t| ==> t[i] == s[i + 1];
    assert s == [s[0]] + t;
  }

  lemma ConsDistinct(x: nat, t: seq<nat>)
    requires NoDuplicates(t) && x !in t
    ensures NoDuplicates([x] + t) && forall y :: y in [x] + t <==> y == x || y in t
  {
  }

  lemma AppendOne(s: seq<nat>, x: nat)
    requires NoDuplicates(s) && x !in s
    ensures NoDuplicates(s + [x]) && forall y :: y in s + [x] <==> y in s || y == x
  {
  }

  lemma {:induction false} LengthsUpdate(qs: seq<seq<nat>>, p: nat, q: seq<nat>)
    requires p < |qs|
    ensures Lengths(qs[p := q]) + |qs[p]| == Lengths(qs) + |q|
  {
    var f := qs[p := q];
    if p == 0 {
      assert f[1..] == qs[1..];
    } else {
      LengthsUpdate(qs[1..], p - 1, q);
      assert f[1..] == qs[1..][p - 1 := q];
    }
  }

  lemma {:induction false} NoLengths(qs: seq<seq<nat>>)
    requires forall p {:trigger qs[p]} :: 0 <= p < |qs| ==> qs[p] == []
    ensures Lengths(qs) == 0
  {
    if |qs| > 0 {
      assert forall p {:trigger qs[1..][p]} :: 0 <= p < |qs| - 1 ==> qs[1..][p] == qs[p + 1];
      NoLengths(qs[1..]);
    }
  }

  lemma {:induction false} AllEmpty(qs: seq<seq<nat>>)
    requires Lengths(qs) == 0
    ensures forall p {:trigger qs[p]} :: 0 <= p < |qs| ==> qs[p] == []
  {
    if |qs| > 0 {
      AllEmpty(qs[1..]);
      assert forall p {:trigger qs[p]} :: 0 < p < |qs| ==> qs[p] == qs[1..][p - 1];
    }
  }

  /** An element of a list without duplicates is in it once. */
  lemma {:induction false} Once(s: seq<nat>, x: nat)
    requires NoDuplicates(s)
    ensures multiset(s)[x] == if x in s then 1 else 0
  {
    if |s| > 0 {
      var t := s[1..];
      assert forall i {:trigger t[i]} :: 0 <= i < |t| ==> t[i] == s[i + 1];
      assert s == [s[0]] + t;
      assert s[0] !in t;
      Once(t, x);
    }
  }
}
