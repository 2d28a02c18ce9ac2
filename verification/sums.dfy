/** Sums over sequences of integers, the arithmetic every counter proof rests on. */
module Sums {

  function Abs(x: int): int {
    if x < 0 then -x else x
  }

  function Min(x: int, y: int): int {
    if x < y then x else y
  }

  function Max(x: int, y: int): int {
    if x < y then y else x
  }

  function Sum(s: seq<int>): int {
    if |s| == 0 then 0 else Sum(s[..|s| - 1]) + s[|s| - 1]
  }

  lemma NoSum()
    ensures Sum([]) == 0
  {
  }

  lemma {:induction false} SumAppend(s: seq<int>, x: int)
    ensures Sum(s + [x]) == Sum(s) + x
  {
    assert (s + [x])[..|s|] == s;
  }

  lemma {:induction false} SumConcat(s: seq<int>, t: seq<int>)
    ensures Sum(s + t) == Sum(s) + Sum(t)
  {
    if |t| == 0 {
      assert s + t == s;
    } else {
      var front := t[..|t| - 1];
      assert (s + t)[..|s + t| - 1] == s + front;
      SumConcat(s, front);
    }
  }

  lemma SumPrefixStep(s: seq<int>, k: nat)
    requires k < |s|
    ensures Sum(s[..k + 1]) == Sum(s[..k]) + s[k]
  {
    assert s[..k + 1][..k] == s[..k];
  }

  // Changing one element moves the sum of every prefix that contains it, and no other.
  lemma {:induction false} SumUpdate(s: seq<int>, i: nat, x: int, k: nat)
    requires i < |s| && k <= |s|
    ensures Sum(s[i := x][..k]) == Sum(s[..k]) + (if i < k then x - s[i] else 0)
  {
    if k > 0 {
      SumUpdate(s, i, x, k - 1);
      SumPrefixStep(s, k - 1);
      SumPrefixStep(s[i := x], k - 1);
    }
  }

  lemma SumUpdateAll(s: seq<int>, i: nat, x: int)
    requires i < |s|
    ensures Sum(s[i := x]) == Sum(s) + x - s[i]
  {
    SumUpdate(s, i, x, |s|);
    assert s[..|s|] == s && s[i := x][..|s|] == s[i := x];
  }

  lemma {:induction false} SumOfZeros(s: seq<int>)
    requires forall i :: 0 <= i < |s| ==> s[i] == 0
    ensures Sum(s) == 0
  {
    if |s| > 0 {
      SumOfZeros(s[..|s| - 1]);
    }
  }

  lemma {:induction false} SumNonNegative(s: seq<int>)
    requires forall i :: 0 <= i < |s| ==> 0 <= s[i]
    ensures 0 <= Sum(s)
  {
    if |s| > 0 {
      SumNonNegative(s[..|s| - 1]);
    }
  }

  function CountNonZero(s: seq<int>): nat {
    if |s| == 0 then 0
    else CountNonZero(s[..|s| - 1]) + (if s[|s| - 1] == 0 then 0 else 1)
  }

  // A sum of terms of at most m is at most m for every nonzero term.
  lemma {:induction false} SumBoundedByCount(s: seq<int>, m: nat)
    requires forall i :: 0 <= i < |s| ==> s[i] <= m
    ensures Sum(s) <= CountNonZero(s) * m
  {
    if |s| > 0 {
      SumBoundedByCount(s[..|s| - 1], m);
    }
  }

  // Distinct positions that hold zero lower the count.
  lemma {:induction false} ZerosLowerCount(s: seq<int>, zeros: set<nat>)
    requires forall i :: i in zeros ==> i < |s| && s[i] == 0
    ensures CountNonZero(s) + |zeros| <= |s|
  {
    if |s| == 0 {
      assert zeros == {};
    } else {
      var last := |s| - 1;
      var front := s[..last];
      if last in zeros {
        ZerosLowerCount(front, zeros - {last});
      } else {
        ZerosLowerCount(front, zeros);
      }
    }
  }

  lemma MulMonotone(a: int, b: int, m: nat)
    requires a <= b
    ensures a * m <= b * m
  {
  }

  // The form the proofs use: with the given positions idle, the rest carry at most m each.
  lemma SumBound(s: seq<int>, m: nat, zeros: set<nat>)
    requires forall i :: 0 <= i < |s| ==> s[i] <= m
    requires forall i :: i in zeros ==> i < |s| && s[i] == 0
    ensures Sum(s) <= (|s| - |zeros|) * m
  {
    SumBoundedByCount(s, m);
    ZerosLowerCount(s, zeros);
    MulMonotone(CountNonZero(s), |s| - |zeros|, m);
  }
}
