/** Stripes cut into groups of a fixed stride: the last groups may be short or empty. */
module Groups {
  import opened Sums

  // The stride that lets g groups cover n stripes.
  function Stride(n: nat, g: nat): nat
    requires g > 0
  {
    (n + g - 1) / g
  }

  // Groups of this stride reach the last of n stripes.
  predicate Covers(n: nat, stride: nat, groups: nat) {
    n <= groups * stride
  }

  function Low(n: nat, stride: nat, g: nat): nat {
    Min(g * stride, n)
  }

  function Total(s: seq<int>, stride: nat, g: nat): int {
    assert g * stride <= (g + 1) * stride;
    Sum(s[Low(|s|, stride, g)..Low(|s|, stride, g + 1)])
  }

  function Totals(s: seq<int>, stride: nat, groups: nat): (r: seq<int>)
    ensures |r| == groups
  {
    seq(groups, g requires 0 <= g < groups => Total(s, stride, g))
  }

  lemma StrideCovers(n: nat, g: nat)
    requires 0 < g
    ensures Covers(n, Stride(n, g), g)
    ensures n > 0 ==> 0 < Stride(n, g)
  {
    var x := n + g - 1;
    assert x == g * (x / g) + x % g;
  }

  lemma Multiples(a: nat, b: nat, stride: nat)
    requires a <= b
    ensures a * stride <= b * stride
  {
  }

  /** The stride is the least one that covers. */
  lemma StrideLeast(n: nat, g: nat, stride: nat)
    requires 0 < g
    ensures Stride(n, g) <= stride <==> n <= g * stride
  {
    var x := n + g - 1;
    var q := x / g;
    assert x == g * q + x % g;
    if q <= stride {
      Multiples(q, stride, g);
      assert g * q == q * g && g * stride == stride * g;
    } else {
      Multiples(stride + 1, q, g);
      assert (stride + 1) * g == g * stride + g;
      assert q * g == g * q;
    }
  }

  lemma DivisionBounds(i: nat, d: nat)
    requires d > 0
    ensures (i / d) * d <= i < (i / d + 1) * d
  {
    assert i == d * (i / d) + i % d;
  }

  /** The group of a stripe exists, and it alone holds that stripe. */
  lemma IndexInGroup(n: nat, stride: nat, groups: nat, i: nat)
    requires stride > 0 && i < n <= groups * stride
    ensures i / stride < groups
    ensures Low(n, stride, i / stride) <= i < Low(n, stride, i / stride + 1)
  {
    DivisionBounds(i, stride);
    if i / stride >= groups {
      Multiples(groups, i / stride, stride);
    }
  }

  lemma LowOrder(n: nat, stride: nat, a: nat, b: nat)
    requires a <= b
    ensures Low(n, stride, a) <= Low(n, stride, b)
  {
    Multiples(a, b, stride);
  }

  lemma SliceUpdate(s: seq<int>, lo: nat, hi: nat, i: nat, x: int)
    requires lo <= hi <= |s| && i < |s|
    ensures Sum(s[i := x][lo..hi]) == Sum(s[lo..hi]) + (if lo <= i < hi then x - s[i] else 0)
  {
    if lo <= i < hi {
      assert s[i := x][lo..hi] == s[lo..hi][i - lo := x];
      SumUpdateAll(s[lo..hi], i - lo, x);
    } else {
      assert s[i := x][lo..hi] == s[lo..hi];
    }
  }

  lemma OtherGroup(n: nat, stride: nat, g: nat, i: nat)
    requires stride > 0 && i < n && g != i / stride
    ensures !(Low(n, stride, g) <= i < Low(n, stride, g + 1))
  {
    DivisionBounds(i, stride);
    if g < i / stride {
      Multiples(g + 1, i / stride, stride);
    } else {
      Multiples(i / stride + 1, g, stride);
    }
  }

  // A change at stripe i moves the total of its own group and no other.
  lemma UpdateTotal(s: seq<int>, stride: nat, groups: nat, g: nat, i: nat, x: int)
    requires stride > 0 && i < |s| <= groups * stride
    ensures Total(s[i := x], stride, g) == Total(s, stride, g) + (if g == i / stride then x - s[i] else 0)
  {
    LowOrder(|s|, stride, g, g + 1);
    SliceUpdate(s, Low(|s|, stride, g), Low(|s|, stride, g + 1), i, x);
    if g == i / stride {
      IndexInGroup(|s|, stride, groups, i);
    } else {
      OtherGroup(|s|, stride, g, i);
    }
  }

  lemma UpdateTotals(s: seq<int>, stride: nat, groups: nat, i: nat, x: int)
    requires stride > 0 && i < |s| <= groups * stride
    ensures i / stride < groups
    ensures Totals(s[i := x], stride, groups)
      == Totals(s, stride, groups)[i / stride := Total(s, stride, i / stride) + x - s[i]]
  {
    IndexInGroup(|s|, stride, groups, i);
    forall g | 0 <= g < groups
      ensures Total(s[i := x], stride, g) == Total(s, stride, g) + (if g == i / stride then x - s[i] else 0)
    {
      UpdateTotal(s, stride, groups, g, i, x);
    }
  }

  lemma AddTotals(s: seq<int>, stride: nat, groups: nat, i: nat, d: int)
    requires stride > 0 && i < |s| && Covers(|s|, stride, groups)
    ensures i / stride < groups
    ensures Totals(s[i := s[i] + d], stride, groups)
      == Totals(s, stride, groups)[i / stride := Totals(s, stride, groups)[i / stride] + d]
  {
    UpdateTotals(s, stride, groups, i, s[i] + d);
  }

  /** Summing the groups is summing the stripes. */
  lemma {:induction false} GroupsCover(s: seq<int>, stride: nat, groups: nat)
    ensures Sum(Totals(s, stride, groups)) == Sum(s[..Low(|s|, stride, groups)])
  {
    if groups == 0 {
      assert s[..0] == [];
    } else {
      var lo, hi := Low(|s|, stride, groups - 1), Low(|s|, stride, groups);
      GroupsCover(s, stride, groups - 1);
      LowOrder(|s|, stride, groups - 1, groups);
      assert Totals(s, stride, groups)[..groups - 1] == Totals(s, stride, groups - 1);
      assert s[..hi] == s[..lo] + s[lo..hi];
      SumConcat(s[..lo], s[lo..hi]);
    }
  }

  lemma HierarchyAgrees(s: seq<int>, stride: nat, groups: nat)
    requires Covers(|s|, stride, groups)
    ensures Sum(Totals(s, stride, groups)) == Sum(s)
  {
    GroupsCover(s, stride, groups);
    assert s[..|s|] == s;
  }

  lemma {:induction false} SumOfZeroTotals(s: seq<int>, stride: nat, groups: nat)
    requires forall i :: 0 <= i < |s| ==> s[i] == 0
    ensures forall g :: 0 <= g < groups ==> Totals(s, stride, groups)[g] == 0
  {
    forall g | 0 <= g < groups ensures Total(s, stride, g) == 0 {
      LowOrder(|s|, stride, g, g + 1);
      SumOfZeros(s[Low(|s|, stride, g)..Low(|s|, stride, g + 1)]);
    }
  }
}
