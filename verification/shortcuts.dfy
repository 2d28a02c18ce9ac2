/** The cached and the grouped gate decide by a guess of the net less a slack, and admit without a look
    at the exact net. */
module Shortcuts {
  import opened Sums
  import opened Bits
  import opened CounterSpec

  // Division of the source, which drops the fraction.
  function Truncate(a: int, b: int): int
    requires b > 0
  {
    if a >= 0 then a / b else -(-a / b)
  }

  // The net guessed from one group of stripes.
  function GroupEstimate(s: seq<int>, start: nat, end: nat, offset: int): int
    requires start < end <= |s|
  {
    Truncate(Sum(s[start..end]) * |s|, end - start) - offset
  }

  lemma EmptyEstimate(s: seq<int>, start: nat, end: nat)
    requires start < end <= |s| && Sum(s[start..end]) == 0
    ensures GroupEstimate(s, start, end, 0) == 0
  {
    assert Sum(s[start..end]) * |s| == 0;
  }

  // The gate admits n on a guess.
  predicate AdmitsOn(scalar: int, guess: int, slack: int, n: int) {
    n > 0 && scalar - Abs(guess) - slack >= n
  }

  /** Admissions on a guess are never more than what is available if and only if the guess admits nothing
      at all or the slack makes up for how much the guess falls short of the net. */
  lemma GuessSoundIff(c: Counter, guess: int, slack: int)
    ensures (forall n | AdmitsOn(c.scalar, guess, slack, n) :: Admits(c, n))
      <==> !AdmitsOn(c.scalar, guess, slack, 1) || Abs(c.net) <= Abs(guess) + slack
  {
    var most := c.scalar - Abs(guess) - slack;
    if most >= 1 && Abs(c.net) > Abs(guess) + slack {
      assert AdmitsOn(c.scalar, guess, slack, most) && !Admits(c, most);
    }
  }

  // One call of the cached gate: the cached net stands still, the net does not.
  function CachedTake(c: Counter, cached: int, slack: int, n: int): Counter {
    if AdmitsOn(c.scalar, cached, slack, n) then c.(net := c.net + n) else c
  }

  // Calls between two refreshes.
  function CachedRun(c: Counter, cached: int, slack: int, ns: seq<int>): Counter {
    if |ns| == 0 then c
    else CachedTake(CachedRun(c, cached, slack, ns[..|ns| - 1]), cached, slack, ns[|ns| - 1])
  }

  lemma {:induction false} CachedRunGrows(c: Counter, cached: int, slack: int, ns: seq<int>)
    ensures var c' := CachedRun(c, cached, slack, ns);
      c'.scalar == c.scalar && c.net <= c'.net && (!AdmitsOn(c.scalar, cached, slack, 1) ==> c' == c)
  {
    if |ns| > 0 {
      CachedRunGrows(c, cached, slack, ns[..|ns| - 1]);
    }
  }

  lemma {:induction false} CachedRunAway(c: Counter, cached: int, slack: int, k: nat) returns (ns: seq<int>)
    requires AdmitsOn(c.scalar, cached, slack, 1)
    ensures CachedRun(c, cached, slack, ns) == c.(net := c.net + k)
  {
    ns := [];
    if k > 0 {
      var before := CachedRunAway(c, cached, slack, k - 1);
      ns := before + [1];
      assert ns[..|before|] == before;
    }
  }

  /** Between two refreshes, every sequence of consumes stays within the scalar if and only if the gate
      admits nothing: it has no exact check to fall back on. */
  lemma CachedSafeIff(c: Counter, cached: int, slack: int)
    requires c.net <= c.scalar
    ensures (forall ns :: CachedRun(c, cached, slack, ns).net <= c.scalar)
      <==> c.scalar - Abs(cached) - slack < 1
  {
    if AdmitsOn(c.scalar, cached, slack, 1) {
      var ns := CachedRunAway(c, cached, slack, c.scalar - c.net + 1);
      assert CachedRun(c, cached, slack, ns).net > c.scalar;
    } else {
      forall ns ensures CachedRun(c, cached, slack, ns).net <= c.scalar {
        CachedRunGrows(c, cached, slack, ns);
      }
    }
  }

  lemma CachedTakeGrows(c: Counter, cached: int, slack: int, n: int)
    ensures c.net <= CachedTake(c, cached, slack, n).net
  {
  }

  /** It does stay within the scalar up to and including the first call before which more than the slack
      has been admitted since the refresh. */
  lemma {:induction false} CachedSafeWhile(c: Counter, slack: int, ns: seq<int>)
    requires 0 <= c.net <= c.scalar && |ns| > 0
    requires CachedRun(c, c.net, slack, ns[..|ns| - 1]).net - c.net <= slack
    ensures CachedRun(c, c.net, slack, ns).net <= c.scalar
  {
    var front := ns[..|ns| - 1];
    CachedRunGrows(c, c.net, slack, front);
    if |front| > 0 {
      var before := front[..|front| - 1];
      CachedTakeGrows(CachedRun(c, c.net, slack, before), c.net, slack, front[|front| - 1]);
      CachedSafeWhile(c, slack, front);
    }
  }

  // A counter behind the grouped gate: whose turn it is, and the stripe for the next admission.
  datatype Grouped = Grouped(scalar: int, offset: int, stripes: seq<int>, turn: nat, next: nat)

  function ValueOf(g: Grouped): Counter {
    Counter(g.scalar, Sum(g.stripes) - g.offset)
  }

  // The estimate from the group whose turn it is.
  function Estimate(g: Grouped, stride: nat): int
    requires stride > 0 && |g.stripes| > 0
  {
    var start := (g.turn * stride) % |g.stripes|;
    GroupEstimate(g.stripes, start, Min(start + stride, |g.stripes|), g.offset)
  }

  // The estimate less the slack, or else the exact net, leaves room for n.
  predicate GroupedAdmits(g: Grouped, stride: nat, slack: int, n: int)
    requires stride > 0 && |g.stripes| > 0
  {
    AdmitsOn(g.scalar, Estimate(g, stride), slack, n) || Admits(ValueOf(g), n)
  }

  function GroupedTake(g: Grouped, stride: nat, slack: int, n: int): (r: Grouped)
    requires stride > 0 && |g.stripes| > 0
    ensures |r.stripes| == |g.stripes|
  {
    if n <= 0 then g
    else if !GroupedAdmits(g, stride, slack, n) then g.(turn := g.turn + 1)
    else
      var i := g.next % |g.stripes|;
      g.(turn := g.turn + 1, next := (g.next + 1) % WORD, stripes := g.stripes[i := g.stripes[i] + n])
  }

  function GroupedRun(g: Grouped, stride: nat, slack: int, ns: seq<int>): (r: Grouped)
    requires stride > 0 && |g.stripes| > 0
    ensures |r.stripes| == |g.stripes|
  {
    if |ns| == 0 then g
    else GroupedTake(GroupedRun(g, stride, slack, ns[..|ns| - 1]), stride, slack, ns[|ns| - 1])
  }

  function FreshGroups(scalar: int, stripes: nat): (g: Grouped)
    ensures |g.stripes| == stripes
  {
    Grouped(scalar, 0, seq(stripes, i => 0), 0, 0)
  }

  // q is a divided by b, with the fraction dropped.
  predicate IsQuotient(q: int, a: int, b: int) {
    Abs(q) * b <= Abs(a) < (Abs(q) + 1) * b && (q > 0 ==> a > 0) && (q < 0 ==> a < 0)
  }

  lemma QuotientIs(a: int, b: int, q: int)
    requires b > 0 && IsQuotient(q, a, b)
    ensures Truncate(a, b) == q
  {
    assert (Abs(q) + 1) * b == Abs(q) * b + b;
    RemainderUnique(Abs(a), b, Abs(q), Abs(a) - Abs(q) * b);
  }

  /** What the grouped gate admits. Of s stripes it adds up those from turn times stride modulo s, as many as
      the stride or as there are to the end, scales the sum up to all stripes, dropping the fraction, and
      takes off what was committed; n is admitted if that and the slack, or else the exact net, leave room. */
  lemma EstimateAdmits(g: Grouped, stride: nat, slack: int, n: int, q: int)
    requires stride > 0 && |g.stripes| > 0
    requires var s := |g.stripes|;
      var start := (g.turn * stride) % s;
      var width := if stride <= s - start then stride else s - start;
      IsQuotient(q, Sum(g.stripes[start..start + width]) * s, width)
    ensures GroupedAdmits(g, stride, slack, n) <==>
      && n > 0
      && (n <= g.scalar - slack - Abs(q - g.offset) || n <= g.scalar - Abs(Sum(g.stripes) - g.offset))
  {
    hide Sum, Truncate, IsQuotient;
    var s := |g.stripes|;
    var start := (g.turn * stride) % s;
    var width := if stride <= s - start then stride else s - start;
    QuotientIs(Sum(g.stripes[start..start + width]) * s, width, q);
    assert Min(start + stride, s) == start + width;
  }

  lemma {:induction false} SumOfSame(s: seq<int>, x: int)
    requires forall i :: 0 <= i < |s| ==> s[i] == x
    ensures Sum(s) == x * |s|
  {
    if |s| > 0 {
      SumOfSame(s[..|s| - 1], x);
      assert x * |s| == x * (|s| - 1) + x;
    }
  }

  lemma ScaledUp(x: int, width: nat, s: nat)
    requires width > 0
    ensures IsQuotient(x * s, x * width * s, width)
  {
    assert x * width * s == x * s * width;
    var y := x * s;
    assert Abs(y * width) == Abs(y) * width;
    assert (Abs(y) + 1) * width == Abs(y) * width + width;
  }

  /** With the same load on every stripe the estimate is the net, whatever the turn, and with any slack
      that is not negative the grouped gate is the exact one. */
  lemma EvenLoadExact(g: Grouped, stride: nat, slack: int, n: int, x: int)
    requires stride > 0 && |g.stripes| > 0 && slack >= 0
    requires forall i :: 0 <= i < |g.stripes| ==> g.stripes[i] == x
    ensures GroupedAdmits(g, stride, slack, n) <==> n > 0 && n <= g.scalar - Abs(x * |g.stripes| - g.offset)
  {
    hide Sum, IsQuotient, GroupedAdmits;
    var s := |g.stripes|;
    var start := (g.turn * stride) % s;
    var width := if stride <= s - start then stride else s - start;
    SumOfSame(g.stripes[start..start + width], x);
    SumOfSame(g.stripes, x);
    ScaledUp(x, width, s);
    EstimateAdmits(g, stride, slack, n, x * s);
  }

  /** With a slack of at least the scalar the estimate admits nothing, and the gate is the exact one. */
  lemma SlackMakesExact(g: Grouped, stride: nat, slack: int, n: int)
    requires stride > 0 && |g.stripes| > 0 && g.scalar <= slack
    ensures GroupedAdmits(g, stride, slack, n) <==> Admits(ValueOf(g), n)
    ensures ValueOf(GroupedTake(g, stride, slack, n)) == AfterConsume(ValueOf(g), n)
  {
    hide Estimate, Sum;
    var i := g.next % |g.stripes|;
    SumUpdateAll(g.stripes, i, g.stripes[i] + n);
  }

  // All load on the first stripe, and the turn of the second group: its estimate is 0.
  lemma SecondGroupUnseen(g: Grouped, stride: nat)
    requires 0 < stride < |g.stripes| && g.turn == 1 && g.offset == 0
    requires forall i :: 1 <= i < |g.stripes| ==> g.stripes[i] == 0
    ensures Estimate(g, stride) == 0
  {
    hide Sum, GroupEstimate;
    var end := Min(stride + stride, |g.stripes|);
    assert (1 * stride) % |g.stripes| == stride by { SmallRemainder(stride, |g.stripes|); }
    SumOfZeros(g.stripes[stride..end]);
    EmptyEstimate(g.stripes, stride, end);
  }

  // The whole scalar taken at once, which lands on the first stripe.
  lemma TakeAll(stripes: nat, stride: nat, slack: int, scalar: int)
    requires 0 < stride < stripes && scalar > 0
    ensures var g := GroupedTake(FreshGroups(scalar, stripes), stride, slack, scalar);
      && g.scalar == scalar && g.offset == 0 && g.turn == 1 && g.next == 1
      && g.stripes == FreshGroups(scalar, stripes).stripes[0 := scalar] && ValueOf(g).net == scalar
  {
    hide Estimate, Sum;
    var g := FreshGroups(scalar, stripes);
    SumOfZeros(g.stripes);
    SumUpdateAll(g.stripes, 0, scalar);
    SmallRemainder(0, stripes);
    assert Admits(ValueOf(g), scalar);
  }

  lemma FirstGroupUnseen(g: Grouped, stride: nat)
    requires 0 < stride < |g.stripes| && g.turn == 0 && g.offset == 0
    requires forall i :: 0 <= i < |g.stripes| ==> g.stripes[i] == 0
    ensures Estimate(g, stride) == 0
  {
    hide Sum, GroupEstimate;
    assert (0 * stride) % |g.stripes| == 0 by { SmallRemainder(0, |g.stripes|); }
    SumOfZeros(g.stripes[0..stride]);
    EmptyEstimate(g.stripes, 0, stride);
  }

  // What a fresh counter can be brought to when the slack is below the scalar.
  lemma OneTooMany(stripes: nat, stride: nat, slack: int, scalar: int) returns (ns: seq<int>)
    requires 0 < stride < stripes && 0 <= scalar && slack < scalar
    ensures ValueOf(GroupedRun(FreshGroups(scalar, stripes), stride, slack, ns)) == Counter(scalar, scalar + 1)
    ensures ns == if scalar == 0 then [1] else [scalar, 1]
  {
    hide Estimate, Sum;
    var g := FreshGroups(scalar, stripes);
    assert [1][..0] == [] && [scalar, 1][..1] == [scalar] && [scalar][..0] == [];
    if scalar == 0 {
      ns := [1];
      SumOfZeros(g.stripes);
      FirstGroupUnseen(g, stride);
      SmallRemainder(0, stripes);
      SumUpdateAll(g.stripes, 0, 1);
    } else {
      ns := [scalar, 1];
      TakeAll(stripes, stride, slack, scalar);
      var g1 := GroupedTake(g, stride, slack, scalar);
      SecondGroupUnseen(g1, stride);
      SmallRemainder(1, stripes);
      SumUpdateAll(g1.stripes, 1, 1);
      assert GroupedRun(g, stride, slack, [scalar]) == g1;
    }
  }

  lemma {:induction false} GroupedRunExact(g: Grouped, stride: nat, slack: int, ns: seq<int>)
    requires stride > 0 && |g.stripes| > 0 && g.scalar <= slack && 0 <= ValueOf(g).net <= g.scalar
    ensures var v := ValueOf(GroupedRun(g, stride, slack, ns)); v.scalar == g.scalar && 0 <= v.net <= v.scalar
  {
    hide Estimate, Sum, GroupedTake;
    if |ns| > 0 {
      GroupedRunExact(g, stride, slack, ns[..|ns| - 1]);
      SlackMakesExact(GroupedRun(g, stride, slack, ns[..|ns| - 1]), stride, slack, ns[|ns| - 1]);
    }
  }

  /** The grouped gate is safe if and only if the slack is at least the scalar: then every sequence of
      consumes from a fresh counter stays within the scalar, and otherwise taking all of it and asking
      for one more does not. */
  lemma GroupedSafeIff(stripes: nat, stride: nat, slack: int, scalar: int)
    requires 0 < stride < stripes && 0 <= scalar
    ensures (forall ns :: ValueOf(GroupedRun(FreshGroups(scalar, stripes), stride, slack, ns)).net <= scalar)
      <==> scalar <= slack
  {
    hide GroupedRun, Sum;
    if scalar <= slack {
      SumOfZeros(FreshGroups(scalar, stripes).stripes);
      forall ns ensures ValueOf(GroupedRun(FreshGroups(scalar, stripes), stride, slack, ns)).net <= scalar {
        GroupedRunExact(FreshGroups(scalar, stripes), stride, slack, ns);
      }
    } else {
      var ns := OneTooMany(stripes, stride, slack, scalar);
      assert ValueOf(GroupedRun(FreshGroups(scalar, stripes), stride, slack, ns)).net > scalar;
    }
  }

  /** The same for single decisions: in every state of a counter of this scalar the gate admits only what
      is available, if and only if the slack is at least the scalar. */
  lemma GroupedExactIff(stripes: nat, stride: nat, slack: int, scalar: int)
    requires 0 < stride < stripes && 0 <= scalar
    ensures (forall g: Grouped, n | g.scalar == scalar && |g.stripes| == stripes && GroupedAdmits(g, stride, slack, n) ::
              Admits(ValueOf(g), n))
      <==> scalar <= slack
  {
    hide GroupedTake, Sum, Estimate;
    if scalar <= slack {
      forall g: Grouped, n | g.scalar == scalar && |g.stripes| == stripes && GroupedAdmits(g, stride, slack, n)
        ensures Admits(ValueOf(g), n)
      {
        SlackMakesExact(g, stride, slack, n);
      }
    } else {
      var zeros := FreshGroups(scalar, stripes).stripes;
      var g := Grouped(scalar, 0, zeros[0 := scalar], 1, 0);
      SumOfZeros(zeros);
      SumUpdateAll(zeros, 0, scalar);
      SecondGroupUnseen(g, stride);
      assert GroupedAdmits(g, stride, slack, 1) && !Admits(ValueOf(g), 1);
    }
  }
}
