/** The striped counter itself: stripes, optional group sums, an approximate net and a committed
    offset, all updated in place, represent one scalar and one net. Calls run one at a time here;
    GateMachine has the interleaved form. */
module Vsa {
  import opened Sums
  import opened Bits
  import opened CounterSpec
  import opened Shortcuts
  import Groups

  datatype Options = Options(
    stripes: int,
    useCachedGate: bool,
    cacheSlack: int,
    groupCount: int,
    groupSlack: int,
    fastPathGuard: int,
    hierarchicalGroups: int)

  lemma Powers()
    ensures Pow2(2) == 4 && Pow2(3) == 8 && Pow2(4) == 16 && Pow2(5) == 32 && Pow2(6) == 64 && Pow2(7) == 128
    ensures PowerOfTwo(8) && PowerOfTwo(16) && PowerOfTwo(32) && PowerOfTwo(64)
  {
    assert Pow2(2) == 4;
    assert Pow2(4) == 16;
    assert Pow2(6) == 64;
    hide PowerOfTwo;
    PowIsPowerOfTwo(3);
    PowIsPowerOfTwo(4);
    PowIsPowerOfTwo(5);
    PowIsPowerOfTwo(6);
  }

  lemma ExponentBetween(k: nat)
    requires 8 <= Pow2(k) <= 64
    ensures 3 <= k <= 6
  {
    hide Pow2;
    Powers();
    if k <= 2 {
      PowMonotone(k, 2);
    } else if k >= 7 {
      PowMonotone(7, k);
    }
  }

  lemma SmallPower(s: int)
    requires PowerOfTwo(s) && 8 <= s <= 64
    ensures s == 8 || s == 16 || s == 32 || s == 64
  {
    var k := Digits(s) - 1;
    hide Pow2, Digits;
    ExponentBetween(k);
    Powers();
  }

  /** As many as asked for, or as there are processors, rounded up to 8, 16, 32 or 64. */
  method StripeCount(requested: int, procs: int) returns (s: int)
    ensures PowerOfTwo(s) && (s == 8 || s == 16 || s == 32 || s == 64)
    ensures var want := if requested > 0 then requested else procs;
      (want <= s || s == 64) && (s < 2 * want || s == 8)
  {
    hide PowerOfTwo, Pow2;
    Powers();
    PowMonotone(6, 62);
    s := NextPow2(Max(8, Min(64, if requested > 0 then requested else procs)));
    SmallPower(s);
  }

  class VSA {
    var scalar: int
    var committedOffset: int
    const stripes: array<int>
    const mask: nat
    var chooser: nat
    var rr: nat
    var approxNet: int
    var cachedNet: int
    const useCachedGate: bool
    const cacheSlack: int
    const fastPathGuard: int
    const groupCount: nat
    const groupStride: nat
    var groupRR: nat
    const hGroups: nat
    const hStride: nat
    const hGroupSum: array<int>

    ghost function Net(): int
      reads this, stripes
    {
      Sum(stripes[..]) - committedOffset
    }

    ghost predicate Valid()
      reads this, stripes, hGroupSum
    {
      && stripes != hGroupSum
      && 8 <= stripes.Length <= 64 && PowerOfTwo(stripes.Length) && mask == stripes.Length - 1
      && (groupCount > 1 ==> groupStride > 0)
      && hGroupSum.Length == hGroups
      && (hGroups > 0 ==>
            && hStride > 0 && Groups.Covers(stripes.Length, hStride, hGroups)
            && hGroupSum[..] == Groups.Totals(stripes[..], hStride, hGroups))
      && approxNet == Net()
    }

    ghost function Value(): Counter
      reads this, stripes
    {
      Counter(scalar, Net())
    }

    /** procs is the number of processors, which decides when no number of stripes is asked for. */
    constructor (initialScalar: int, opts: Options, procs: int)
      ensures Valid() && fresh(stripes) && fresh(hGroupSum)
      ensures Value() == Counter(initialScalar, 0) && cachedNet == 0 && committedOffset == 0
      ensures forall i :: 0 <= i < stripes.Length ==> stripes[i] == 0
      ensures var (s, want) := (stripes.Length, if opts.stripes > 0 then opts.stripes else procs);
        && (s == 8 || s == 16 || s == 32 || s == 64)
        && (want <= s || s == 64) && (s < 2 * want || s == 8)
      ensures useCachedGate == opts.useCachedGate
      ensures fastPathGuard == Max(opts.fastPathGuard, 0)
      ensures cacheSlack ==
        (if opts.useCachedGate then opts.cacheSlack else 0) + (if opts.groupCount > 1 then opts.groupSlack else 0)
      ensures groupCount == if opts.groupCount > 1 then Min(opts.groupCount, stripes.Length) else 0
      ensures hGroups == if opts.hierarchicalGroups > 1 then Min(opts.hierarchicalGroups, stripes.Length) else 0
      ensures chooser == rr == groupRR == 0
      ensures groupStride == (if groupCount > 0 then Groups.Stride(stripes.Length, groupCount) else 0)
      ensures hStride == (if hGroups > 0 then Groups.Stride(stripes.Length, hGroups) else 0)
    {
      hide PowerOfTwo, Groups.Totals, Groups.Covers, Groups.Stride, Sum;
      var s := StripeCount(opts.stripes, procs);
      stripes := new int[s](i => 0);
      mask := s - 1;
      scalar, committedOffset, approxNet, cachedNet := initialScalar, 0, 0, 0;
      chooser, rr, groupRR := 0, 0, 0;
      useCachedGate := opts.useCachedGate;
      fastPathGuard := Max(opts.fastPathGuard, 0);
      var slack := if opts.useCachedGate then opts.cacheSlack else 0;
      if opts.groupCount > 1 {
        groupCount := Min(opts.groupCount, s);
        groupStride := Groups.Stride(s, Min(opts.groupCount, s));
        slack := slack + opts.groupSlack;
        Groups.StrideCovers(s, Min(opts.groupCount, s));
      } else {
        groupCount, groupStride := 0, 0;
      }
      cacheSlack := slack;
      if opts.hierarchicalGroups > 1 {
        hGroups := Min(opts.hierarchicalGroups, s);
        hStride := Groups.Stride(s, Min(opts.hierarchicalGroups, s));
        hGroupSum := new int[Min(opts.hierarchicalGroups, s)](i => 0);
        Groups.StrideCovers(s, Min(opts.hierarchicalGroups, s));
      } else {
        hGroups, hStride := 0, 0;
        hGroupSum := new int[0];
      }
      new;
      SumOfZeros(stripes[..]);
      Groups.SumOfZeroTotals(stripes[..], hStride, hGroups);
    }

    // One atomic add on a stripe, on its group when there are groups, and on the approximate net.
    method Add(idx: nat, d: int)
      requires Valid() && idx < stripes.Length
      modifies this`approxNet, stripes, hGroupSum
      ensures Valid()
      ensures Net() == old(Net()) + d
      ensures stripes[..] == old(stripes[..])[idx := old(stripes[idx]) + d]
    {
      hide Sum, Groups.Totals, Groups.Covers, PowerOfTwo;
      ghost var (before, sums) := (stripes[..], hGroupSum[..]);
      SumUpdateAll(before, idx, before[idx] + d);
      if hGroups > 0 {
        Groups.AddTotals(before, hStride, hGroups, idx, d);
      }
      stripes[idx] := stripes[idx] + d;
      assert stripes[..] == before[idx := before[idx] + d];
      if hGroups > 0 {
        var g := idx / hStride;
        hGroupSum[g] := hGroupSum[g] + d;
        assert hGroupSum[..] == sums[g := sums[g] + d];
      }
      approxNet := approxNet + d;
    }

    lemma Shape()
      requires Valid()
      ensures 8 <= stripes.Length && mask == stripes.Length - 1
    {
    }

    // The counter as the grouped gate sees it.
    ghost function Group(): Grouped
      reads this, stripes
    {
      Grouped(scalar, committedOffset, stripes[..], groupRR, rr)
    }

    lemma GroupValue()
      ensures ValueOf(Group()) == Value()
    {
    }

    lemma MaskInRange(x: nat)
      requires Valid()
      ensures stripes.Length > 0 && BitAnd(x, mask) == x % stripes.Length < stripes.Length
    {
      hide BitAnd, PowerOfTwo, Sum, Groups.Totals;
      MaskBelow(x, stripes.Length);
    }

    /** choice is what the configured stripe chooser came up with. */
    method Update(value: int, choice: nat)
      requires Valid()
      modifies this`approxNet, stripes, hGroupSum
      ensures Valid()
      ensures Value() == Counter(old(scalar), old(Net()) + value)
      ensures stripes.Length > 0
      ensures var i := choice % stripes.Length;
        stripes[..] == old(stripes[..])[i := old(stripes[i]) + value]
    {
      MaskInRange(choice);
      Add(BitAnd(choice, mask), value);
    }

    method CurrentVector() returns (net: int)
      requires Valid()
      ensures net == Net() == approxNet
    {
      var sum := 0;
      if hGroups > 0 {
        for i := 0 to hGroups
          invariant sum == Sum(hGroupSum[..i])
        {
          SumPrefixStep(hGroupSum[..], i);
          assert hGroupSum[..][..i] == hGroupSum[..i] && hGroupSum[..][..i + 1] == hGroupSum[..i + 1];
          sum := sum + hGroupSum[i];
        }
        assert hGroupSum[..hGroups] == hGroupSum[..];
        Groups.HierarchyAgrees(stripes[..], hStride, hGroups);
      } else {
        for i := 0 to stripes.Length
          invariant sum == Sum(stripes[..i])
        {
          SumPrefixStep(stripes[..], i);
          assert stripes[..][..i] == stripes[..i] && stripes[..][..i + 1] == stripes[..i + 1];
          sum := sum + stripes[i];
        }
        assert stripes[..stripes.Length] == stripes[..];
      }
      net := sum - committedOffset;
    }

    method Available() returns (avail: int)
      requires Valid()
      ensures avail == CounterSpec.Available(Value())
    {
      var net := CurrentVector();
      avail := scalar - Abs(net);
    }

    method CheckCommit(threshold: int) returns (due: bool, vector: int)
      requires Valid()
      ensures due <==> Abs(Net()) >= threshold
      ensures vector == if due then Net() else 0
    {
      var net := CurrentVector();
      if Abs(net) >= threshold {
        return true, net;
      }
      return false, 0;
    }

    /** The argument may be stale: the net is read again and bounds what is moved. */
    method Commit(committedVector: int)
      requires Valid()
      modifies this`scalar, this`committedOffset, this`approxNet
      ensures Valid()
      ensures Value() == AfterCommit(old(Value()), committedVector)
    {
      if committedVector == 0 {
        return;
      }
      var net := CurrentVector();
      if net == 0 {
        return;
      }
      var mag := Abs(committedVector);
      if mag > Abs(net) {
        mag := Abs(net);
      }
      var delta := if net > 0 then mag else -mag;
      scalar := scalar - Abs(delta);
      committedOffset := committedOffset + delta;
      approxNet := approxNet - delta;
    }

    // The gate reads the whole net, with no cached or grouped shortcut in front.
    predicate ExactGate() {
      !useCachedGate && groupCount <= 1
    }

    // Reserve n units on the next stripe in turn.
    method Reserve(n: int)
      requires Valid()
      modifies this`rr, this`approxNet, stripes, hGroupSum
      ensures Valid() && stripes.Length > 0
      ensures Net() == old(Net()) + n && rr == (old(rr) + 1) % WORD
      ensures var i := old(rr) % stripes.Length;
        stripes[..] == old(stripes[..])[i := old(stripes[i]) + n]
    {
      hide BitAnd, PowerOfTwo, Sum, Groups.Totals;
      MaskInRange(rr);
      var idx := BitAnd(rr, mask);
      rr := (rr + 1) % WORD;
      Add(idx, n);
    }

    method PartialSum(start: nat, end: nat) returns (partial: int)
      requires start <= end <= stripes.Length
      ensures partial == Sum(stripes[..][start..end])
    {
      partial := 0;
      for i := start to end
        invariant partial == Sum(stripes[start..i])
      {
        SumAppend(stripes[start..i], stripes[i]);
        assert stripes[start..i + 1] == stripes[start..i] + [stripes[i]];
        partial := partial + stripes[i];
      }
      assert stripes[start..end] == stripes[..][start..end];
    }

    ghost predicate GateAdmits(n: int)
      requires Valid() && groupCount > 1
      reads this, stripes, hGroupSum
    {
      GroupedAdmits(Group(), groupStride, cacheSlack, n)
    }

    // The grouped gate: an estimate from one group, and the exact check when the estimate denies.
    method GroupedGate(n: int) returns (ok: bool)
      requires Valid() && groupCount > 1 && n > 0
      modifies this`groupRR
      ensures Valid() && Group() == old(Group()).(turn := old(groupRR) + 1)
      ensures ok <==> old(GateAdmits(n))
    {
      var start := (groupRR * groupStride) % stripes.Length;
      groupRR := groupRR + 1;
      var end := start + groupStride;
      if end > stripes.Length {
        end := stripes.Length;
      }
      var partial := PartialSum(start, end);
      var est := Truncate(partial * stripes.Length, end - start);
      var avail := scalar - Abs(est - committedOffset) - cacheSlack;
      if avail < n {
        var net := CurrentVector();
        avail := scalar - Abs(net);
      }
      ok := avail >= n;
    }

    // The lock-free path: admits if it is on and the approximate net keeps its distance from the limit.
    method FastPath(n: int) returns (ok: bool)
      requires Valid() && n > 0
      modifies this`chooser, this`approxNet, stripes, hGroupSum
      ensures Valid() && stripes.Length > 0
      ensures ok <==> fastPathGuard > 0 && n + fastPathGuard <= scalar - old(Abs(Net()))
      ensures Net() == old(Net()) + (if ok then n else 0)
      ensures !ok ==> Group() == old(Group()) && chooser == old(chooser)
      ensures ok ==> var i := chooser % stripes.Length;
        chooser == (old(chooser) + 1) % WORD && stripes[..] == old(stripes[..])[i := old(stripes[i]) + n]
    {
      hide Sum, PowerOfTwo, BitAnd, Groups.Totals, Groups.Covers;
      MaskInRange(0);
      if fastPathGuard > 0 {
        if scalar - Abs(approxNet) >= n + fastPathGuard {
          chooser := (chooser + 1) % WORD;
          MaskInRange(chooser);
          Add(BitAnd(chooser, mask), n);
          return true;
        }
      }
      return false;
    }

    // The path under the mutex: the gate that is configured, and a reservation if it admits.
    method SlowPath(n: int) returns (ok: bool)
      requires Valid() && n > 0
      modifies this`rr, this`groupRR, this`approxNet, stripes, hGroupSum
      ensures Valid() && stripes.Length > 0
      ensures useCachedGate ==> (ok <==> n <= scalar - Abs(cachedNet) - cacheSlack)
      ensures !useCachedGate && groupCount > 1 ==> (ok <==> old(GateAdmits(n)))
      ensures ExactGate() ==> (ok <==> n <= scalar - old(Abs(Net())))
      ensures groupRR == old(groupRR) + (if !useCachedGate && groupCount > 1 then 1 else 0)
      ensures Net() == old(Net()) + (if ok then n else 0)
      ensures !ok ==> stripes[..] == old(stripes[..]) && rr == old(rr)
      ensures ok ==> var i := old(rr) % stripes.Length;
        rr == (old(rr) + 1) % WORD && stripes[..] == old(stripes[..])[i := old(stripes[i]) + n]
    {
      hide Sum, PowerOfTwo, BitAnd, Groups.Totals, Groups.Covers, Estimate, GateAdmits;
      MaskInRange(0);
      if useCachedGate {
        var avail := scalar - Abs(cachedNet) - cacheSlack;
        if avail < n {
          return false;
        }
      } else if groupCount > 1 {
        var admits := GroupedGate(n);
        if !admits {
          return false;
        }
      } else {
        var net := CurrentVector();
        if scalar - Abs(net) < n {
          return false;
        }
      }
      Reserve(n);
      return true;
    }

    /** With the exact gate this is the limiter's check-and-take; a grouped denial is always exact; the
        cached gate decides by the cached net alone once the lock-free path has passed. */
    method TryConsume(n: int) returns (ok: bool)
      requires Valid()
      modifies this`chooser, this`rr, this`groupRR, this`approxNet, stripes, hGroupSum
      ensures Valid() && stripes.Length > 0
      ensures Value() == Counter(old(scalar), old(Net()) + (if ok then n else 0))
      ensures ExactGate() ==> ok == Admits(old(Value()), n) && Value() == AfterConsume(old(Value()), n)
      ensures !useCachedGate && !ok ==> !Admits(old(Value()), n)
      ensures var fast := fastPathGuard > 0 && n + fastPathGuard <= scalar - old(Abs(Net()));
        && (ok <==>
              && n > 0
              && (fast || if useCachedGate then n <= scalar - Abs(cachedNet) - cacheSlack
                          else if groupCount > 1 then old(GateAdmits(n))
                          else n <= scalar - old(Abs(Net()))))
        && (ok && fast ==> var i := (old(chooser) + 1) % WORD % stripes.Length;
              rr == old(rr) && stripes[..] == old(stripes[..])[i := old(stripes[i]) + n])
        && (ok && !fast ==> var i := old(rr) % stripes.Length;
              rr == (old(rr) + 1) % WORD && stripes[..] == old(stripes[..])[i := old(stripes[i]) + n])
      ensures !ok ==> stripes[..] == old(stripes[..]) && rr == old(rr)
      ensures !useCachedGate && groupCount > 1 && fastPathGuard == 0 ==>
        groupStride > 0 && Group() == GroupedTake(old(Group()), groupStride, cacheSlack, n)
      ensures useCachedGate && fastPathGuard == 0 ==> Value() == CachedTake(old(Value()), cachedNet, cacheSlack, n)
    {
      hide Sum, PowerOfTwo, Groups.Totals, Groups.Covers, Estimate, BitAnd;
      MaskInRange(0);
      if n <= 0 {
        return false;
      }
      ok := FastPath(n);
      if !ok {
        ok := SlowPath(n);
      }
    }

    method TryRefund(n: int) returns (ok: bool)
      requires Valid()
      modifies this`rr, this`approxNet, stripes, hGroupSum
      ensures Valid()
      ensures Value() == AfterRefund(old(Value()), n)
      ensures scalar == old(scalar)
      ensures old(Net()) - Net() == if n > 0 && old(Net()) > 0 then Min(n, old(Net())) else 0
      ensures ok <==> n > 0 && old(Net()) > 0
    {
      if n <= 0 {
        return false;
      }
      var net := CurrentVector();
      if net <= 0 {
        return false;
      }
      Reserve(-Min(n, net));
      return true;
    }

    // One tick of the background refresh of the cached net.
    method RefreshCache()
      requires Valid()
      modifies this`cachedNet
      ensures Valid() && Value() == old(Value()) && cachedNet == Net()
    {
      cachedNet := CurrentVector();
    }
  }

  lemma ProductAtLeast(a: nat, b: nat)
    requires a >= 1 && b >= 1
    ensures a * b >= 1
  {
  }

  lemma Expand(a: int, b: int)
    ensures (a + 1) * (b + 1) == a * b + a + b + 1
  {
  }

  lemma QuotientBelow(a: nat, b: nat, c: nat)
    requires b > 0 && a < b * c
    ensures a / b < c
  {
  }

  lemma LastStripeUnseen(stripes: nat, groups: nat)
    requires stripes >= 2 && groups > 1
    ensures Groups.Stride(stripes, groups) < stripes
  {
    ProductAtLeast(groups - 1, stripes - 1);
    Expand(groups - 1, stripes - 1);
    QuotientBelow(stripes + groups - 1, groups, stripes);
  }

  lemma TwoTakes(g: Grouped, stride: nat, slack: int, n: int, n': int)
    requires stride > 0 && |g.stripes| > 0
    ensures GroupedRun(g, stride, slack, [n, n']) == GroupedTake(GroupedTake(g, stride, slack, n), stride, slack, n')
  {
    hide GroupedTake;
    assert [n, n'][..1] == [n] && [n][..0] == [];
    assert GroupedRun(g, stride, slack, [n]) == GroupedTake(g, stride, slack, n);
  }

  /** A slack below the scalar is not enough for the grouped gate: a new counter that is asked for all of
      its scalar and then for one more unit admits both. */
  method GroupedOverAdmits(stripes: int, procs: int, groups: int, slack: int, scalar: int)
    returns (v: VSA, first: bool, second: bool)
    requires groups > 1 && slack < scalar && 0 < scalar
    ensures fresh(v) && v.Valid() && v.groupCount > 1 && v.cacheSlack == slack && v.scalar == scalar
    ensures first && second && CounterSpec.Available(v.Value()) == -1
  {
    hide VSA.Valid, VSA.GateAdmits, VSA.Net, PowerOfTwo, Groups.Stride, GroupedTake, GroupedRun;
    v := new VSA(scalar, Options(stripes, false, 0, groups, slack, 0, 0), procs);
    v.Shape();
    LastStripeUnseen(v.stripes.Length, v.groupCount);
    ghost var g := v.Group();
    assert g == FreshGroups(scalar, v.stripes.Length);
    v.GroupValue();
    first := v.TryConsume(scalar);
    v.GroupValue();
    second := v.TryConsume(1);
    v.GroupValue();
    ghost var ns := OneTooMany(v.stripes.Length, v.groupStride, slack, scalar);
    TwoTakes(g, v.groupStride, slack, scalar, 1);
    TakeAll(v.stripes.Length, v.groupStride, slack, scalar);
  }
}
