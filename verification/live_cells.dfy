/** When the probes of a sharded accumulator end, in terms a caller can count: the distinct cells filed
    since the last flush that share a shard. */
module LiveCells {
  import opened Bits
  import opened Packing
  import opened Envelopes
  import opened Tables
  import opened Accumulation
  import Probing
  import ShardRuns

  function FreshShards(p: nat, order: nat): (s: Shards)
    requires p > 0
    ensures |s| == p && AllShaped(s) && forall j :: 0 <= j < p ==> |s[j]| == Pow2(order)
  {
    seq(p, j => ShardRuns.Vacant(order))
  }

  lemma {:induction false} NothingHeld(s: Shards)
    requires forall j :: 0 <= j < |s| ==> forall i :: 0 <= i < |s[j]| ==> s[j][i].id == 0
    ensures EmitAll(s) == []
  {
    if |s| > 0 {
      NothingHeld(s[..|s| - 1]);
      ShardRuns.VacantEmits(s[|s| - 1]);
    }
  }

  lemma FreshSound(p: nat, order: nat, cells: set<Cell>)
    requires p > 0
    ensures Sound(FreshShards(p, order), cells) && EmitAll(FreshShards(p, order)) == []
  {
    hide Pow2, PowerOfTwo, Index;
    NothingHeld(FreshShards(p, order));
  }

  function CellsOf(bs: seq<SBatch>): set<Cell> {
    set b | b in bs :: CellOf(b)
  }

  // Of these cells, those that go to shard j of n.
  function RoutedCells(cells: set<Cell>, n: nat, j: nat): set<Cell>
    requires n > 0
  {
    set c | c in cells && Pack(c.0, c.1) % n == j
  }

  // How many distinct cells the shard of b holds once b is filed after bs.
  function Crowd(n: nat, bs: seq<SBatch>, b: SBatch): nat
    requires n > 0
  {
    |RoutedCells(CellsOf(bs + [b]), n, IdOf(b) % n)|
  }

  function HeldCells(t: Table): set<Cell> {
    set i | 0 <= i < |t| && t[i].id != 0 :: (t[i].keyId, t[i].bucketId)
  }

  lemma {:induction false} HeldSize(t: Table, cells: set<Cell>)
    requires Tidy(t, cells) && Probing.NoDuplicates(Ids(t), 0)
    ensures |HeldCells(t)| == Occupied(t)
  {
    hide Pack;
    if |t| > 0 {
      var front, last := t[..|t| - 1], t[|t| - 1];
      var c := CellOf(BatchOf(last));
      EntryOfLast(t, cells, c);
      HeldSize(front, cells);
      if last.id != 0 {
        assert HeldCells(t) == HeldCells(front) + {c};
        assert c !in HeldCells(front);
      } else {
        assert HeldCells(t) == HeldCells(front);
      }
    }
  }

  // An id is in the table exactly when its cell is.
  lemma HeldIds(t: Table, cells: set<Cell>, b: SBatch)
    requires Tidy(t, cells) && Separated(cells) && CellOf(b) in cells
    ensures IdOf(b) in Ids(t) <==> CellOf(b) in HeldCells(t)
  {
    hide Pack;
    var c := CellOf(b);
    assert IdOf(b) == Pack(c.0, c.1);
    if IdOf(b) in Ids(t) {
      var i :| 0 <= i < |t| && Ids(t)[i] == IdOf(b);
      assert (t[i].keyId, t[i].bucketId) == c;
    }
    if c in HeldCells(t) {
      var i :| 0 <= i < |t| && t[i].id != 0 && (t[i].keyId, t[i].bucketId) == c;
      assert Ids(t)[i] == IdOf(b);
    }
  }

  lemma HasEntryIsHeld(t: Table, c: Cell)
    ensures HasEntry(t, c) <==> c in HeldCells(t)
  {
  }

  // Filed into empty shards, the cells a shard holds are those of the batches routed to it.
  lemma HoldsRouted(p: nat, order: nat, cells: set<Cell>, bs: seq<SBatch>, j: nat)
    requires j < p && Separated(cells) && Within(bs, cells) && Files(FreshShards(p, order), bs)
    ensures HeldCells(IngestedAll(FreshShards(p, order), bs)[j]) == RoutedCells(CellsOf(bs), p, j)
  {
    hide Pack, Files, Canonical, Tidy, RoutedHere, EmitAll, FreshShards;
    var s := FreshShards(p, order);
    FreshSound(p, order, cells);
    var s' := IngestedAll(s, bs);
    forall c ensures c in HeldCells(s'[j]) <==> c in RoutedCells(CellsOf(bs), p, j) {
      FlushAllCoalesces(s, cells, bs, c);
      OnlyShard(s', cells, p, c);
      CountIsPresence(bs, c);
      HasEntryIsHeld(s'[j], c);
      if c in HeldCells(s'[j]) {
        EntryRouted(s'[j], cells, p, j, c);
      }
    }
  }

  lemma OneMoreRouted(bs: seq<SBatch>, b: SBatch, n: nat)
    requires n > 0
    ensures var j := IdOf(b) % n;
      RoutedCells(CellsOf(bs + [b]), n, j) == RoutedCells(CellsOf(bs), n, j) + {CellOf(b)}
  {
    hide Pack;
    assert CellsOf(bs + [b]) == CellsOf(bs) + {CellOf(b)};
    assert IdOf(b) == Pack(CellOf(b).0, CellOf(b).1);
  }

  lemma {:induction false} SlotsKept(p: nat, order: nat, bs: seq<SBatch>, j: nat)
    requires j < p
    ensures |IngestedAll(FreshShards(p, order), bs)[j]| == Pow2(order)
  {
    hide Finds, Pow2;
    if |bs| > 0 {
      SlotsKept(p, order, bs[..|bs| - 1], j);
    }
  }

  /** The exact condition: after any batches since the shards were empty, the next probe ends if and only
      if the distinct cells routed to its shard, its own included, are no more than the shard has slots. */
  lemma AcceptsIffFits(p: nat, order: nat, cells: set<Cell>, bs: seq<SBatch>, b: SBatch)
    requires p > 0 && Separated(cells) && Within(bs, cells) && CellOf(b) in cells
    requires Files(FreshShards(p, order), bs)
    ensures Accepts(IngestedAll(FreshShards(p, order), bs), b) <==> Crowd(p, bs, b) <= Pow2(order)
  {
    hide Pack, Files, Canonical, Tidy, FreshShards, IngestedAll, RoutedCells, CellsOf, Accepts, IdOf, Ids,
      HeldCells, Occupied, Separated, Pow2;
    var s' := IngestedAll(FreshShards(p, order), bs);
    var j := Routed(s', b);
    var t := s'[j];
    FreshSound(p, order, cells);
    FlushAllCoalesces(FreshShards(p, order), cells, bs, CellOf(b));
    HoldsRouted(p, order, cells, bs, j);
    CanonicalDistinct(t);
    HeldSize(t, cells);
    HeldIds(t, cells, b);
    OneMoreRouted(bs, b, p);
    AcceptsIffRoom(s', b);
    FullIffOccupied(t);
    SlotsKept(p, order, bs, j);
  }

  lemma CrowdBound(p: nat, cells: set<Cell>, bs: seq<SBatch>, b: SBatch)
    requires p > 0 && Within(bs, cells) && CellOf(b) in cells
    ensures IdOf(b) % p < p && Crowd(p, bs, b) <= |RoutedCells(cells, p, IdOf(b) % p)|
  {
    hide Pack;
    var j := IdOf(b) % p;
    Probing.SubsetSize(RoutedCells(CellsOf(bs + [b]), p, j), RoutedCells(cells, p, j));
  }

  /** Filing a sequence of batches goes through if and only if at each of them the cells of its shard fit;
      so it always does when no shard is the one of more cells than it has slots. */
  lemma {:induction false} FilesIff(p: nat, order: nat, cells: set<Cell>, bs: seq<SBatch>)
    requires p > 0 && Separated(cells) && Within(bs, cells)
    ensures Files(FreshShards(p, order), bs) <==> forall i :: 0 <= i < |bs| ==> Crowd(p, bs[..i], bs[i]) <= Pow2(order)
    ensures (forall j :: 0 <= j < p ==> |RoutedCells(cells, p, j)| <= Pow2(order)) ==> Files(FreshShards(p, order), bs)
  {
    hide Pow2, Crowd, FreshShards, Separated, Accepts, IngestedAll, RoutedCells;
    var s := FreshShards(p, order);
    if |bs| > 0 {
      var front, b := bs[..|bs| - 1], bs[|bs| - 1];
      FilesIff(p, order, cells, front);
      forall i | 0 <= i < |front| ensures front[..i] == bs[..i] && front[i] == bs[i] {
      }
      if Files(s, bs) {
        FilesPrefix(s, bs);
      }
      if Files(s, front) {
        AcceptsIffFits(p, order, cells, front, b);
        CrowdBound(p, cells, front, b);
      }
    }
  }

  // A flush leaves the shards as they were at the beginning.
  lemma FlushedIsFresh(p: nat, order: nat, cells: set<Cell>, s: Shards)
    requires |s| == p > 0 && Sound(s, cells) && forall j :: 0 <= j < p ==> |s[j]| == Pow2(order)
    ensures Flushed(s) == FreshShards(p, order)
  {
    hide Pow2, PowerOfTwo, Pack, Canonical, RoutedHere;
    forall j | 0 <= j < p ensures Flushed(s)[j] == FreshShards(p, order)[j] {
      assert Kept(s[j], {}, true) == ShardRuns.Vacant(order);
    }
  }

  lemma FilesMore(s: Shards, bs: seq<SBatch>, b: SBatch)
    requires AllShaped(s) && Files(s, bs) && Accepts(IngestedAll(s, bs), b)
    ensures Files(s, bs + [b])
    ensures IngestedAll(s, bs + [b]) ==
      if Finds(IngestedAll(s, bs), b) then Accumulation.Ingested(IngestedAll(s, bs), b) else IngestedAll(s, bs)
  {
    hide Accepts, Finds, Accumulation.Ingested;
    assert (bs + [b])[..|bs|] == bs;
    forall i | 0 <= i < |bs| ensures (bs + [b])[..i] == bs[..i] && (bs + [b])[i] == bs[i] {
    }
  }

  lemma OneIngested(s: Shards, b: SBatch)
    requires AllShaped(s)
    ensures IngestedAll(s, [b]) == if Finds(s, b) then Accumulation.Ingested(s, b) else s
  {
    hide Finds, Accumulation.Ingested;
    assert [b][..0] == [];
  }

  lemma {:induction false} IngestedConcat(s: Shards, a: seq<SBatch>, b: seq<SBatch>)
    requires AllShaped(s)
    ensures IngestedAll(s, a + b) == IngestedAll(IngestedAll(s, a), b)
  {
    hide Finds, Accumulation.Ingested, AllShaped;
    if |b| == 0 {
      assert a + b == a;
    } else {
      IngestedConcat(s, a, b[..|b| - 1]);
      assert (a + b)[..|a + b| - 1] == a + b[..|b| - 1];
    }
  }

  /** Filing two sequences one after the other goes through exactly when both do in turn. */
  lemma FilesSplit(s: Shards, a: seq<SBatch>, b: seq<SBatch>)
    requires AllShaped(s)
    ensures Files(s, a + b) <==> Files(s, a) && Files(IngestedAll(s, a), b)
    ensures IngestedAll(s, a + b) == IngestedAll(IngestedAll(s, a), b)
  {
    hide Accepts, IngestedAll, AllShaped;
    IngestedConcat(s, a, b);
    forall i | 0 <= i < |a| ensures (a + b)[..i] == a[..i] && (a + b)[i] == a[i] {
    }
    forall i | 0 <= i < |b|
      ensures IngestedAll(s, (a + b)[..|a| + i]) == IngestedAll(IngestedAll(s, a), b[..i]) && (a + b)[|a| + i] == b[i]
    {
      assert (a + b)[..|a| + i] == a + b[..i];
      IngestedConcat(s, a, b[..i]);
    }
    if Files(s, a + b) {
      forall i | 0 <= i < |b| ensures Accepts(IngestedAll(IngestedAll(s, a), b[..i]), b[i]) {
        assert Accepts(IngestedAll(s, (a + b)[..|a| + i]), (a + b)[|a| + i]);
      }
    }
    if Files(s, a) && Files(IngestedAll(s, a), b) {
      forall i | 0 <= i < |a + b| ensures Accepts(IngestedAll(s, (a + b)[..i]), (a + b)[i]) {
        if i >= |a| {
          assert Accepts(IngestedAll(IngestedAll(s, a), b[..i - |a|]), b[i - |a|]);
        }
      }
    }
  }

  lemma FlushResets(p: nat, order: nat, cells: set<Cell>, bs: seq<SBatch>)
    requires p > 0 && Separated(cells) && Within(bs, cells) && Files(FreshShards(p, order), bs)
    ensures Flushed(IngestedAll(FreshShards(p, order), bs)) == FreshShards(p, order)
  {
    hide Pow2, Flushed, Sound, FreshShards, Files, Separated, Within, EmitAll;
    FreshSound(p, order, cells);
    FlushAllCoalesces(FreshShards(p, order), cells, bs, (0, 0));
    var s := IngestedAll(FreshShards(p, order), bs);
    forall j | 0 <= j < p ensures |s[j]| == Pow2(order) {
      SlotsKept(p, order, bs, j);
    }
    FlushedIsFresh(p, order, cells, s);
  }

  // With room for the cells of every shard, whatever is live, more of these cells can be filed.
  lemma MoreFit(p: nat, order: nat, cells: set<Cell>, live: seq<SBatch>, more: seq<SBatch>)
    requires p > 0 && Separated(cells) && Within(live, cells) && Within(more, cells)
    requires forall j :: 0 <= j < p ==> |RoutedCells(cells, p, j)| <= Pow2(order)
    ensures Files(FreshShards(p, order), live) && Files(FreshShards(p, order), live + more)
    ensures Files(IngestedAll(FreshShards(p, order), live), more)
    ensures IngestedAll(IngestedAll(FreshShards(p, order), live), more) == IngestedAll(FreshShards(p, order), live + more)
  {
    hide Separated, Files, IngestedAll, FreshShards, RoutedCells, Pow2, CellOf, Crowd;
    FilesIff(p, order, cells, live + more);
    FilesSplit(FreshShards(p, order), live, more);
  }

  /** Which shard gets a batch: two batches go to the same one if and only if their ids agree modulo the
      number of shards. */
  lemma SameShardIff(s: Shards, b: SBatch, b': SBatch)
    requires |s| > 0
    ensures Routed(s, b) == Routed(s, b') <==> IdOf(b) % |s| == IdOf(b') % |s|
  {
    hide IdOf;
  }

  // A shard of one slot to which nothing was routed is still free.
  ghost predicate Untouched(p: nat, bs: seq<SBatch>, s: Shards)
    requires |s| == p > 0
  {
    forall j :: 0 <= j < p && (forall i :: 0 <= i < |bs| ==> IdOf(bs[i]) % p != j) ==> s[j] == ShardRuns.Vacant(0)
  }

  lemma FreeShardAccepts(s: Shards, b: SBatch)
    requires AllShaped(s) && s[IdOf(b) % |s|] == ShardRuns.Vacant(0)
    ensures Accepts(s, b)
  {
    hide IdOf;
    var t := s[Routed(s, b)];
    assert |t| == 1 && t[0].id == 0;
    assert Probing.Hit(Ids(t), 0, IdOf(b), 0);
  }

  // Filing touches one shard.
  lemma OthersUntouched(p: nat, bs: seq<SBatch>, b: SBatch, s: Shards)
    requires |s| == p > 0 && AllShaped(s) && Finds(s, b) && Untouched(p, bs, s)
    ensures Untouched(p, bs + [b], Accumulation.Ingested(s, b))
  {
    hide IdOf, Finds, Index, ShardRuns.Vacant, Shape, Merge;
    assert (bs + [b])[|bs|] == b;
    assert forall i :: 0 <= i < |bs| ==> (bs + [b])[i] == bs[i];
  }

  lemma {:induction false} SpreadKeepsFree(p: nat, bs: seq<SBatch>)
    requires p > 0 && forall i, j :: 0 <= i < j < |bs| ==> IdOf(bs[i]) % p != IdOf(bs[j]) % p
    ensures Files(FreshShards(p, 0), bs) && Untouched(p, bs, IngestedAll(FreshShards(p, 0), bs))
  {
    hide IdOf, Accepts, Finds, ShardRuns.Vacant, AllShaped, Accumulation.Ingested;
    if |bs| > 0 {
      var front, b := bs[..|bs| - 1], bs[|bs| - 1];
      var s := IngestedAll(FreshShards(p, 0), front);
      SpreadKeepsFree(p, front);
      assert s[IdOf(b) % p] == ShardRuns.Vacant(0);
      hide Untouched, Files, IngestedAll, FreshShards;
      FreeShardAccepts(s, b);
      AcceptsFinds(s, b);
      FilesMore(FreshShards(p, 0), front, b);
      assert bs == front + [b];
      OthersUntouched(p, front, b, s);
    }
  }

  /** As many shards of one slot each as there are remainders take a batch of every remainder, so batches
      whose ids are pairwise different modulo the number of shards can always be filed. */
  lemma SpreadFiles(p: nat, bs: seq<SBatch>)
    requires p > 0 && forall i, j :: 0 <= i < j < |bs| ==> IdOf(bs[i]) % p != IdOf(bs[j]) % p
    ensures Files(FreshShards(p, 0), bs)
  {
    hide IdOf, Files, Untouched;
    SpreadKeepsFree(p, bs);
  }
}
