/** The shards of an accumulator taken together, as a sequence of tables. */
module Accumulation {
  import opened Sums
  import opened Packing
  import opened Envelopes
  import opened Tables

  type Shards = seq<Table>

  function ShardOf(n: nat, id: uint64): nat
    requires n > 0
    ensures ShardOf(n, id) < n
  {
    id % n
  }

  predicate AllShaped(s: Shards)
    ensures AllShaped(s) ==> |s| > 0
  {
    |s| > 0 && forall j :: 0 <= j < |s| ==> Shape(s[j])
  }

  function Routed(s: Shards, b: SBatch): nat
    requires |s| > 0
    ensures Routed(s, b) < |s|
  {
    ShardOf(|s|, IdOf(b))
  }

  // The probe of the shard that gets this batch ends.
  ghost predicate Accepts(s: Shards, b: SBatch)
    requires |s| > 0
  {
    Stops(s[Routed(s, b)], IdOf(b))
  }

  predicate Finds(s: Shards, b: SBatch)
    requires AllShaped(s)
  {
    Index(s[Routed(s, b)], IdOf(b)) < |s[Routed(s, b)]|
  }

  function Ingested(s: Shards, b: SBatch): Shards
    requires AllShaped(s) && Finds(s, b)
  {
    s[Routed(s, b) := Tables.Ingested(s[Routed(s, b)], IdOf(b), b)]
  }

  function Flushed(s: Shards): Shards {
    seq(|s|, j requires 0 <= j < |s| => Kept(s[j], {}, true))
  }

  // What FlushAll emits, shard by shard.
  function EmitAll(s: Shards): seq<SBatch> {
    if |s| == 0 then [] else EmitAll(s[..|s| - 1]) + Emit(s[|s| - 1])
  }

  ghost predicate RoutedHere(t: Table, n: nat, j: nat)
    requires n > 0
  {
    forall i :: 0 <= i < |t| && t[i].id != 0 ==> ShardOf(n, t[i].id) == j
  }

  /** All shards emit one after the other. */
  lemma {:induction false} EmitAllConcat(a: Shards, b: Shards)
    ensures EmitAll(a + b) == EmitAll(a) + EmitAll(b)
  {
    hide Emit;
    if |b| == 0 {
      assert a + b == a;
    } else {
      var front, last := b[..|b| - 1], b[|b| - 1];
      EmitAllConcat(a, front);
      assert (a + b)[..|a + b| - 1] == a + front && (a + b)[|a + b| - 1] == last;
      assert EmitAll(a + b) == EmitAll(a) + EmitAll(front) + Emit(last);
    }
  }

  // Every shard is in order and holds only entries of these cells, routed to it.
  ghost predicate Sound(s: Shards, cells: set<Cell>)
    ensures Sound(s, cells) ==> AllShaped(s)
  {
    && AllShaped(s)
    && forall j :: 0 <= j < |s| ==>
         Tidy(s[j], cells) && Canonical(s[j]) && RoutedHere(s[j], |s|, j)
  }

  lemma AcceptsFinds(s: Shards, b: SBatch)
    requires AllShaped(s) && Accepts(s, b)
    ensures Finds(s, b)
  {
    hide Index, Stops, IdOf;
    IndexHits(s[Routed(s, b)], IdOf(b));
  }

  /** The probe for a batch ends if and only if its shard has a free slot or an entry of that id. */
  lemma AcceptsIffRoom(s: Shards, b: SBatch)
    requires AllShaped(s)
    ensures Accepts(s, b) <==>
      var t := s[Routed(s, b)]; Occupied(t) < |t| || IdOf(b) in Ids(t)
  {
    hide Stops, IdOf, Occupied;
    StopsIffRoom(s[Routed(s, b)], IdOf(b));
  }

  lemma IngestSound(s: Shards, cells: set<Cell>, b: SBatch)
    requires Sound(s, cells) && Separated(cells) && CellOf(b) in cells && Accepts(s, b)
    ensures Finds(s, b) && Sound(Ingested(s, b), cells)
  {
    hide Index, Canonical, Tidy, Stops;
    var j, k := Routed(s, b), IdOf(b);
    AcceptsFinds(s, b);
    assert k != 0 by { assert k == Pack(CellOf(b).0, CellOf(b).1); }
    IngestTidy(s[j], cells, b);
    IngestCanonical(s[j], k, b);
    IndexHits(s[j], k);
  }

  lemma {:induction false} FlushedEmitsNothing(s: Shards)
    ensures EmitAll(Flushed(s)) == []
  {
    if |s| > 0 {
      FlushedEmitsNothing(s[..|s| - 1]);
      assert Flushed(s)[..|s| - 1] == Flushed(s[..|s| - 1]);
      FlushAllEmits(s[|s| - 1]);
    }
  }

  lemma FlushSound(s: Shards, cells: set<Cell>)
    requires Sound(s, cells)
    ensures Sound(Flushed(s), cells) && EmitAll(Flushed(s)) == []
  {
    forall j | 0 <= j < |s| ensures Tidy(Flushed(s)[j], cells) && Canonical(Flushed(s)[j]) && Shape(Flushed(s)[j]) {
      FlushAllCanonical(s[j]);
    }
    FlushedEmitsNothing(s);
  }

  // Replacing one shard changes what is held by that shard alone.
  lemma {:induction false} ShardUpdate(m: Measure, s: Shards, j: nat, t: Table, w: int, c: Cell)
    requires j < |s| && At(m, Emit(t), c) == Combine(m, At(m, Emit(s[j]), c), w)
    requires m == Peak ==> w >= 0
    ensures At(m, EmitAll(s[j := t]), c) == Combine(m, At(m, EmitAll(s), c), w)
  {
    hide Emit;
    var front, last := s[..|s| - 1], s[|s| - 1];
    Concat(m, EmitAll(front), Emit(last), c);
    if j == |s| - 1 {
      assert s[j := t][..|s| - 1] == front;
      Concat(m, EmitAll(front), Emit(t), c);
      Shuffle(m, At(m, EmitAll(front), c), At(m, Emit(last), c), w);
    } else {
      assert s[j := t][..|s| - 1] == front[j := t];
      ShardUpdate(m, front, j, t, w, c);
      Concat(m, EmitAll(front[j := t]), Emit(last), c);
      Shuffle(m, At(m, EmitAll(front), c), At(m, Emit(last), c), w);
    }
  }

  /** Filing a batch in its shard adds it to what the accumulator holds, as one more entry if its cell
      was not held yet. */
  lemma IngestAdds(m: Measure, s: Shards, cells: set<Cell>, b: SBatch, c: Cell)
    requires Sound(s, cells) && Separated(cells) && CellOf(b) in cells && Accepts(s, b)
    ensures Finds(s, b)
    ensures At(m, EmitAll(Ingested(s, b)), c) ==
      if m == Count && s[Routed(s, b)][Index(s[Routed(s, b)], IdOf(b))].id != 0 then At(m, EmitAll(s), c)
      else Combine(m, At(m, EmitAll(s), c), Weigh(m, b, c))
  {
    hide Index, Canonical, Tidy, IdOf, Emit, EmitAll, Stops;
    var j := Routed(s, b);
    AcceptsFinds(s, b);
    IngestConserves(m, s[j], cells, b, c);
    if m == Count && s[j][Index(s[j], IdOf(b))].id != 0 {
      ShardUpdate(m, s, j, Tables.Ingested(s[j], IdOf(b), b), 0, c);
    } else {
      ShardUpdate(m, s, j, Tables.Ingested(s[j], IdOf(b), b), Weigh(m, b, c), c);
    }
  }

  lemma EntryRouted(t: Table, cells: set<Cell>, n: nat, j: nat, c: Cell)
    requires n > 0 && Tidy(t, cells) && RoutedHere(t, n, j) && HasEntry(t, c)
    ensures ShardOf(n, Pack(c.0, c.1)) == j
  {
    hide Pack, ShardOf;
  }

  lemma {:induction false} OnlyShard(s: Shards, cells: set<Cell>, n: nat, c: Cell)
    requires n > 0
    requires forall j :: 0 <= j < |s| ==> Shape(s[j]) && Tidy(s[j], cells) && Canonical(s[j]) && RoutedHere(s[j], n, j)
    ensures At(Count, EmitAll(s), c) ==
      var j := ShardOf(n, Pack(c.0, c.1));
      if j < |s| && HasEntry(s[j], c) then 1 else 0
  {
    hide Pack, Canonical, Tidy, RoutedHere, HasEntry, ShardOf, Emit;
    if |s| > 0 {
      var last := |s| - 1;
      OnlyShard(s[..last], cells, n, c);
      CanonicalDistinct(s[last]);
      EmitsOnce(s[last], cells, c);
      Concat(Count, EmitAll(s[..last]), Emit(s[last]), c);
      if HasEntry(s[last], c) {
        EntryRouted(s[last], cells, n, last, c);
      }
    }
  }

  /** FlushAll emits at most one batch for a cell, and one exactly when the cell is held. */
  lemma HeldOnce(s: Shards, cells: set<Cell>, c: Cell)
    requires Sound(s, cells)
    ensures 0 <= At(Count, EmitAll(s), c) <= 1
  {
    OnlyShard(s, cells, |s|, c);
  }

  // Filing one batch after the other.
  function IngestedAll(s: Shards, bs: seq<SBatch>): (r: Shards)
    requires AllShaped(s)
    ensures AllShaped(r) && |r| == |s|
  {
    if |bs| == 0 then s
    else
      var before := IngestedAll(s, bs[..|bs| - 1]);
      var b := bs[|bs| - 1];
      if Finds(before, b) then Ingested(before, b) else before
  }

  // Every probe ends when these batches are filed one after the other.
  ghost predicate Files(s: Shards, bs: seq<SBatch>)
    requires AllShaped(s)
  {
    forall i :: 0 <= i < |bs| ==> Accepts(IngestedAll(s, bs[..i]), bs[i])
  }

  lemma FilesPrefix(s: Shards, bs: seq<SBatch>)
    requires AllShaped(s) && |bs| > 0 && Files(s, bs)
    ensures Files(s, bs[..|bs| - 1]) && Accepts(IngestedAll(s, bs[..|bs| - 1]), bs[|bs| - 1])
  {
    hide Accepts, IngestedAll;
    var front := bs[..|bs| - 1];
    forall i | 0 <= i < |front| ensures Accepts(IngestedAll(s, front[..i]), front[i]) {
      assert front[..i] == bs[..i] && front[i] == bs[i];
    }
  }

  // After filing, the cell of the batch is held.
  lemma HasIt(s: Shards, cells: set<Cell>, b: SBatch)
    requires Sound(s, cells) && Separated(cells) && CellOf(b) in cells && Accepts(s, b)
    ensures Finds(s, b)
    ensures At(Count, EmitAll(Ingested(s, b)), CellOf(b)) == 1
  {
    hide Index, Canonical, Pack, EmitAll, Stops;
    var j, k := Routed(s, b), IdOf(b);
    AcceptsFinds(s, b);
    IngestSound(s, cells, b);
    SameCell(s[j], cells, b);
    var s' := Ingested(s, b);
    OnlyShard(s', cells, |s'|, CellOf(b));
    var i := Index(s[j], k);
    assert s'[j][i].id == k && (s'[j][i].keyId, s'[j][i].bucketId) == CellOf(b);
    assert k == Pack(CellOf(b).0, CellOf(b).1) != 0;
    assert HasEntry(s'[j], CellOf(b));
  }

  lemma CoalesceStep(s: Shards, cells: set<Cell>, b: SBatch, c: Cell)
    requires Sound(s, cells) && Separated(cells) && CellOf(b) in cells && Accepts(s, b)
    ensures AllShaped(s) && Finds(s, b)
    ensures Sound(Ingested(s, b), cells)
    ensures var out := EmitAll(Ingested(s, b));
      && At(Total, out, c) == At(Total, EmitAll(s), c) + Weigh(Total, b, c)
      && At(Peak, out, c) == Max(At(Peak, EmitAll(s), c), Weigh(Peak, b, c))
      && At(Count, out, c) == if CellOf(b) == c then 1 else At(Count, EmitAll(s), c)
  {
    hide Index, Sound, IdOf, Separated, EmitAll, Accepts;
    IngestSound(s, cells, b);
    IngestAdds(Total, s, cells, b, c);
    IngestAdds(Peak, s, cells, b, c);
    IngestAdds(Count, s, cells, b, c);
    HeldOnce(Ingested(s, b), cells, c);
    HeldOnce(s, cells, c);
    if CellOf(b) == c {
      HasIt(s, cells, b);
    }
  }

  /** Canonical accumulation: after filing any batches into empty shards, FlushAll emits exactly one
      batch for every cell filed, with the sum of its deltas and its greatest sequence number. */
  lemma {:induction false} FlushAllCoalesces(s: Shards, cells: set<Cell>, bs: seq<SBatch>, c: Cell)
    requires Sound(s, cells) && EmitAll(s) == [] && Separated(cells) && Within(bs, cells) && Files(s, bs)
    ensures Sound(IngestedAll(s, bs), cells)
    ensures var out := EmitAll(IngestedAll(s, bs));
      && At(Total, out, c) == At(Total, bs, c)
      && At(Peak, out, c) == At(Peak, bs, c)
      && At(Count, out, c) == if At(Count, bs, c) > 0 then 1 else 0
  {
    hide Index, Sound, IdOf, Separated, EmitAll, Ingested, Routed, Accepts, Files;
    if |bs| > 0 {
      var front, b := bs[..|bs| - 1], bs[|bs| - 1];
      FilesPrefix(s, bs);
      FlushAllCoalesces(s, cells, front, c);
      var before := IngestedAll(s, front);
      assert CellOf(b) in cells;
      CoalesceStep(before, cells, b, c);
      CountIsPresence(front, c);
    }
  }
}
