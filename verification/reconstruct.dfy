/** The in-memory state rebuilt from flushed batches and vector envelopes, and the naive execution of
    one ordered log it is compared with. */
module Reconstruction {
  import opened Envelopes

  type Cells = map<Cell, int>

  // An absent cell reads as 0.
  function Read(cells: Cells, c: Cell): int {
    if c in cells then cells[c] else 0
  }

  function Bump(cells: Cells, c: Cell, d: int): Cells {
    cells[c := Read(cells, c) + d]
  }

  function Applied(cells: Cells, bs: seq<SBatch>): Cells {
    if |bs| == 0 then cells
    else
      var b := bs[|bs| - 1];
      Bump(Applied(cells, bs[..|bs| - 1]), CellOf(b), b.netDelta)
  }

  /** Applying batches adds, at every cell, their total there; the cells touched come to exist. */
  lemma {:induction false} AppliedReads(cells: Cells, bs: seq<SBatch>, c: Cell)
    ensures Read(Applied(cells, bs), c) == Read(cells, c) + At(Total, bs, c)
    ensures c in Applied(cells, bs) <==> c in cells || At(Count, bs, c) > 0
    ensures At(Count, bs, c) >= 0
  {
    if |bs| > 0 {
      AppliedReads(cells, bs[..|bs| - 1], c);
    }
  }

  lemma AppliedStep(cells: Cells, bs: seq<SBatch>, b: SBatch)
    ensures Applied(cells, bs + [b]) == Bump(Applied(cells, bs), CellOf(b), b.netDelta)
  {
    assert (bs + [b])[..|bs|] == bs;
  }

  // The order in which vector envelopes are replayed: by key, and within a key by sequence number.
  predicate Before(e: Envelope, f: Envelope) {
    if e.footprint.keyId == f.footprint.keyId then e.seqEnd < f.seqEnd
    else e.footprint.keyId < f.footprint.keyId
  }

  predicate Ordered(s: seq<Envelope>) {
    forall i, j :: 0 <= i < j < |s| ==> !Before(s[j], s[i])
  }

  /** What the order means: keys do not fall, and within a key sequence numbers do not fall. */
  lemma OrderedIff(s: seq<Envelope>)
    ensures Ordered(s) <==> forall i, j :: 0 <= i < j < |s| ==>
      && s[i].footprint.keyId <= s[j].footprint.keyId
      && (s[i].footprint.keyId == s[j].footprint.keyId ==> s[i].seqEnd <= s[j].seqEnd)
  {
  }

  function Inserted(s: seq<Envelope>, e: Envelope): seq<Envelope> {
    if |s| == 0 || !Before(e, s[|s| - 1]) then s + [e]
    else Inserted(s[..|s| - 1], e) + [s[|s| - 1]]
  }

  lemma LastOrdered(s: seq<Envelope>, e: Envelope)
    requires Ordered(s) && (|s| == 0 || !Before(e, s[|s| - 1]))
    ensures Ordered(s + [e])
  {
    if |s| > 0 {
      forall i | 0 <= i < |s| ensures !Before(e, s[i]) {
        assert i < |s| - 1 ==> !Before(s[|s| - 1], s[i]);
      }
    }
  }

  // What was last stays last when something that goes before it is inserted.
  lemma LastStays(front: seq<Envelope>, last: Envelope, e: Envelope)
    requires Ordered(front + [last]) && Before(e, last)
    requires Ordered(Inserted(front, e)) && multiset(Inserted(front, e)) == multiset(front) + multiset{e}
    ensures Ordered(Inserted(front, e) + [last])
  {
    hide Inserted;
    var more := Inserted(front, e);
    assert (front + [last])[|front|] == last;
    forall i | 0 <= i < |more| ensures !Before(last, more[i]) {
      assert more[i] in multiset(front) + multiset{e};
      if more[i] != e {
        assert more[i] in front;
        var j :| 0 <= j < |front| && front[j] == more[i];
        assert (front + [last])[j] == more[i];
      }
    }
  }

  lemma {:induction false} InsertedOrdered(s: seq<Envelope>, e: Envelope)
    requires Ordered(s)
    ensures Ordered(Inserted(s, e))
    ensures multiset(Inserted(s, e)) == multiset(s) + multiset{e}
  {
    if |s| == 0 || !Before(e, s[|s| - 1]) {
      LastOrdered(s, e);
    } else {
      var front, last := s[..|s| - 1], s[|s| - 1];
      assert s == front + [last];
      InsertedOrdered(front, e);
      LastStays(front, last, e);
    }
  }

  lemma NothingOrdered()
    ensures Ordered([])
  {
  }

  // The contract of sort.Slice, which promises no more for envelopes that compare equal.
  method SortSlice(a: array<Envelope>)
    modifies a
    ensures Ordered(a[..]) && multiset(a[..]) == multiset(old(a[..]))
  {
    hide Ordered, Inserted;
    ghost var before := a[..];
    var sorted: seq<Envelope> := [];
    assert Ordered(sorted) by { NothingOrdered(); }
    for i := 0 to a.Length
      invariant a[..] == before
      invariant |sorted| == i && Ordered(sorted) && multiset(sorted) == multiset(before[..i])
    {
      InsertedOrdered(sorted, a[i]);
      assert before[..i + 1] == before[..i] + [a[i]];
      assert |multiset(sorted) + multiset{a[i]}| == i + 1;
      sorted := Inserted(sorted, a[i]);
      assert |sorted| == |multiset(sorted)|;
    }
    assert before[..a.Length] == before;
    for i := 0 to a.Length
      invariant forall j :: 0 <= j < i ==> a[j] == sorted[j]
    {
      a[i] := sorted[i];
    }
    assert a[..] == sorted;
  }

  class State {
    var cells: Cells

    constructor ()
      ensures cells == map[]
    {
      cells := map[];
    }

    method ApplyS(b: SBatch)
      modifies this
      ensures cells == Bump(old(cells), CellOf(b), b.netDelta)
    {
      var k := CellOf(b);
      cells := cells[k := (if k in cells then cells[k] else 0) + b.netDelta];
    }

    method ApplyV(env: Envelope)
      modifies this
      ensures cells == Bump(old(cells), CellOf(AsBatch(env)), env.delta)
    {
      var k := (env.footprint.keyId, env.footprint.time.bucketId);
      cells := cells[k := (if k in cells then cells[k] else 0) + env.delta];
    }

    /** Batches in the order given, then the vector envelopes sorted by key and sequence number. */
    method Reconstruct(sBatches: seq<SBatch>, vEnvs: array<Envelope>)
      modifies this, vEnvs
      ensures multiset(vEnvs[..]) == multiset(old(vEnvs[..]))
      ensures forall i, j :: 0 <= i < j < vEnvs.Length ==>
        && vEnvs[i].footprint.keyId <= vEnvs[j].footprint.keyId
        && (vEnvs[i].footprint.keyId == vEnvs[j].footprint.keyId ==> vEnvs[i].seqEnd <= vEnvs[j].seqEnd)
      ensures cells == Applied(old(cells), sBatches + AsBatches(vEnvs[..]))
    {
      hide Bump, Ordered;
      ghost var before := cells;
      for i := 0 to |sBatches|
        invariant vEnvs[..] == old(vEnvs[..])
        invariant cells == Applied(before, sBatches[..i])
      {
        AppliedStep(before, sBatches[..i], sBatches[i]);
        assert sBatches[..i + 1] == sBatches[..i] + [sBatches[i]];
        ApplyS(sBatches[i]);
      }
      SortSlice(vEnvs);
      ghost var sorted := vEnvs[..];
      assert sBatches[..|sBatches|] == sBatches == sBatches + AsBatches(sorted[..0]);
      for i := 0 to vEnvs.Length
        invariant vEnvs[..] == sorted
        invariant cells == Applied(before, sBatches + AsBatches(sorted[..i]))
      {
        var e := vEnvs[i];
        assert sorted[..i + 1] == sorted[..i] + [e];
        AsBatchesAppend(sorted[..i], e);
        AppliedStep(before, sBatches + AsBatches(sorted[..i]), AsBatch(e));
        assert sBatches + AsBatches(sorted[..i + 1]) == sBatches + AsBatches(sorted[..i]) + [AsBatch(e)];
        ApplyV(e);
      }
      assert sorted[..vEnvs.Length] == sorted;
      OrderedIff(sorted);
    }

    /** Every envelope of a mixed log in arrival order. */
    method BaselineApply(envs: seq<Envelope>)
      modifies this
      ensures cells == Applied(old(cells), AsBatches(envs))
    {
      hide Bump;
      ghost var before := cells;
      for i := 0 to |envs|
        invariant cells == Applied(before, AsBatches(envs[..i]))
      {
        var e := envs[i];
        assert envs[..i + 1] == envs[..i] + [e];
        AsBatchesAppend(envs[..i], e);
        AppliedStep(before, AsBatches(envs[..i]), AsBatch(e));
        if e.channel == Scalar {
          var b := SBatch(e.footprint.keyId, e.footprint.time.bucketId, e.delta, e.seqEnd);
          ApplyS(b);
        } else {
          ApplyV(e);
        }
      }
      assert envs[..|envs|] == envs;
    }
  }
}
