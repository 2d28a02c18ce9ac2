/** Envelopes, flushed batches and what a sequence of batches adds up to at one place. */
module Envelopes {
  import opened Packing
  import opened Sums

  datatype Channel = Scalar | Vector

  datatype TimeFootprint = TimeFootprint(bucketId: uint64, all: bool)

  datatype Footprint = Footprint(keyId: uint64, time: TimeFootprint, scope: Channel)

  type Digest = seq<bv8>

  datatype Envelope = Envelope(
    channel: Channel,
    footprint: Footprint,
    delta: int,
    seqEnd: uint64,
    hashPrev: Digest)

  datatype SBatch = SBatch(keyId: uint64, bucketId: uint64, netDelta: int, seqEnd: uint64)

  type Cell = (uint64, uint64)

  predicate Disjoint(f: Footprint, g: Footprint) {
    if f.scope != Scalar || g.scope != Scalar then false
    else if f.keyId != g.keyId then true
    else if f.time.all || g.time.all then false
    else f.time.bucketId != g.time.bucketId
  }

  predicate Covers(f: Footprint, c: Cell) {
    f.keyId == c.0 && (f.time.all || f.time.bucketId == c.1)
  }

  /** Two footprints are disjoint exactly when both are scalar and no cell is covered by both. */
  lemma DisjointIff(f: Footprint, g: Footprint)
    ensures Disjoint(f, g) <==>
      && f.scope == Scalar && g.scope == Scalar
      && !exists c :: Covers(f, c) && Covers(g, c)
  {
    if !Disjoint(f, g) && f.scope == Scalar && g.scope == Scalar {
      var c := (f.keyId, if f.time.all then g.time.bucketId else f.time.bucketId);
      assert Covers(f, c) && Covers(g, c);
    }
  }

  // What an envelope contributes, read as a batch of its own.
  function AsBatch(e: Envelope): SBatch {
    SBatch(e.footprint.keyId, e.footprint.time.bucketId, e.delta, e.seqEnd)
  }

  function CellOf(b: SBatch): Cell {
    (b.keyId, b.bucketId)
  }

  function IdOf(b: SBatch): uint64 {
    Pack(b.keyId, b.bucketId)
  }

  // What to read off a sequence of batches at one cell: the sum of deltas, the greatest sequence
  // number, or the number of batches.
  datatype Measure = Total | Peak | Count

  function Combine(m: Measure, x: int, y: int): int {
    if m == Peak then Max(x, y) else x + y
  }

  lemma Shuffle(m: Measure, x: int, y: int, z: int)
    ensures Combine(m, Combine(m, x, y), z) == Combine(m, x, Combine(m, y, z))
    ensures Combine(m, Combine(m, x, y), z) == Combine(m, Combine(m, x, z), y)
  {
  }

  function Weigh(m: Measure, b: SBatch, c: Cell): (w: int)
    ensures m == Peak ==> w >= 0
  {
    if CellOf(b) != c then 0
    else match m
      case Total => b.netDelta
      case Peak => b.seqEnd
      case Count => 1
  }

  function At(m: Measure, bs: seq<SBatch>, c: Cell): (w: int)
    ensures m == Peak ==> w >= 0
  {
    if |bs| == 0 then 0 else Combine(m, At(m, bs[..|bs| - 1], c), Weigh(m, bs[|bs| - 1], c))
  }

  lemma {:induction false} Concat(m: Measure, a: seq<SBatch>, b: seq<SBatch>, c: Cell)
    ensures At(m, a + b, c) == Combine(m, At(m, a, c), At(m, b, c))
  {
    if |b| == 0 {
      assert a + b == a;
    } else {
      Concat(m, a, b[..|b| - 1], c);
      assert (a + b)[..|a + b| - 1] == a + b[..|b| - 1];
    }
  }

  lemma One(m: Measure, b: SBatch, c: Cell)
    ensures At(m, [b], c) == Weigh(m, b, c)
  {
    assert [b][..0] == [];
  }

  lemma Append(m: Measure, a: seq<SBatch>, b: SBatch, c: Cell)
    ensures At(m, a + [b], c) == Combine(m, At(m, a, c), Weigh(m, b, c))
  {
    assert (a + [b])[..|a|] == a;
  }

  lemma Middle(m: Measure, a: seq<SBatch>, x: seq<SBatch>, b: seq<SBatch>, c: Cell)
    ensures At(m, a + x + b, c) == Combine(m, Combine(m, At(m, a, c), At(m, b, c)), At(m, x, c))
  {
    Concat(m, a, x, c);
    Concat(m, a + x, b, c);
  }

  lemma Without(bs: seq<SBatch>, i: nat)
    requires i < |bs|
    ensures bs == bs[..i] + [bs[i]] + bs[i + 1..]
    ensures multiset(bs[..i] + bs[i + 1..]) == multiset(bs) - multiset{bs[i]}
  {
    assert bs == bs[..i] + [bs[i]] + bs[i + 1..];
  }

  /** The order of batches does not matter to what they add up to. */
  lemma {:induction false} Reorder(m: Measure, a: seq<SBatch>, b: seq<SBatch>, c: Cell)
    requires multiset(a) == multiset(b)
    ensures At(m, a, c) == At(m, b, c)
  {
    if |a| == 0 {
      assert |multiset(b)| == 0;
    } else {
      var front, x := a[..|a| - 1], a[|a| - 1];
      assert a == front + [x];
      assert x in multiset(b);
      var i :| 0 <= i < |b| && b[i] == x;
      var rest := b[..i] + b[i + 1..];
      Without(b, i);
      assert multiset(front) == multiset(a) - multiset{x};
      Reorder(m, front, rest, c);
      Middle(m, b[..i], [x], b[i + 1..], c);
      Concat(m, b[..i], b[i + 1..], c);
      One(m, x, c);
    }
  }

  lemma {:induction false} CountIsPresence(bs: seq<SBatch>, c: Cell)
    ensures At(Count, bs, c) >= 0
    ensures At(Count, bs, c) == 0 <==> forall b :: b in bs ==> CellOf(b) != c
  {
    if |bs| > 0 {
      var front, last := bs[..|bs| - 1], bs[|bs| - 1];
      CountIsPresence(front, c);
      assert bs == front + [last];
    }
  }

  lemma {:induction false} Absent(m: Measure, bs: seq<SBatch>, c: Cell)
    requires forall b :: b in bs ==> CellOf(b) != c
    ensures At(m, bs, c) == 0
  {
    if |bs| > 0 {
      Absent(m, bs[..|bs| - 1], c);
    }
  }

  lemma NoneNothing(bs: seq<SBatch>, c: Cell)
    ensures bs == [] ==> At(Count, bs, c) == 0
    ensures At(Count, bs, c) == 0 ==> At(Total, bs, c) == 0 && At(Peak, bs, c) == 0
  {
    hide At;
    CountIsPresence(bs, c);
    if At(Count, bs, c) == 0 {
      Absent(Total, bs, c);
      Absent(Peak, bs, c);
    }
  }

  // Ids that a set of cells can be told apart by: none is the mark of a free slot, no two are equal.
  ghost predicate Separated(cells: set<Cell>) {
    && (forall c :: c in cells ==> Pack(c.0, c.1) != 0)
    && (forall c, d :: c in cells && d in cells && Pack(c.0, c.1) == Pack(d.0, d.1) ==> c == d)
  }

  ghost predicate Within(bs: seq<SBatch>, cells: set<Cell>) {
    forall b :: b in bs ==> CellOf(b) in cells
  }

  // The scalar and the vector envelopes of a mixed log, in order.
  function Lane(envs: seq<Envelope>, channel: Channel): seq<Envelope> {
    if |envs| == 0 then []
    else
      var before := Lane(envs[..|envs| - 1], channel);
      if envs[|envs| - 1].channel == channel then before + [envs[|envs| - 1]] else before
  }

  function AsBatches(envs: seq<Envelope>): (bs: seq<SBatch>)
    ensures |bs| == |envs|
  {
    seq(|envs|, i requires 0 <= i < |envs| => AsBatch(envs[i]))
  }

  lemma AsBatchesAppend(envs: seq<Envelope>, e: Envelope)
    ensures AsBatches(envs + [e]) == AsBatches(envs) + [AsBatch(e)]
  {
  }

  // What the envelopes of one cell add up to.
  function Deltas(envs: seq<Envelope>, c: Cell): int {
    if |envs| == 0 then 0
    else
      var (before, e) := (Deltas(envs[..|envs| - 1], c), envs[|envs| - 1]);
      if e.footprint.keyId == c.0 && e.footprint.time.bucketId == c.1 then before + e.delta else before
  }

  // The greatest sequence number among them, 0 if there are none.
  function Latest(envs: seq<Envelope>, c: Cell): nat {
    if |envs| == 0 then 0
    else
      var (before, e) := (Latest(envs[..|envs| - 1], c), envs[|envs| - 1]);
      if e.footprint.keyId == c.0 && e.footprint.time.bucketId == c.1 && e.seqEnd > before then e.seqEnd else before
  }

  /** Envelopes taken as batches add up, at every cell, to what they say themselves. */
  lemma {:induction false} EnvelopesRead(envs: seq<Envelope>, c: Cell)
    ensures At(Total, AsBatches(envs), c) == Deltas(envs, c)
    ensures At(Peak, AsBatches(envs), c) == Latest(envs, c)
  {
    hide AsBatches, At;
    if |envs| > 0 {
      var front, last := envs[..|envs| - 1], envs[|envs| - 1];
      assert envs == front + [last];
      EnvelopesRead(front, c);
      AsBatchesAppend(front, last);
      Append(Total, AsBatches(front), AsBatch(last), c);
      Append(Peak, AsBatches(front), AsBatch(last), c);
    } else {
      assert AsBatches(envs) == [];
      Absent(Total, [], c);
      Absent(Peak, [], c);
    }
  }

  lemma {:induction false} LanesAddUp(m: Measure, envs: seq<Envelope>, c: Cell)
    ensures At(m, AsBatches(envs), c)
      == Combine(m, At(m, AsBatches(Lane(envs, Scalar)), c), At(m, AsBatches(Lane(envs, Vector)), c))
  {
    hide Weigh, AsBatch, AsBatches;
    if |envs| > 0 {
      var front, last := envs[..|envs| - 1], envs[|envs| - 1];
      assert envs == front + [last];
      LanesAddUp(m, front, c);
      AsBatchesAppend(front, last);
      Append(m, AsBatches(front), AsBatch(last), c);
      var lane := Lane(front, last.channel);
      AsBatchesAppend(lane, last);
      Append(m, AsBatches(lane), AsBatch(last), c);
    }
  }

  lemma TakeOut(b: seq<Envelope>, i: nat)
    requires i < |b|
    ensures multiset(b[..i] + b[i + 1..]) == multiset(b) - multiset{b[i]}
    ensures multiset(AsBatches(b)) == multiset(AsBatches(b[..i] + b[i + 1..])) + multiset{AsBatch(b[i])}
  {
    var bs := AsBatches(b);
    assert b == b[..i] + [b[i]] + b[i + 1..];
    assert AsBatches(b[..i] + b[i + 1..]) == bs[..i] + bs[i + 1..];
    Without(bs, i);
  }

  lemma {:induction false} SameBatches(a: seq<Envelope>, b: seq<Envelope>)
    requires multiset(a) == multiset(b)
    ensures multiset(AsBatches(a)) == multiset(AsBatches(b))
  {
    if |a| == 0 {
      assert |multiset(b)| == 0;
    } else {
      var front, x := a[..|a| - 1], a[|a| - 1];
      assert a == front + [x];
      assert x in multiset(b);
      var i :| 0 <= i < |b| && b[i] == x;
      var rest := b[..i] + b[i + 1..];
      assert multiset(front) == multiset(a) - multiset{x};
      TakeOut(b, i);
      SameBatches(front, rest);
      AsBatchesAppend(front, x);
    }
  }
}
