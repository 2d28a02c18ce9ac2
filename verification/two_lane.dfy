/** The two lanes together: scalar envelopes coalesced, flushed, compressed and delivered in any order,
    vector envelopes kept as they are, against one ordered log of both. */
module TwoLanes {
  import opened Bits
  import opened Packing
  import opened Envelopes
  import opened Tables
  import opened Accumulation
  import opened Compression
  import opened Reconstruction
  import opened LiveCells

  // A step of the scalar lane. A flush carries what reached the sink.
  datatype Step = File(env: Envelope) | Flush(out: seq<SBatch>)

  function After(s: Shards, step: Step): (r: Shards)
    requires AllShaped(s)
    ensures AllShaped(r) && |r| == |s|
  {
    match step
    case File(env) => if Finds(s, AsBatch(env)) then Accumulation.Ingested(s, AsBatch(env)) else s
    case Flush(out) => Flushed(s)
  }

  function Run(s: Shards, steps: seq<Step>): (r: Shards)
    requires AllShaped(s)
    ensures AllShaped(r) && |r| == |s|
  {
    if |steps| == 0 then s else After(Run(s, steps[..|steps| - 1]), steps[|steps| - 1])
  }

  // The probe of every filing ends.
  ghost predicate Completes(s: Shards, steps: seq<Step>)
    requires AllShaped(s)
  {
    forall i :: 0 <= i < |steps| && steps[i].File? ==> Accepts(Run(s, steps[..i]), AsBatch(steps[i].env))
  }

  // What may reach the sink for the batches a flush took: those batches, or their compression.
  ghost predicate Delivers(held: seq<SBatch>, out: seq<SBatch>) {
    multiset(out) == multiset(held) || Compressed(held, out)
  }

  ghost predicate Genuine(s: Shards, steps: seq<Step>)
    requires AllShaped(s)
  {
    forall i :: 0 <= i < |steps| && steps[i].Flush? ==> Delivers(EmitAll(Run(s, steps[..i])), steps[i].out)
  }

  function Filed(steps: seq<Step>): seq<Envelope> {
    if |steps| == 0 then []
    else Filed(steps[..|steps| - 1]) + (if steps[|steps| - 1].File? then [steps[|steps| - 1].env] else [])
  }

  function Sent(steps: seq<Step>): seq<SBatch> {
    if |steps| == 0 then []
    else Sent(steps[..|steps| - 1]) + (if steps[|steps| - 1].Flush? then steps[|steps| - 1].out else [])
  }

  lemma DeliveredTotal(held: seq<SBatch>, out: seq<SBatch>, c: Cell)
    requires Delivers(held, out)
    ensures At(Total, out, c) == At(Total, held, c)
  {
    if multiset(out) == multiset(held) {
      Reorder(Total, out, held, c);
    }
  }

  lemma FileStep(s: Shards, cells: set<Cell>, env: Envelope, c: Cell)
    requires Sound(s, cells) && Separated(cells) && CellOf(AsBatch(env)) in cells && Accepts(s, AsBatch(env))
    ensures Sound(After(s, File(env)), cells)
    ensures At(Total, EmitAll(After(s, File(env))), c) == At(Total, EmitAll(s), c) + Weigh(Total, AsBatch(env), c)
  {
    hide Sound, Finds, Separated, EmitAll, CellOf, Accumulation.Ingested, Accepts;
    IngestSound(s, cells, AsBatch(env));
    IngestAdds(Total, s, cells, AsBatch(env), c);
  }

  lemma StepKeeps(s: Shards, cells: set<Cell>, step: Step, c: Cell)
    requires Sound(s, cells) && Separated(cells)
    requires step.File? ==> CellOf(AsBatch(step.env)) in cells && Accepts(s, AsBatch(step.env))
    requires step.Flush? ==> Delivers(EmitAll(s), step.out)
    ensures Sound(After(s, step), cells)
    ensures (if step.Flush? then At(Total, step.out, c) else 0) + At(Total, EmitAll(After(s, step)), c)
      == At(Total, EmitAll(s), c) + (if step.File? then Weigh(Total, AsBatch(step.env), c) else 0)
  {
    hide Finds, Separated, EmitAll, CellOf, Accumulation.Ingested, Weigh, Delivers, Flushed, Accepts;
    match step {
      case File(env) => FileStep(s, cells, env, c);
      case Flush(out) =>
        DeliveredTotal(EmitAll(s), out, c);
        FlushSound(s, cells);
    }
  }

  lemma RunStep(steps: seq<Step>, c: Cell)
    requires |steps| > 0
    ensures var (front, last) := (steps[..|steps| - 1], steps[|steps| - 1]);
      && At(Total, Sent(steps), c) == At(Total, Sent(front), c) + (if last.Flush? then At(Total, last.out, c) else 0)
      && At(Total, AsBatches(Filed(steps)), c) ==
           At(Total, AsBatches(Filed(front)), c) + (if last.File? then Weigh(Total, AsBatch(last.env), c) else 0)
  {
    var front, last := steps[..|steps| - 1], steps[|steps| - 1];
    if last.Flush? {
      Concat(Total, Sent(front), last.out, c);
      assert Filed(front) + [] == Filed(front);
    } else {
      AsBatchesAppend(Filed(front), last.env);
      Append(Total, AsBatches(Filed(front)), AsBatch(last.env), c);
      assert Sent(front) + [] == Sent(front);
    }
  }

  lemma FiledWithin(steps: seq<Step>, cells: set<Cell>)
    requires |steps| > 0 && Within(AsBatches(Filed(steps)), cells)
    ensures var (front, last) := (steps[..|steps| - 1], steps[|steps| - 1]);
      && Within(AsBatches(Filed(front)), cells)
      && (last.File? ==> CellOf(AsBatch(last.env)) in cells)
  {
    var front, last := steps[..|steps| - 1], steps[|steps| - 1];
    if last.File? {
      AsBatchesAppend(Filed(front), last.env);
      assert AsBatches(Filed(steps)) == AsBatches(Filed(front)) + [AsBatch(last.env)];
      assert forall b :: b in AsBatches(Filed(front)) ==> b in AsBatches(Filed(steps));
      assert AsBatch(last.env) in AsBatches(Filed(steps));
    } else {
      assert Filed(steps) == Filed(front);
    }
  }

  /** However flushes are placed among the envelopes and whichever of them are compressed, what was
      filed for a cell is what was sent plus what is still held. */
  lemma {:induction false} NothingLost(s: Shards, cells: set<Cell>, steps: seq<Step>, c: Cell)
    requires Sound(s, cells) && Separated(cells) && EmitAll(s) == [] && Genuine(s, steps) && Completes(s, steps)
    requires Within(AsBatches(Filed(steps)), cells)
    ensures Sound(Run(s, steps), cells)
    ensures At(Total, Sent(steps), c) + At(Total, EmitAll(Run(s, steps)), c) == At(Total, AsBatches(Filed(steps)), c)
  {
    hide Sound, Separated, EmitAll, After, Delivers, Weigh, Accepts;
    if |steps| > 0 {
      var front, last := steps[..|steps| - 1], steps[|steps| - 1];
      FiledWithin(steps, cells);
      forall i | 0 <= i < |front| ensures front[i] == steps[i] && front[..i] == steps[..i] {
      }
      assert Genuine(s, front) && Completes(s, front);
      NothingLost(s, cells, front, c);
      StepKeeps(Run(s, front), cells, last, c);
      RunStep(steps, c);
    }
  }

  lemma AsBatchesReorder(a: seq<Envelope>, b: seq<Envelope>, c: Cell)
    requires multiset(a) == multiset(b)
    ensures At(Total, AsBatches(a), c) == At(Total, AsBatches(b), c)
  {
    SameBatches(a, b);
    Reorder(Total, AsBatches(a), AsBatches(b), c);
  }

  lemma WithinReordered(a: seq<Envelope>, b: seq<Envelope>, cells: set<Cell>)
    requires multiset(a) == multiset(b) && Within(AsBatches(b), cells)
    ensures Within(AsBatches(a), cells)
  {
    SameBatches(a, b);
    forall x | x in AsBatches(a) ensures CellOf(x) in cells {
      assert x in multiset(AsBatches(a));
    }
  }

  /** Two-lane equivalence. Take any mixed log whose scalar cells are separated; let the scalar envelopes
      be filed in any order with flushes anywhere, compressed or not, so that the probes end, until
      nothing is held; let the batches arrive in any order and the vector envelopes in any order and with
      any links. The state rebuilt from them reads the same at every cell as the naive execution of the
      log. */
  lemma Equivalence(p: nat, order: nat, cells: set<Cell>, envs: seq<Envelope>, steps: seq<Step>,
                    delivered: seq<SBatch>, vEnvs: seq<Envelope>, start: Cells, c: Cell)
    requires p > 0 && Separated(cells) && Within(AsBatches(Lane(envs, Scalar)), cells)
    requires multiset(Filed(steps)) == multiset(Lane(envs, Scalar))
    requires Genuine(FreshShards(p, order), steps) && Completes(FreshShards(p, order), steps)
    requires EmitAll(Run(FreshShards(p, order), steps)) == []
    requires multiset(delivered) == multiset(Sent(steps))
    requires multiset(AsBatches(vEnvs)) == multiset(AsBatches(Lane(envs, Vector)))
    ensures Read(Applied(start, delivered + AsBatches(vEnvs)), c) == Read(Applied(start, AsBatches(envs)), c)
  {
    hide Sound, Separated, EmitAll, Genuine, Completes, Lane, Weigh, At, Applied, Pow2, FreshShards;
    var s := FreshShards(p, order);
    FreshSound(p, order, cells);
    WithinReordered(Filed(steps), Lane(envs, Scalar), cells);
    NothingLost(s, cells, steps, c);
    assert At(Total, [], c) == 0 by { Absent(Total, [], c); }
    AsBatchesReorder(Filed(steps), Lane(envs, Scalar), c);
    Reorder(Total, AsBatches(vEnvs), AsBatches(Lane(envs, Vector)), c);
    Reorder(Total, delivered, Sent(steps), c);
    Concat(Total, delivered, AsBatches(vEnvs), c);
    LanesAddUp(Total, envs, c);
    AppliedReads(start, delivered + AsBatches(vEnvs), c);
    AppliedReads(start, AsBatches(envs), c);
  }

  lemma {:induction false} EmitsOccupied(t: Table)
    ensures |Emit(t)| == Occupied(t)
  {
    if |t| > 0 {
      EmitsOccupied(t[..|t| - 1]);
    }
  }

  lemma {:induction false} EmptyShards(s: Shards)
    requires EmitAll(s) == []
    ensures forall j :: 0 <= j < |s| ==> Occupied(s[j]) == 0
  {
    hide Emit, Occupied;
    if |s| > 0 {
      EmptyShards(s[..|s| - 1]);
      EmitsOccupied(s[|s| - 1]);
    }
  }

  lemma EmptyAccepts(s: Shards, b: SBatch)
    requires AllShaped(s) && EmitAll(s) == []
    ensures Accepts(s, b)
  {
    hide IdOf, EmitAll, Occupied, PowerOfTwo;
    EmptyShards(s);
    AcceptsIffRoom(s, b);
  }

  lemma FiledMore(steps: seq<Step>, step: Step)
    ensures Filed(steps + [step]) == if step.File? then Filed(steps) + [step.env] else Filed(steps)
  {
    assert (steps + [step])[..|steps|] == steps;
  }

  lemma LastStep(s: Shards, steps: seq<Step>, step: Step)
    requires AllShaped(s)
    ensures Run(s, steps + [step]) == After(Run(s, steps), step)
  {
    assert (steps + [step])[..|steps|] == steps;
  }

  // File one envelope into empty shards and flush.
  lemma FileAndFlush(s: Shards, before: seq<Step>, env: Envelope) returns (steps: seq<Step>)
    requires AllShaped(s) && Genuine(s, before) && Completes(s, before) && EmitAll(Run(s, before)) == []
    ensures Filed(steps) == Filed(before) + [env]
    ensures Genuine(s, steps) && Completes(s, steps) && EmitAll(Run(s, steps)) == []
  {
    hide EmitAll, AllShaped, Accepts, Run, Filed;
    EmptyAccepts(Run(s, before), AsBatch(env));
    var filed := before + [File(env)];
    LastStep(s, before, File(env));
    var held := Run(s, filed);
    steps := filed + [Flush(EmitAll(held))];
    LastStep(s, filed, Flush(EmitAll(held)));
    FlushedEmitsNothing(held);
    FiledMore(before, File(env));
    FiledMore(filed, Flush(EmitAll(held)));
    forall i | 0 <= i < |before| ensures steps[..i] == before[..i] && steps[i] == before[i] {
    }
    assert steps[..|before|] == before && steps[..|filed|] == filed;
  }

  lemma NoSteps(s: Shards)
    requires AllShaped(s)
    ensures Run(s, []) == s && Genuine(s, []) && Completes(s, [])
  {
  }

  /** Every log can be run that way, however small the shards: flush after every envelope. */
  lemma {:induction false} FlushEach(p: nat, order: nat, envs: seq<Envelope>) returns (steps: seq<Step>)
    requires p > 0
    ensures Filed(steps) == envs
    ensures Genuine(FreshShards(p, order), steps) && Completes(FreshShards(p, order), steps)
    ensures EmitAll(Run(FreshShards(p, order), steps)) == []
  {
    hide EmitAll, FreshShards, AllShaped, Accepts, Run, Genuine, Completes;
    if |envs| == 0 {
      FreshSound(p, order, {});
      steps := [];
      NoSteps(FreshShards(p, order));
    } else {
      var before := FlushEach(p, order, envs[..|envs| - 1]);
      steps := FileAndFlush(FreshShards(p, order), before, envs[|envs| - 1]);
      assert envs == envs[..|envs| - 1] + [envs[|envs| - 1]];
    }
  }

  // What has been filed since the last flush.
  function Live(steps: seq<Step>): seq<SBatch> {
    if |steps| == 0 || steps[|steps| - 1].Flush? then []
    else Live(steps[..|steps| - 1]) + [AsBatch(steps[|steps| - 1].env)]
  }

  // The shards hold what was filed since the last flush and nothing else.
  lemma {:induction false} HoldsLive(p: nat, order: nat, cells: set<Cell>, steps: seq<Step>)
    requires p > 0 && Separated(cells) && Within(AsBatches(Filed(steps)), cells)
    requires Completes(FreshShards(p, order), steps)
    ensures Run(FreshShards(p, order), steps) == IngestedAll(FreshShards(p, order), Live(steps))
    ensures Files(FreshShards(p, order), Live(steps)) && Within(Live(steps), cells)
    ensures Sound(Run(FreshShards(p, order), steps), cells)
  {
    hide Sound, Separated, Accepts, FreshShards, Finds, Accumulation.Ingested, Pow2, Flushed, CellOf;
    var s := FreshShards(p, order);
    FreshSound(p, order, cells);
    if |steps| > 0 {
      var front, last := steps[..|steps| - 1], steps[|steps| - 1];
      FiledWithin(steps, cells);
      forall i | 0 <= i < |front| ensures front[i] == steps[i] && front[..i] == steps[..i] {
      }
      assert Completes(s, front);
      HoldsLive(p, order, cells, front);
      if last.Flush? {
        forall j | 0 <= j < p ensures |IngestedAll(s, Live(front))[j]| == Pow2(order) {
          SlotsKept(p, order, Live(front), j);
        }
        FlushedIsFresh(p, order, cells, Run(s, front));
      } else {
        var b := AsBatch(last.env);
        FilesMore(s, Live(front), b);
        AcceptsFinds(Run(s, front), b);
        IngestSound(Run(s, front), cells, b);
      }
    }
  }

  /** The exact condition for a run: its probes end if and only if at every filing the distinct cells of
      the shard since the last flush, the new one included, are no more than the shard has slots. More
      shards and more flushes make room; a run always goes through when no shard is the one of more
      cells than it has slots. */
  lemma {:induction false} CompletesIff(p: nat, order: nat, cells: set<Cell>, steps: seq<Step>)
    requires p > 0 && Separated(cells) && Within(AsBatches(Filed(steps)), cells)
    ensures Completes(FreshShards(p, order), steps) <==>
      forall i :: 0 <= i < |steps| && steps[i].File? ==>
        Crowd(p, Live(steps[..i]), AsBatch(steps[i].env)) <= Pow2(order)
    ensures (forall j :: 0 <= j < p ==> |RoutedCells(cells, p, j)| <= Pow2(order)) ==>
      Completes(FreshShards(p, order), steps)
  {
    hide Separated, Accepts, FreshShards, Pow2, Crowd, RoutedCells, CellOf, Run, Live;
    var s := FreshShards(p, order);
    if |steps| > 0 {
      var front, last := steps[..|steps| - 1], steps[|steps| - 1];
      FiledWithin(steps, cells);
      CompletesIff(p, order, cells, front);
      forall i | 0 <= i < |front| ensures front[i] == steps[i] && front[..i] == steps[..i] {
      }
      if Completes(s, steps) {
        assert Completes(s, front);
      }
      if last.File? && Completes(s, front) {
        HoldsLive(p, order, cells, front);
        AcceptsIffFits(p, order, cells, Live(front), AsBatch(last.env));
        CrowdBound(p, cells, Live(front), AsBatch(last.env));
      }
    }
  }

  // A batch filed under an id that leaves what its shard holds at c as it was.
  lemma NotSeen(s: Shards, j: nat, t: Table, c: Cell)
    requires j < |s| && At(Total, Emit(t), c) == At(Total, Emit(s[j]), c) && EmitAll(s) == []
    ensures At(Total, EmitAll(s[j := t]), c) == 0
  {
    ShardUpdate(Total, s, j, t, 0, c);
  }

  lemma ZeroIdBreaks(s: Shards, c: Cell, b: SBatch)
    requires AllShaped(s) && EmitAll(s) == []
    requires Pack(c.0, c.1) == 0 && b == SBatch(c.0, c.1, 1, 0)
    ensures Files(s, [b])
    ensures At(Total, EmitAll(IngestedAll(s, [b])), c) == 0 && At(Total, [b], c) == 1
  {
    hide Pack, Index, Stops, Tables.Ingested, PowerOfTwo;
    EmptyAccepts(s, b);
    AcceptsFinds(s, b);
    var j := Routed(s, b);
    ZeroIdIsLost(s[j], b);
    NotSeen(s, j, Tables.Ingested(s[j], 0, b), c);
    assert [b][..0] == [];
    assert IngestedAll(s, [b]) == s[j := Tables.Ingested(s[j], 0, b)];
    assert Files(s, [b]) by {
      forall i | 0 <= i < 1 ensures Accepts(IngestedAll(s, [b][..i]), [b][i]) {
        assert [b][..i] == [];
      }
    }
    One(Total, b, c);
  }

  // A second batch of the same id is merged into the entry of the first, whatever its cell.
  lemma SecondMerged(t: Table, k: uint64, b: SBatch, b': SBatch)
    requires Shape(t) && Canonical(t) && Stops(t, k) && k != 0 && Index(t, k) < |t| && t[Index(t, k)].id == 0
    ensures var (i, t') := (Index(t, k), Tables.Ingested(t, k, b));
      && Shape(t') && Index(t', k) == i && t'[i] == Merge(t[i], k, b) && k in Ids(t')
      && Tables.Ingested(t', k, b') == t[i := Merge(Merge(t[i], k, b), k, b')]
  {
    hide Index, Stops, PowerOfTwo;
    IngestCanonical(t, k, b);
    var i, t' := Index(t, k), Tables.Ingested(t, k, b);
    assert t'[i].id == k && Ids(t')[i] == k;
    assert t'[i := Merge(t'[i], k, b')] == t[i := Merge(t'[i], k, b')];
  }

  lemma SecondHidden(t: Table, k: uint64, b: SBatch, b': SBatch)
    requires Shape(t) && Canonical(t) && Stops(t, k) && k != 0 && Index(t, k) < |t| && t[Index(t, k)].id == 0
    requires CellOf(b) != CellOf(b')
    ensures var t' := Tables.Ingested(t, k, b);
      && Shape(t') && Index(t', k) < |t'| && k in Ids(t')
      && At(Total, Emit(Tables.Ingested(t', k, b')), CellOf(b')) == At(Total, Emit(t), CellOf(b'))
  {
    hide Index, Stops, PowerOfTwo, Emit, Canonical;
    SecondMerged(t, k, b, b');
    var i := Index(t, k);
    var both := Merge(Merge(t[i], k, b), k, b');
    SlotUpdate(Total, t, i, both, CellOf(b'));
    One(Total, BatchOf(both), CellOf(b'));
  }

  // The shard in which both are filed, step by step.
  lemma FiledTwice(s: Shards, b: SBatch, b': SBatch)
    requires AllShaped(s) && Finds(s, b) && IdOf(b) == IdOf(b')
    requires Accepts(s, b)
    requires var t := Tables.Ingested(s[Routed(s, b)], IdOf(b), b);
      Shape(t) && Index(t, IdOf(b)) < |t| && IdOf(b) in Ids(t)
    ensures Files(s, [b, b'])
    ensures IngestedAll(s, [b, b'])
      == s[Routed(s, b) := Tables.Ingested(Tables.Ingested(s[Routed(s, b)], IdOf(b), b), IdOf(b), b')]
  {
    hide Index, IdOf, PowerOfTwo, Tables.Ingested, Stops, Ids, Occupied;
    var j := Routed(s, b);
    assert [b, b'][..1] == [b] && [b][..0] == [];
    var s' := s[j := Tables.Ingested(s[j], IdOf(b), b)];
    assert IngestedAll(s, [b]) == s';
    assert Finds(s', b');
    AcceptsIffRoom(s', b');
    assert Files(s, [b, b']) by {
      forall i | 0 <= i < 2 ensures Accepts(IngestedAll(s, [b, b'][..i]), [b, b'][i]) {
        assert i == 0 ==> [b, b'][..i] == [];
      }
    }
  }

  lemma SharedIdBreaks(s: Shards, c: Cell, d: Cell, b: SBatch, b': SBatch)
    requires Sound(s, {}) && EmitAll(s) == [] && c != d && Pack(c.0, c.1) == Pack(d.0, d.1) != 0
    requires b == SBatch(c.0, c.1, 1, 0) && b' == SBatch(d.0, d.1, 1, 0)
    ensures Files(s, [b, b'])
    ensures At(Total, EmitAll(IngestedAll(s, [b, b'])), d) == 0 && At(Total, [b, b'], d) == 1
  {
    hide Pack, Index, Stops, Occupied, Canonical, Tidy, Emit, EmitAll, Tables.Ingested, PowerOfTwo;
    EmptyAccepts(s, b);
    AcceptsFinds(s, b);
    EmptyShards(s);
    var j, k := Routed(s, b), IdOf(b);
    NoneOccupied(s[j]);
    SecondHidden(s[j], k, b, b');
    NotSeen(s, j, Tables.Ingested(Tables.Ingested(s[j], k, b), k, b'), d);
    FiledTwice(s, b, b');
    assert [b, b'] == [b] + [b'];
    Append(Total, [b], b', d);
    One(Total, b, d);
  }

  // Filing any batches of these cells, if their probes end, and flushing once loses and misplaces nothing.
  ghost predicate AlwaysCoalesces(p: nat, order: nat, cells: set<Cell>)
    requires p > 0
  {
    forall bs, c | Within(bs, cells) && Files(FreshShards(p, order), bs) ::
      At(Total, EmitAll(IngestedAll(FreshShards(p, order), bs)), c) == At(Total, bs, c)
  }

  lemma SharedOrZero(p: nat, order: nat, cells: set<Cell>)
    requires p > 0 && AlwaysCoalesces(p, order, cells)
    ensures Separated(cells)
  {
    hide Pack, Pow2, EmitAll, IngestedAll, Sound, Files, FreshShards;
    var s := FreshShards(p, order);
    FreshSound(p, order, {});
    forall c | c in cells ensures Pack(c.0, c.1) != 0 {
      if Pack(c.0, c.1) == 0 {
        assert Within([SBatch(c.0, c.1, 1, 0)], cells);
        ZeroIdBreaks(s, c, SBatch(c.0, c.1, 1, 0));
      }
    }
    forall c, d | c in cells && d in cells && Pack(c.0, c.1) == Pack(d.0, d.1) ensures c == d {
      if c != d {
        var b, b' := SBatch(c.0, c.1, 1, 0), SBatch(d.0, d.1, 1, 0);
        assert Within([b, b'], cells);
        SharedIdBreaks(s, c, d, b, b');
      }
    }
  }

  /** Packed ids that are nonzero and distinct are not just enough but necessary: every sequence of batches
      that can be filed at all comes out of the shards with the right totals if and only if the ids of
      the cells separate them, whatever the number and size of the shards. */
  lemma SeparationExact(p: nat, order: nat, cells: set<Cell>)
    requires p > 0
    ensures AlwaysCoalesces(p, order, cells) <==> Separated(cells)
  {
    hide Pack, Pow2, EmitAll, IngestedAll, Sound, Separated, Files, FreshShards;
    if Separated(cells) {
      var s := FreshShards(p, order);
      FreshSound(p, order, cells);
      forall bs, c | Within(bs, cells) && Files(s, bs)
        ensures At(Total, EmitAll(IngestedAll(s, bs)), c) == At(Total, bs, c)
      {
        FlushAllCoalesces(s, cells, bs, c);
      }
    } else if AlwaysCoalesces(p, order, cells) {
      SharedOrZero(p, order, cells);
    }
  }

  /** The cells of one key satisfy it exactly when their buckets differ in the low 63 bits and none of
      them doubles to the mixed key, which is odd, and so never is one, for an odd key. */
  lemma OneKeySeparated(key: uint64, cells: set<Cell>)
    requires forall c :: c in cells ==> c.0 == key
    ensures Separated(cells) <==>
      && (forall c :: c in cells ==> 2 * (c.1 % HALF_WORD) != MixedKey(key))
      && (forall c, d :: c in cells && d in cells && c.1 % HALF_WORD == d.1 % HALF_WORD ==> c == d)
    ensures key % 2 == 1 ==> forall c :: c in cells ==> 2 * (c.1 % HALF_WORD) != MixedKey(key)
  {
    hide Pack, MixedKey;
    MixedKeyParity(key);
    forall c | c in cells ensures Pack(c.0, c.1) == 0 <==> 2 * (c.1 % HALF_WORD) == MixedKey(key) {
      ZeroIdAt(key, c.1);
    }
    forall c, d | c in cells && d in cells
      ensures Pack(c.0, c.1) == Pack(d.0, d.1) <==> c.1 % HALF_WORD == d.1 % HALF_WORD
    {
      BucketsSeparate(key, c.1, d.1);
    }
  }

  /** One bucket satisfies it exactly when no key in use mixes to twice the bucket. */
  lemma OneBucketSeparated(bucket: uint64, cells: set<Cell>)
    requires forall c :: c in cells ==> c.1 == bucket
    ensures Separated(cells) <==> forall c :: c in cells ==> MixedKey(c.0) != 2 * (bucket % HALF_WORD)
  {
    hide Pack, MixedKey;
    forall c | c in cells ensures Pack(c.0, c.1) == 0 <==> MixedKey(c.0) == 2 * (bucket % HALF_WORD) {
      ZeroIdAt(c.0, bucket);
    }
    forall c, d | c in cells && d in cells && Pack(c.0, c.1) == Pack(d.0, d.1) ensures c == d {
      KeysSeparate(c.0, d.0, bucket);
    }
  }
}
