/** A shard over whole runs of filing, flushing and flushing one key. */
module ShardRuns {
  import opened Bits
  import opened Packing
  import opened Envelopes
  import opened Tables
  import Probing

  datatype Op = Ingest(b: SBatch) | Flush | FlushKey(key: uint64)

  datatype State = State(t: Table, out: seq<SBatch>)

  function Do(s: State, op: Op): (r: State)
    requires Shape(s.t)
    ensures Shape(r.t) && |r.t| == |s.t|
  {
    match op
    case Ingest(b) => if Index(s.t, IdOf(b)) < |s.t| then s.(t := Ingested(s.t, IdOf(b), b)) else s
    case Flush => State(Kept(s.t, {}, true), s.out + Taken(s.t, {}, true))
    case FlushKey(key) => State(Kept(s.t, {key}, false), s.out + Taken(s.t, {key}, false))
  }

  function Run(s: State, ops: seq<Op>): (r: State)
    requires Shape(s.t)
    ensures Shape(r.t) && |r.t| == |s.t|
  {
    if |ops| == 0 then s else Do(Run(s, ops[..|ops| - 1]), ops[|ops| - 1])
  }

  // No probe of the run goes on forever.
  ghost predicate Completes(s: State, ops: seq<Op>)
    requires Shape(s.t)
  {
    forall i :: 0 <= i < |ops| && ops[i].Ingest? ==> Stops(Run(s, ops[..i]).t, IdOf(ops[i].b))
  }

  function Inputs(ops: seq<Op>): seq<SBatch> {
    if |ops| == 0 then []
    else Inputs(ops[..|ops| - 1]) + (if ops[|ops| - 1].Ingest? then [ops[|ops| - 1].b] else [])
  }

  function Vacant(order: nat): (t: Table)
    ensures Shape(t) && |t| == Pow2(order)
  {
    PowIsPowerOfTwo(order);
    seq(Pow2(order), i => Slot(0, 0, 0, 0, 0))
  }

  lemma {:induction false} VacantEmits(t: Table)
    requires forall i :: 0 <= i < |t| ==> t[i].id == 0
    ensures Emit(t) == []
  {
    if |t| > 0 {
      VacantEmits(t[..|t| - 1]);
    }
  }

  lemma FlushStep(m: Measure, s: State, only: set<uint64>, every: bool, cells: set<Cell>, c: Cell)
    requires Shape(s.t) && Tidy(s.t, cells)
    ensures Tidy(Kept(s.t, only, every), cells)
    ensures Combine(m, At(m, s.out + Taken(s.t, only, every), c), At(m, Emit(Kept(s.t, only, every)), c))
      == Combine(m, At(m, s.out, c), At(m, Emit(s.t), c))
  {
    var taken, kept := Taken(s.t, only, every), Kept(s.t, only, every);
    FlushConserves(m, s.t, only, every, c);
    Concat(m, s.out, taken, c);
    Shuffle(m, At(m, s.out, c), At(m, taken, c), At(m, Emit(kept), c));
  }

  lemma IngestStep(m: Measure, s: State, b: SBatch, cells: set<Cell>, c: Cell)
    requires m != Count && Shape(s.t) && Tidy(s.t, cells) && Separated(cells)
    requires CellOf(b) in cells && Stops(s.t, IdOf(b))
    ensures Tidy(Do(s, Ingest(b)).t, cells)
    ensures var s' := Do(s, Ingest(b));
      Combine(m, At(m, s'.out, c), At(m, Emit(s'.t), c))
        == Combine(m, Combine(m, At(m, s.out, c), At(m, Emit(s.t), c)), Weigh(m, b, c))
  {
    hide Home, Pack;
    IngestTidy(s.t, cells, b);
    IngestConserves(m, s.t, cells, b, c);
    Shuffle(m, At(m, s.out, c), At(m, Emit(s.t), c), Weigh(m, b, c));
  }

  // One step hands on exactly what it took in.
  lemma StepConserves(m: Measure, s: State, op: Op, cells: set<Cell>, c: Cell)
    requires m != Count && Shape(s.t) && Tidy(s.t, cells) && Separated(cells)
    requires op.Ingest? ==> CellOf(op.b) in cells && Stops(s.t, IdOf(op.b))
    ensures Tidy(Do(s, op).t, cells)
    ensures var s' := Do(s, op);
      Combine(m, At(m, s'.out, c), At(m, Emit(s'.t), c))
        == Combine(m, Combine(m, At(m, s.out, c), At(m, Emit(s.t), c)), At(m, Inputs([op]), c))
  {
    hide Home, Pack, Index, Kept, Taken, Emit, Tidy, Separated, Stops, Shape;
    assert [op][..0] == [];
    match op {
      case Ingest(b) =>
        assert Inputs([op]) == [b];
        One(m, b, c);
        IngestStep(m, s, b, cells, c);
      case Flush =>
        assert Inputs([op]) == [];
        FlushStep(m, s, {}, true, cells, c);
      case FlushKey(key) =>
        assert Inputs([op]) == [];
        FlushStep(m, s, {key}, false, cells, c);
    }
  }

  lemma InputsAppend(ops: seq<Op>, op: Op)
    ensures Inputs(ops + [op]) == Inputs(ops) + Inputs([op])
  {
    assert (ops + [op])[..|ops|] == ops;
    assert [op][..0] == [];
  }

  /** Over every run whose probes end, flushing keys in the middle of probe chains included, what was
      filed for a cell is what was emitted plus what is held, in total and in greatest sequence
      number. */
  lemma {:induction false} RunConserves(m: Measure, order: nat, ops: seq<Op>, cells: set<Cell>, c: Cell)
    requires m != Count && Separated(cells) && Within(Inputs(ops), cells)
    requires Completes(State(Vacant(order), []), ops)
    ensures var s := Run(State(Vacant(order), []), ops);
      && Tidy(s.t, cells)
      && Combine(m, At(m, s.out, c), At(m, Emit(s.t), c)) == At(m, Inputs(ops), c)
  {
    var s0 := State(Vacant(order), []);
    if |ops| == 0 {
      VacantEmits(s0.t);
    } else {
      var (before, op) := (ops[..|ops| - 1], ops[|ops| - 1]);
      assert ops == before + [op];
      InputsAppend(before, op);
      forall i | 0 <= i < |before| ensures before[i] == ops[i] && before[..i] == ops[..i] {
      }
      assert Completes(s0, before);
      assert op.Ingest? ==> op.b in Inputs(ops);
      RunConserves(m, order, before, cells, c);
      StepConserves(m, Run(s0, before), op, cells, c);
      Concat(m, Inputs(before), Inputs([op]), c);
    }
  }

  lemma StepOccupies(s: State, op: Op)
    requires Shape(s.t)
    ensures Occupied(Do(s, op).t) <= Occupied(s.t) + (if op.Ingest? then 1 else 0)
  {
    hide Index, Kept, Taken, Emit, Pack, PowerOfTwo;
    match op {
      case Ingest(b) =>
        var i := Index(s.t, IdOf(b));
        if i < |s.t| {
          OccupiedUpdate(s.t, i, Merge(s.t[i], IdOf(b), b));
        }
      case Flush => OccupiedAfter(s.t, {}, true);
      case FlushKey(key) => OccupiedAfter(s.t, {key}, false);
    }
  }

  lemma {:induction false} RunOccupies(s: State, ops: seq<Op>)
    requires Shape(s.t)
    ensures Occupied(Run(s, ops).t) <= Occupied(s.t) + |Inputs(ops)|
  {
    hide Do;
    if |ops| > 0 {
      RunOccupies(s, ops[..|ops| - 1]);
      StepOccupies(Run(s, ops[..|ops| - 1]), ops[|ops| - 1]);
    }
  }

  lemma {:induction false} FewerInputs(ops: seq<Op>, i: nat)
    requires i < |ops| && ops[i].Ingest?
    ensures |Inputs(ops[..i])| < |Inputs(ops)|
  {
    if i < |ops| - 1 {
      FewerInputs(ops[..|ops| - 1], i);
      assert ops[..|ops| - 1][..i] == ops[..i];
    }
  }

  /** A run goes through if and only if, whenever something is filed, a slot is free or its id is in the
      table; a run that files no more batches than there are free slots at its start always does,
      however keys are flushed in between. */
  lemma CompletesIff(s: State, ops: seq<Op>)
    requires Shape(s.t)
    ensures Completes(s, ops) <==> forall i :: 0 <= i < |ops| && ops[i].Ingest? ==>
      var t := Run(s, ops[..i]).t; Occupied(t) < |t| || IdOf(ops[i].b) in Ids(t)
    ensures Occupied(s.t) + |Inputs(ops)| <= |s.t| ==> Completes(s, ops)
  {
    hide Do, Stops, IdOf, Occupied;
    forall i | 0 <= i < |ops| && ops[i].Ingest?
      ensures var t := Run(s, ops[..i]).t; Stops(t, IdOf(ops[i].b)) <==> Occupied(t) < |t| || IdOf(ops[i].b) in Ids(t)
      ensures Occupied(Run(s, ops[..i]).t) <= Occupied(s.t) + |Inputs(ops)| - 1
    {
      StopsIffRoom(Run(s, ops[..i]).t, IdOf(ops[i].b));
      RunOccupies(s, ops[..i]);
      FewerInputs(ops, i);
    }
  }

  // A flush of this key clears no slot that the probe for an entry of another key passes.
  predicate CutsNothing(t: Table, key: uint64)
    requires Shape(t)
  {
    forall i :: 0 <= i < |t| && t[i].id != 0 && Cut(t, {key}, false, i) ==> Flushes(t[i], {key}, false)
  }

  lemma StepCanonicalIff(s: State, op: Op)
    requires Shape(s.t) && Canonical(s.t) && (op.Ingest? ==> Stops(s.t, IdOf(op.b)) && IdOf(op.b) != 0)
    ensures Canonical(Do(s, op).t) <==> (op.FlushKey? ==> CutsNothing(s.t, op.key))
  {
    hide Index, Cut, Canonical, PowerOfTwo, Pack, Stops;
    match op {
      case Ingest(b) =>
        IndexHits(s.t, IdOf(b));
        IngestCanonical(s.t, IdOf(b), b);
      case Flush => FlushAllCanonical(s.t);
      case FlushKey(key) => KeptCanonicalIff(s.t, {key}, false);
    }
  }

  lemma VacantCanonical(order: nat)
    ensures Canonical(Vacant(order))
  {
  }

  /** Over a run whose probes end, every entry is at every moment where its probe ends if and only if no
      flush of a key clears a slot that the probe for an entry of another key passes. */
  lemma {:induction false} RunCanonicalIff(order: nat, ops: seq<Op>, cells: set<Cell>)
    requires Separated(cells) && Within(Inputs(ops), cells) && Completes(State(Vacant(order), []), ops)
    ensures var s := State(Vacant(order), []);
      (forall i :: 0 <= i <= |ops| ==> Canonical(Run(s, ops[..i]).t)) <==>
      (forall i :: 0 <= i < |ops| && ops[i].FlushKey? ==> CutsNothing(Run(s, ops[..i]).t, ops[i].key))
  {
    hide Do, Canonical, CutsNothing, Stops, Pack, Vacant, PowerOfTwo;
    var s := State(Vacant(order), []);
    if |ops| == 0 {
      VacantCanonical(order);
    } else {
      var (before, op) := (ops[..|ops| - 1], ops[|ops| - 1]);
      assert ops == before + [op] && ops[..|ops|] == ops;
      InputsAppend(before, op);
      forall i | 0 <= i < |before| ensures before[i] == ops[i] && before[..i] == ops[..i] {
      }
      assert before[..|before|] == before;
      RunCanonicalIff(order, before, cells);
      if op.Ingest? {
        assert op.b in Inputs(ops);
        assert IdOf(op.b) == Pack(CellOf(op.b).0, CellOf(op.b).1);
      }
      if Canonical(Run(s, before).t) {
        StepCanonicalIff(Run(s, before), op);
      }
    }
  }

  // A probe that starts at slot 1 of a table of two.
  lemma OddSlot(t: Table, k: uint64)
    requires Shape(t) && |t| == 2 && Home(2, k) == 1
    ensures t[1].id == 0 || t[1].id == k ==> Index(t, k) == 1 && Stops(t, k)
    ensures !(t[1].id == 0 || t[1].id == k) && (t[0].id == 0 || t[0].id == k) ==> Index(t, k) == 0 && Stops(t, k)
  {
    assert Ids(t) == [t[0].id, t[1].id];
    if t[1].id == 0 || t[1].id == k {
      assert Probing.Hit(Ids(t), 0, k, 1);
    } else if t[0].id == 0 || t[0].id == k {
      assert Probing.Hit(Ids(t), 0, k, 0);
      Probing.StepsUnique(Ids(t), 0, k, 1, 1);
    }
  }

  lemma OddHome(k: uint64)
    requires k % 2 == 1
    ensures Shape(Vacant(1)) && |Vacant(1)| == 2 && Home(2, k) == 1
  {
    assert Pow2(1) == 2;
    PowIsPowerOfTwo(1);
    MaskBelow(k, 2);
  }

  lemma RunStep(s: State, ops: seq<Op>, i: nat)
    requires Shape(s.t) && i < |ops|
    ensures Run(s, ops[..i + 1]) == Do(Run(s, ops[..i]), ops[i])
  {
    assert ops[..i + 1][..i] == ops[..i];
  }

  // In a table of two, an odd id is filed in slot 1 unless another id is there.
  lemma FiledOdd(lower: Slot, upper: Slot, k: uint64, b: SBatch)
    requires PowerOfTwo(2) && Home(2, k) == 1
    ensures var t := [lower, upper];
      && Shape(t)
      && (upper.id == 0 || upper.id == k ==>
            Stops(t, k) && Index(t, k) == 1 && Ingested(t, k, b) == [lower, Merge(upper, k, b)])
      && (upper.id != 0 && upper.id != k && (lower.id == 0 || lower.id == k) ==>
            Stops(t, k) && Index(t, k) == 0 && Ingested(t, k, b) == [Merge(lower, k, b), upper])
      && (upper.id != 0 && upper.id != k && lower.id != 0 && lower.id != k ==> !Stops(t, k))
  {
    hide Home, PowerOfTwo;
    OddSlot([lower, upper], k);
    assert Ids([lower, upper]) == [lower.id, upper.id];
  }

  lemma TwoSlots(s: Slot, c: Cell)
    requires s.id != 0 && CellOf(BatchOf(s)) == c
    ensures At(Count, Emit([s, s]), c) == 2
  {
    hide At;
    assert [s, s] == [s] + [s];
    EmitConcat([s], [s]);
    EmitOne(s);
    Concat(Count, Entry(s), Entry(s), c);
    One(Count, BatchOf(s), c);
  }

  // Two odd ids in a table of two: filed, one key flushed, the other filed again.
  lemma HangingTables(x: uint64, y: uint64, a: SBatch, b: SBatch)
    returns (t1: Table, t2: Table, t3: Table, t4: Table)
    requires PowerOfTwo(2) && Home(2, x) == Home(2, y) == 1 && x != 0 && y != 0 && x != y && a.keyId != b.keyId
    ensures var t0 := Vacant(1);
      && Stops(t0, x) && Index(t0, x) < |t0| && t1 == Ingested(t0, x, a)
      && Shape(t1) && Stops(t1, y) && Index(t1, y) < |t1| && t2 == Ingested(t1, y, b)
      && t3 == Kept(t2, {a.keyId}, false)
      && Shape(t3) && Stops(t3, y) && Index(t3, y) < |t3| && t4 == Ingested(t3, y, b)
      && !Stops(t4, x) && At(Count, Emit(t4), CellOf(b)) == 2
  {
    hide Home, PowerOfTwo;
    var free := Slot(0, 0, 0, 0, 0);
    var (sa, sb) := (Merge(free, x, a), Merge(free, y, b));
    assert Pow2(1) == 2;
    assert Vacant(1) == [free, free];
    t1, t2, t3, t4 := [free, sa], [sb, sa], [sb, free], [sb, sb];
    FiledOdd(free, free, x, a);
    FiledOdd(free, sa, y, b);
    assert Kept(t2, {a.keyId}, false) == t3;
    FiledOdd(sb, free, y, b);
    FiledOdd(sb, sb, x, a);
    TwoSlots(sb, CellOf(b));
  }

  lemma OddIds(k: uint64, k': uint64)
    requires k % 2 == k' % 2 == 1 && k != k'
    ensures PowerOfTwo(2) && |Vacant(1)| == 2
    ensures Home(2, Pack(k, 0)) == Home(2, Pack(k', 0)) == 1
    ensures Pack(k, 0) != 0 && Pack(k', 0) != 0 && Pack(k, 0) != Pack(k', 0)
  {
    hide *;
    OddKeyOddId(k);
    OddKeyOddId(k');
    OddHome(Pack(k, 0));
    OddHome(Pack(k', 0));
    if Pack(k, 0) == Pack(k', 0) {
      KeysSeparate(k, k', 0);
    }
  }

  /** Flushing one key can leave a cell in two slots, so that it is emitted twice, and then a table as large
      as the number of cells in use makes a probe run forever: two cells with odd keys, two slots. */
  lemma FlushKeyCanHang(a: SBatch, b: SBatch, ops: seq<Op>)
    requires a.keyId % 2 == b.keyId % 2 == 1 && a.keyId != b.keyId && a.bucketId == b.bucketId == 0
    requires ops == [Ingest(a), Ingest(b), FlushKey(a.keyId), Ingest(b)]
    ensures Separated({CellOf(a), CellOf(b)}) && |Vacant(1)| == |{CellOf(a), CellOf(b)}|
    ensures Completes(State(Vacant(1), []), ops)
    ensures var t := Run(State(Vacant(1), []), ops).t;
      At(Count, Emit(t), CellOf(b)) == 2 && !Stops(t, IdOf(a))
  {
    hide Home, Pack, PowerOfTwo, Index, Kept, Merge, Vacant, Stops, Taken, Emit;
    OddIds(a.keyId, b.keyId);
    var t1, t2, t3, t4 := HangingTables(IdOf(a), IdOf(b), a, b);
    var s0 := State(Vacant(1), []);
    assert ops[..0] == [] && ops[..4] == ops;
    RunStep(s0, ops, 0);
    assert Run(s0, ops[..1]).t == t1;
    RunStep(s0, ops, 1);
    assert Run(s0, ops[..2]).t == t2;
    RunStep(s0, ops, 2);
    assert Run(s0, ops[..3]).t == t3;
    RunStep(s0, ops, 3);
    assert Run(s0, ops[..4]).t == t4;
  }
}
