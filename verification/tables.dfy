/** The open-addressed table of a shard, as a value: filing, flushing and what they conserve. */
module Tables {
  import opened Bits
  import opened Packing
  import opened Envelopes
  import Probing

  // id 0 marks a free slot.
  datatype Slot = Slot(id: uint64, keyId: uint64, bucketId: uint64, sum: int, seqEnd: uint64)

  type Table = seq<Slot>

  predicate Shape(t: Table) {
    |t| > 0 && PowerOfTwo(|t|)
  }

  function Ids(t: Table): seq<uint64> {
    seq(|t|, i requires 0 <= i < |t| => t[i].id)
  }

  function Home(n: nat, k: uint64): (h: nat)
    requires n > 0 && PowerOfTwo(n)
    ensures h < n
  {
    MaskBelow(k, n);
    BitAnd(k, n - 1)
  }

  function Index(t: Table, k: uint64): nat
    requires Shape(t)
  {
    Probing.Slot(Ids(t), 0, k, Home(|t|, k))
  }

  // The probe for k finds a free slot or k itself.
  ghost predicate Stops(t: Table, k: uint64) {
    Probing.Terminates(Ids(t), 0, k)
  }

  lemma IndexHits(t: Table, k: uint64)
    requires Shape(t) && Stops(t, k)
    ensures Index(t, k) < |t| && (t[Index(t, k)].id == 0 || t[Index(t, k)].id == k)
  {
    Probing.StopsIff(Ids(t), 0, k, Home(|t|, k));
  }

  function Occupied(t: Table): nat {
    if |t| == 0 then 0 else Occupied(t[..|t| - 1]) + (if t[|t| - 1].id == 0 then 0 else 1)
  }

  /** Where a probe ends: at the first slot that is free or holds the id, from the id modulo the number of
      slots upwards and around the end. */
  lemma ProbeIs(t: Table, k: uint64, i: nat)
    requires Shape(t) && i < |t| && (t[i].id == 0 || t[i].id == k)
    requires var home := k % |t|;
      forall j :: 0 <= j < |t| && (if home <= i then home <= j < i else j < i || home <= j) ==>
        t[j].id != 0 && t[j].id != k
    ensures Stops(t, k) && Index(t, k) == i
  {
    hide BitAnd, PowerOfTwo;
    var (n, home) := (|t|, Home(|t|, k));
    MaskBelow(k, n);
    assert home == k % n;
    hide Home;
    var d := Probing.Reaching(n, home, i);
    assert Probing.Hit(Ids(t), 0, k, i);
    Probing.StepsUnique(Ids(t), 0, k, home, d);
  }

  lemma {:induction false} FullIffOccupied(t: Table)
    ensures Occupied(t) <= |t|
    ensures Occupied(t) == |t| <==> forall i :: 0 <= i < |t| ==> t[i].id != 0
  {
    if |t| > 0 {
      FullIffOccupied(t[..|t| - 1]);
    }
  }

  /** A probe ends if and only if a slot is free or the id is already filed. */
  lemma StopsIffRoom(t: Table, k: uint64)
    ensures Stops(t, k) <==> Occupied(t) < |t| || k in Ids(t)
  {
    FullIffOccupied(t);
    if Occupied(t) < |t| {
      var i :| 0 <= i < |t| && t[i].id == 0;
      assert Probing.Hit(Ids(t), 0, k, i);
    } else if k in Ids(t) {
      var i :| 0 <= i < |Ids(t)| && Ids(t)[i] == k;
      assert Probing.Hit(Ids(t), 0, k, i);
    }
  }

  function BatchOf(s: Slot): SBatch {
    SBatch(s.keyId, s.bucketId, s.sum, s.seqEnd)
  }

  function Entry(s: Slot): seq<SBatch> {
    if s.id == 0 then [] else [BatchOf(s)]
  }

  // What a flush emits, in slot order.
  function Emit(t: Table): seq<SBatch> {
    if |t| == 0 then [] else Emit(t[..|t| - 1]) + Entry(t[|t| - 1])
  }

  function Merge(s: Slot, k: uint64, b: SBatch): Slot {
    var claimed := if s.id == 0 then s.(id := k, keyId := b.keyId, bucketId := b.bucketId) else s;
    claimed.(sum := s.sum + b.netDelta, seqEnd := if b.seqEnd > s.seqEnd then b.seqEnd else s.seqEnd)
  }

  // Files b under id k where the probe for k ends.
  function Ingested(t: Table, k: uint64, b: SBatch): Table
    requires Shape(t) && Index(t, k) < |t|
  {
    t[Index(t, k) := Merge(t[Index(t, k)], k, b)]
  }

  // A slot that a flush of this key, or of every key, clears.
  predicate Flushes(s: Slot, only: set<uint64>, every: bool) {
    s.id != 0 && (every || s.keyId in only)
  }

  function Kept(t: Table, only: set<uint64>, every: bool): (r: Table)
    ensures |r| == |t|
    ensures forall i :: 0 <= i < |t| ==> r[i] == if Flushes(t[i], only, every) then Slot(0, 0, 0, 0, 0) else t[i]
  {
    seq(|t|, i requires 0 <= i < |t| => if Flushes(t[i], only, every) then Slot(0, 0, 0, 0, 0) else t[i])
  }

  function Taken(t: Table, only: set<uint64>, every: bool): seq<SBatch> {
    if |t| == 0 then []
    else
      var before := Taken(t[..|t| - 1], only, every);
      if Flushes(t[|t| - 1], only, every) then before + [BatchOf(t[|t| - 1])] else before
  }

  // Free slots hold nothing, and every entry is filed under the id of its cell, one of those in use.
  ghost predicate Tidy(t: Table, cells: set<Cell>) {
    forall i :: 0 <= i < |t| ==>
      if t[i].id == 0 then t[i] == Slot(0, 0, 0, 0, 0)
      else (t[i].keyId, t[i].bucketId) in cells && Pack(t[i].keyId, t[i].bucketId) == t[i].id
  }

  // Every entry is where a probe for its id ends.
  ghost predicate Canonical(t: Table)
    requires Shape(t)
  {
    forall i :: 0 <= i < |t| && t[i].id != 0 ==> Index(t, t[i].id) == i
  }

  lemma {:induction false} EmitConcat(a: Table, b: Table)
    ensures Emit(a + b) == Emit(a) + Emit(b)
  {
    hide Entry;
    if |b| == 0 {
      assert a + b == a;
    } else {
      EmitConcat(a, b[..|b| - 1]);
      assert (a + b)[..|a + b| - 1] == a + b[..|b| - 1];
    }
  }

  lemma EmitOne(s: Slot)
    ensures Emit([s]) == Entry(s)
  {
    assert [s][..0] == [];
  }

  lemma EmitSplit(t: Table, i: nat, s: Slot)
    requires i < |t|
    ensures Emit(t[i := s]) == Emit(t[..i]) + Entry(s) + Emit(t[i + 1..])
  {
    hide Emit, Entry;
    EmitOne(s);
    EmitConcat(t[..i] + [s], t[i + 1..]);
    EmitConcat(t[..i], [s]);
    assert t[i := s] == t[..i] + [s] + t[i + 1..];
  }

  // An update of one slot changes what the table holds by that entry alone.
  lemma SlotUpdate(m: Measure, t: Table, i: nat, s: Slot, c: Cell)
    requires i < |t|
    ensures var rest := Combine(m, At(m, Emit(t[..i]), c), At(m, Emit(t[i + 1..]), c));
      && At(m, Emit(t), c) == Combine(m, rest, At(m, Entry(t[i]), c))
      && At(m, Emit(t[i := s]), c) == Combine(m, rest, At(m, Entry(s), c))
  {
    var a, b := Emit(t[..i]), Emit(t[i + 1..]);
    EmitSplit(t, i, s);
    EmitSplit(t, i, t[i]);
    assert t[i := t[i]] == t;
    Middle(m, a, Entry(t[i]), b, c);
    Middle(m, a, Entry(s), b, c);
  }

  lemma MergeEntry(m: Measure, s: Slot, k: uint64, b: SBatch, c: Cell)
    requires k != 0 && (if s.id == 0 then s == Slot(0, 0, 0, 0, 0) else CellOf(BatchOf(s)) == CellOf(b))
    ensures At(m, Entry(Merge(s, k, b)), c) ==
      if m == Count && s.id != 0 then At(m, Entry(s), c) else Combine(m, At(m, Entry(s), c), Weigh(m, b, c))
  {
    One(m, BatchOf(Merge(s, k, b)), c);
    One(m, BatchOf(s), c);
  }

  // With separated ids, the entry a batch is merged into is that of its own cell.
  lemma SameCell(t: Table, cells: set<Cell>, b: SBatch)
    requires Shape(t) && Tidy(t, cells) && Separated(cells) && CellOf(b) in cells && Stops(t, IdOf(b))
    ensures Index(t, IdOf(b)) < |t| && IdOf(b) != 0
    ensures var s := t[Index(t, IdOf(b))];
      if s.id == 0 then s == Slot(0, 0, 0, 0, 0) else s.id == IdOf(b) && CellOf(BatchOf(s)) == CellOf(b)
  {
    hide Index, Home;
    assert IdOf(b) == Pack(CellOf(b).0, CellOf(b).1);
    IndexHits(t, IdOf(b));
  }

  /** Filing a batch adds it to what the table holds at its cell, as one more entry if its probe ended
      at a free slot, and changes nothing anywhere else. */
  lemma IngestConserves(m: Measure, t: Table, cells: set<Cell>, b: SBatch, c: Cell)
    requires Shape(t) && Tidy(t, cells) && Separated(cells) && CellOf(b) in cells && Stops(t, IdOf(b))
    ensures Index(t, IdOf(b)) < |t|
    ensures At(m, Emit(Ingested(t, IdOf(b), b)), c) ==
      if m == Count && t[Index(t, IdOf(b))].id != 0 then At(m, Emit(t), c)
      else Combine(m, At(m, Emit(t), c), Weigh(m, b, c))
  {
    hide Index, Stops, Tidy, Separated, IdOf, Emit, Entry, At, Weigh, PowerOfTwo;
    SameCell(t, cells, b);
    var i := Index(t, IdOf(b));
    var merged := Merge(t[i], IdOf(b), b);
    MergeEntry(m, t[i], IdOf(b), b, c);
    SlotUpdate(m, t, i, merged, c);
  }

  lemma IngestTidy(t: Table, cells: set<Cell>, b: SBatch)
    requires Shape(t) && Tidy(t, cells) && Separated(cells) && CellOf(b) in cells && Stops(t, IdOf(b))
    ensures Index(t, IdOf(b)) < |t|
    ensures Shape(Ingested(t, IdOf(b), b)) && Tidy(Ingested(t, IdOf(b), b), cells)
  {
    SameCell(t, cells, b);
  }

  /** A batch whose id is 0 is filed in a slot that stays free: nothing emitted later contains it. */
  lemma ZeroIdIsLost(t: Table, b: SBatch)
    requires Shape(t) && Stops(t, 0) && Index(t, 0) < |t|
    ensures Emit(Ingested(t, 0, b)) == Emit(t)
  {
    IndexHits(t, 0);
    var i := Index(t, 0);
    EmitSplit(t, i, t[i]);
    assert t[i := t[i]] == t;
    EmitSplit(t, i, Merge(t[i], 0, b));
  }

  lemma FlushedLast(t: Table, only: set<uint64>, every: bool)
    requires |t| > 0 && Flushes(t[|t| - 1], only, every)
    ensures var (front, last) := (t[..|t| - 1], t[|t| - 1]);
      && Emit(Kept(t, only, every)) == Emit(Kept(front, only, every))
      && Taken(t, only, every) == Taken(front, only, every) + Entry(last)
  {
    assert Kept(t, only, every)[..|t| - 1] == Kept(t[..|t| - 1], only, every);
  }

  lemma KeptLast(t: Table, only: set<uint64>, every: bool)
    requires |t| > 0 && !Flushes(t[|t| - 1], only, every)
    ensures var (front, last) := (t[..|t| - 1], t[|t| - 1]);
      && Emit(Kept(t, only, every)) == Emit(Kept(front, only, every)) + Entry(last)
      && Taken(t, only, every) == Taken(front, only, every)
  {
    assert Kept(t, only, every)[..|t| - 1] == Kept(t[..|t| - 1], only, every);
  }

  /** Flushing, of one key or all, splits what the table held into what is emitted and what stays. */
  lemma {:induction false} FlushConserves(m: Measure, t: Table, only: set<uint64>, every: bool, c: Cell)
    ensures At(m, Emit(t), c)
      == Combine(m, At(m, Taken(t, only, every), c), At(m, Emit(Kept(t, only, every)), c))
  {
    if |t| > 0 {
      var front, last := t[..|t| - 1], t[|t| - 1];
      FlushConserves(m, front, only, every, c);
      Concat(m, Emit(front), Entry(last), c);
      Shuffle(m, At(m, Taken(front, only, every), c), At(m, Emit(Kept(front, only, every)), c), At(m, Entry(last), c));
      if Flushes(last, only, every) {
        FlushedLast(t, only, every);
        Concat(m, Taken(front, only, every), Entry(last), c);
      } else {
        KeptLast(t, only, every);
        Concat(m, Emit(Kept(front, only, every)), Entry(last), c);
      }
    }
  }

  lemma EntryElsewhere(m: Measure, s: Slot, c: Cell)
    ensures s.id == 0 || s.keyId != c.0 ==> At(m, Entry(s), c) == 0
  {
    One(m, BatchOf(s), c);
  }

  /** A flush of one key emits all that is held for its cells and nothing else, and leaves the rest. */
  lemma {:induction false} FlushKeyTakes(m: Measure, t: Table, key: uint64, c: Cell)
    ensures At(m, Taken(t, {key}, false), c) == if c.0 == key then At(m, Emit(t), c) else 0
    ensures At(m, Emit(Kept(t, {key}, false)), c) == if c.0 == key then 0 else At(m, Emit(t), c)
  {
    hide At, Entry;
    Absent(m, [], c);
    if |t| > 0 {
      var front, last := t[..|t| - 1], t[|t| - 1];
      var kept := Kept(t, {key}, false);
      FlushKeyTakes(m, front, key, c);
      assert kept[..|t| - 1] == Kept(front, {key}, false);
      Concat(m, Emit(front), Entry(last), c);
      EntryElsewhere(m, last, c);
      if Flushes(last, {key}, false) {
        FlushedLast(t, {key}, false);
        Concat(m, Taken(front, {key}, false), Entry(last), c);
      } else {
        KeptLast(t, {key}, false);
        Concat(m, Emit(Kept(front, {key}, false)), Entry(last), c);
      }
    }
  }

  lemma {:induction false} FlushAllEmits(t: Table)
    ensures Taken(t, {}, true) == Emit(t)
    ensures Emit(Kept(t, {}, true)) == [] && Occupied(Kept(t, {}, true)) == 0
  {
    if |t| > 0 {
      FlushAllEmits(t[..|t| - 1]);
      assert Kept(t, {}, true)[..|t| - 1] == Kept(t[..|t| - 1], {}, true);
    }
  }

  lemma {:induction false} OccupiedAfter(t: Table, only: set<uint64>, every: bool)
    ensures Occupied(Kept(t, only, every)) + |Taken(t, only, every)| == Occupied(t)
  {
    if |t| > 0 {
      OccupiedAfter(t[..|t| - 1], only, every);
      assert Kept(t, only, every)[..|t| - 1] == Kept(t[..|t| - 1], only, every);
    }
  }

  lemma {:induction false} OccupiedUpdate(t: Table, i: nat, s: Slot)
    requires i < |t|
    ensures Occupied(t[i := s]) == Occupied(t) - (if t[i].id == 0 then 0 else 1) + (if s.id == 0 then 0 else 1)
  {
    if i < |t| - 1 {
      OccupiedUpdate(t[..|t| - 1], i, s);
      assert t[i := s][..|t| - 1] == t[..|t| - 1][i := s];
    } else {
      assert t[i := s][..i] == t[..i];
    }
  }

  lemma {:induction false} NoneOccupied(t: Table)
    requires Occupied(t) == 0
    ensures forall i :: 0 <= i < |t| ==> t[i].id == 0
  {
    if |t| > 0 {
      NoneOccupied(t[..|t| - 1]);
    }
  }

  /** Filing keeps every entry findable, whatever the ids: the new entry is where its probe ended and
      no other probe passed through a slot that was free. */
  lemma IngestCanonical(t: Table, k: uint64, b: SBatch)
    requires Shape(t) && Canonical(t) && Stops(t, k) && k != 0 && Index(t, k) < |t|
    ensures Shape(Ingested(t, k, b)) && Canonical(Ingested(t, k, b))
  {
    var i := Index(t, k);
    var t' := Ingested(t, k, b);
    IndexHits(t, k);
    Probing.NewEntryFound(Ids(t), 0, k, Home(|t|, k));
    assert Ids(t') == Ids(t)[i := k];
    forall j | 0 <= j < |t'| && t'[j].id != 0 ensures Index(t', t'[j].id) == j {
      if j != i {
        Probing.StopsIff(Ids(t), 0, t[j].id, Home(|t|, t[j].id));
        assert Ids(t)[j] == t[j].id && Probing.Hit(Ids(t), 0, t[j].id, j);
        Probing.PathKept(Ids(t), 0, k, i, t[j].id, Home(|t|, t[j].id));
      }
    }
  }

  lemma CanonicalDistinct(t: Table)
    requires Shape(t) && Canonical(t)
    ensures Probing.NoDuplicates(Ids(t), 0)
  {
  }

  lemma FlushAllCanonical(t: Table)
    requires Shape(t)
    ensures Shape(Kept(t, {}, true)) && Canonical(Kept(t, {}, true))
  {
  }

  // The probe for k looks at slot j on its way.
  predicate Passes(t: Table, k: uint64, j: nat)
    requires Shape(t)
  {
    exists u :: 0 <= u < Probing.Steps(Ids(t), 0, k, Home(|t|, k), 0) && Probing.Around(|t|, Home(|t|, k), u) == j
  }

  // The probe for the entry in slot i passes a slot that is cleared.
  predicate Cut(t: Table, only: set<uint64>, every: bool, i: nat)
    requires Shape(t) && i < |t|
  {
    exists j :: 0 <= j < |t| && Passes(t, t[i].id, j) && Flushes(t[j], only, every)
  }

  // An entry that stays is found where it is unless its probe is cut.
  lemma KeptEntryIff(t: Table, only: set<uint64>, every: bool, i: nat)
    requires Shape(t) && Canonical(t) && i < |t| && t[i].id != 0 && !Flushes(t[i], only, every)
    ensures Index(Kept(t, only, every), t[i].id) == i <==> !Cut(t, only, every, i)
  {
    hide Home, PowerOfTwo, Flushes;
    var (k, t') := (t[i].id, Kept(t, only, every));
    var (ids, ids') := (Ids(t), Ids(t'));
    var home := Home(|t|, k);
    assert Probing.Hit(ids, 0, k, i);
    Probing.StopsIff(ids, 0, k, home);
    var d := Probing.Steps(ids, 0, k, home, 0);
    assert Index(t, k) == i == Probing.Around(|t|, home, d);
    if Cut(t, only, every, i) {
      var j :| 0 <= j < |t| && Passes(t, k, j) && Flushes(t[j], only, every);
      var u :| 0 <= u < d && Probing.Around(|t|, home, u) == j;
      assert Probing.Hit(ids', 0, k, j);
      assert Probing.Steps(ids', 0, k, home, 0) <= u;
    } else {
      forall u | 0 <= u < d ensures !Probing.Hit(ids', 0, k, Probing.Around(|t|, home, u)) {
        assert Passes(t, k, Probing.Around(|t|, home, u));
      }
      Probing.StepsUnique(ids', 0, k, home, d);
    }
  }

  /** Flushing one key, or several, leaves every entry that stays where its probe ends if and only if no
      such probe passes a slot that is cleared. */
  lemma KeptCanonicalIff(t: Table, only: set<uint64>, every: bool)
    requires Shape(t) && Canonical(t)
    ensures Shape(Kept(t, only, every))
    ensures Canonical(Kept(t, only, every)) <==>
      forall i :: 0 <= i < |t| && t[i].id != 0 && Cut(t, only, every, i) ==> Flushes(t[i], only, every)
  {
    hide Index, Cut, Home, PowerOfTwo;
    var t' := Kept(t, only, every);
    forall i | 0 <= i < |t| && t[i].id != 0 && !Flushes(t[i], only, every)
      ensures Index(t', t[i].id) == i <==> !Cut(t, only, every, i)
    {
      KeptEntryIff(t, only, every, i);
    }
  }

  // Whether the table has an entry for this cell.
  predicate HasEntry(t: Table, c: Cell) {
    exists i :: 0 <= i < |t| && t[i].id != 0 && (t[i].keyId, t[i].bucketId) == c
  }

  lemma EntryOfLast(t: Table, cells: set<Cell>, c: Cell)
    requires |t| > 0 && Tidy(t, cells) && Probing.NoDuplicates(Ids(t), 0)
    ensures var (front, last) := (t[..|t| - 1], t[|t| - 1]);
      && HasEntry(t, c) == (HasEntry(front, c) || (last.id != 0 && CellOf(BatchOf(last)) == c))
      && !(HasEntry(front, c) && last.id != 0 && CellOf(BatchOf(last)) == c)
      && Tidy(front, cells) && Probing.NoDuplicates(Ids(front), 0)
  {
    hide Pack;
    var front, last := t[..|t| - 1], t[|t| - 1];
    assert forall i :: 0 <= i < |front| ==> Ids(front)[i] == Ids(t)[i] == front[i].id;
    assert Ids(t)[|front|] == last.id;
  }

  /** A table without duplicates emits exactly one batch for each cell it holds. */
  lemma {:induction false} EmitsOnce(t: Table, cells: set<Cell>, c: Cell)
    requires Tidy(t, cells) && Probing.NoDuplicates(Ids(t), 0)
    ensures At(Count, Emit(t), c) == (if HasEntry(t, c) then 1 else 0)
  {
    if |t| > 0 {
      var front, last := t[..|t| - 1], t[|t| - 1];
      EntryOfLast(t, cells, c);
      EmitsOnce(front, cells, c);
      Concat(Count, Emit(front), Entry(last), c);
      One(Count, BatchOf(last), c);
    }
  }

  function PackedIds(cells: set<Cell>): set<uint64> {
    set c | c in cells :: Pack(c.0, c.1)
  }

  lemma {:induction false} PackedIdsSize(cells: set<Cell>)
    ensures |PackedIds(cells)| <= |cells|
  {
    if cells != {} {
      var c :| c in cells;
      PackedIdsSize(cells - {c});
      assert PackedIds(cells) == PackedIds(cells - {c}) + {Pack(c.0, c.1)};
    }
  }

  /** A table that is in order and has a slot for every cell in use never makes a probe run forever. */
  lemma CellsFit(t: Table, cells: set<Cell>, b: SBatch)
    requires Shape(t) && Tidy(t, cells) && Canonical(t)
    requires CellOf(b) in cells && |cells| <= |t|
    ensures Stops(t, IdOf(b))
  {
    CanonicalDistinct(t);
    PackedIdsSize(cells);
    var ids := PackedIds(cells);
    assert IdOf(b) == Pack(CellOf(b).0, CellOf(b).1);
    assert IdOf(b) in ids;
    assert Probing.Entries(Ids(t), 0) <= ids by {
      forall x | x in Probing.Entries(Ids(t), 0) ensures x in ids {
        var i :| 0 <= i < |t| && Ids(t)[i] == x;
        assert (t[i].keyId, t[i].bucketId) in cells;
      }
    }
    Probing.Fits(Ids(t), 0, IdOf(b), ids);
  }
}
