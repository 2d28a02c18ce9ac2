/** The transformer that merges flushed batches in place: duplicates of a cell become one entry with
    the summed delta and the greatest sequence number, and entries that cancel out are dropped. */
module Compression {
  import opened Bits
  import opened Packing
  import opened Envelopes
  import opened Probing

  const OA_THRESHOLD := 64

  /** One entry for every cell whose total is not zero, with that total and the greatest sequence
      number, and no other entries. */
  ghost predicate Compressed(bs: seq<SBatch>, out: seq<SBatch>) {
    forall c: Cell ::
      && At(Total, out, c) == At(Total, bs, c)
      && At(Count, out, c) == (if At(Total, bs, c) != 0 then 1 else 0)
      && (At(Total, bs, c) != 0 ==> At(Peak, out, c) == At(Peak, bs, c))
  }

  function Merged(prev: SBatch, b: SBatch): SBatch {
    prev.(netDelta := prev.netDelta + b.netDelta, seqEnd := if b.seqEnd > prev.seqEnd then b.seqEnd else prev.seqEnd)
  }

  function Put(m: map<Cell, SBatch>, b: SBatch): map<Cell, SBatch> {
    m[CellOf(b) := if CellOf(b) in m then Merged(m[CellOf(b)], b) else b]
  }

  // The plain map that both algorithms compute.
  function Fold(bs: seq<SBatch>): map<Cell, SBatch> {
    if |bs| == 0 then map[] else Put(Fold(bs[..|bs| - 1]), bs[|bs| - 1])
  }

  lemma {:induction false} FoldMeaning(bs: seq<SBatch>, c: Cell)
    ensures 0 <= At(Count, bs, c)
    ensures c in Fold(bs) <==> At(Count, bs, c) > 0
    ensures if c in Fold(bs) then
        var b := Fold(bs)[c];
        CellOf(b) == c && b.netDelta == At(Total, bs, c) && b.seqEnd == At(Peak, bs, c)
      else At(Total, bs, c) == At(Peak, bs, c) == 0
  {
    if |bs| > 0 {
      FoldMeaning(bs[..|bs| - 1], c);
    }
  }

  lemma {:induction false} FoldSize(bs: seq<SBatch>)
    ensures |Fold(bs)| <= |bs|
  {
    if |bs| > 0 {
      var front := Fold(bs[..|bs| - 1]);
      FoldSize(bs[..|bs| - 1]);
      assert Fold(bs).Keys == front.Keys + {CellOf(bs[|bs| - 1])};
    }
  }

  // out lists, each once, entries of m that do not cancel out, and of the cells in done all of them.
  ghost predicate Lists(out: seq<SBatch>, m: map<Cell, SBatch>, done: set<Cell>) {
    && (forall i :: 0 <= i < |out| ==> CellOf(out[i]) in done && CellOf(out[i]) in m && m[CellOf(out[i])] == out[i])
    && (forall i :: 0 <= i < |out| ==> out[i].netDelta != 0)
    && (forall i, j :: 0 <= i < j < |out| ==> CellOf(out[i]) != CellOf(out[j]))
    && (forall c :: c in done && c in m && m[c].netDelta != 0 ==> m[c] in out)
  }

  lemma {:induction false} ListedAt(measure: Measure, out: seq<SBatch>, c: Cell)
    requires forall i, j :: 0 <= i < j < |out| ==> CellOf(out[i]) != CellOf(out[j])
    ensures forall b :: b in out && CellOf(b) == c ==> At(measure, out, c) == Weigh(measure, b, c)
    ensures (forall b :: b in out ==> CellOf(b) != c) ==> At(measure, out, c) == 0
  {
    if |out| > 0 {
      var front, last := out[..|out| - 1], out[|out| - 1];
      ListedAt(measure, front, c);
      assert out == front + [last];
      if CellOf(last) == c {
        assert forall b :: b in front ==> CellOf(b) != c;
      }
    }
  }

  lemma ListsCompressed(out: seq<SBatch>, bs: seq<SBatch>)
    requires Lists(out, Fold(bs), Fold(bs).Keys)
    ensures Compressed(bs, out)
  {
    forall c: Cell
      ensures At(Total, out, c) == At(Total, bs, c)
      ensures At(Count, out, c) == (if At(Total, bs, c) != 0 then 1 else 0)
      ensures At(Total, bs, c) != 0 ==> At(Peak, out, c) == At(Peak, bs, c)
    {
      FoldMeaning(bs, c);
      ListedAt(Total, out, c);
      ListedAt(Count, out, c);
      ListedAt(Peak, out, c);
      if At(Total, bs, c) != 0 {
        assert Fold(bs)[c] in out;
      } else {
        forall b | b in out ensures CellOf(b) != c {
          var i :| 0 <= i < |out| && out[i] == b;
        }
      }
    }
  }

  // How often an entry occurs in a list with at most one entry per cell.
  lemma {:induction false} Occurs(out: seq<SBatch>, x: SBatch)
    requires At(Count, out, CellOf(x)) <= 1
    ensures multiset(out)[x] ==
      if At(Count, out, CellOf(x)) == 1 && At(Total, out, CellOf(x)) == x.netDelta && At(Peak, out, CellOf(x)) == x.seqEnd
      then 1 else 0
  {
    if |out| > 0 {
      var front, last := out[..|out| - 1], out[|out| - 1];
      assert out == front + [last];
      CountIsPresence(front, CellOf(x));
      Occurs(front, x);
      if CellOf(last) == CellOf(x) {
        Absent(Total, front, CellOf(x));
        Absent(Peak, front, CellOf(x));
      }
    }
  }

  /** There is only one compression of a slice, up to order: both algorithms give the same entries. */
  lemma CompressionUnique(bs: seq<SBatch>, out: seq<SBatch>, out': seq<SBatch>)
    requires Compressed(bs, out) && Compressed(bs, out')
    ensures multiset(out) == multiset(out')
  {
    forall x: SBatch ensures multiset(out)[x] == multiset(out')[x] {
      var c := CellOf(x);
      assert At(Total, out, c) == At(Total, bs, c) == At(Total, out', c);
      Occurs(out, x);
      Occurs(out', x);
    }
  }

  lemma {:induction false} DistinctCells(out: seq<SBatch>, cells: set<Cell>)
    requires forall i :: 0 <= i < |out| ==> CellOf(out[i]) in cells
    requires forall i, j :: 0 <= i < j < |out| ==> CellOf(out[i]) != CellOf(out[j])
    ensures |out| <= |cells|
  {
    if |out| > 0 {
      DistinctCells(out[..|out| - 1], cells - {CellOf(out[|out| - 1])});
    }
  }

  // Extending the list by the entry of one more cell.
  lemma ListsMore(out: seq<SBatch>, m: map<Cell, SBatch>, done: set<Cell>, c: Cell)
    requires Lists(out, m, done) && c !in done && c in m && CellOf(m[c]) == c
    ensures Lists(if m[c].netDelta != 0 then out + [m[c]] else out, m, done + {c})
    ensures m[c].netDelta != 0 ==> |out| < |m|
  {
    if m[c].netDelta != 0 {
      DistinctCells(out + [m[c]], m.Keys);
    }
  }

  datatype Key = Free | Of(cell: Cell)

  datatype Kv = Kv(key: Cell, val: SBatch, used: bool)

  function Keys(tab: seq<Kv>): seq<Key> {
    seq(|tab|, i requires 0 <= i < |tab| => if tab[i].used then Of(tab[i].key) else Free)
  }

  function Home(n: nat, c: Cell): (h: nat)
    requires n > 0 && PowerOfTwo(n)
    ensures h < n
  {
    MaskBelow(Pack(c.0, c.1), n);
    BitAnd(Pack(c.0, c.1), n - 1)
  }

  function Find(tab: seq<Kv>, c: Cell): nat
    requires |tab| > 0 && PowerOfTwo(|tab|)
  {
    Slot(Keys(tab), Free, Of(c), Home(|tab|, c))
  }

  // The table stores the map, every entry where the probe for its cell ends.
  ghost predicate Stores(tab: seq<Kv>, m: map<Cell, SBatch>) {
    && |tab| > 0 && PowerOfTwo(|tab|)
    && (forall i :: 0 <= i < |tab| && tab[i].used ==>
          tab[i].key in m && tab[i].val == m[tab[i].key] && Find(tab, tab[i].key) == i)
    && (forall c :: c in m ==> Find(tab, c) < |tab| && tab[Find(tab, c)].used && tab[Find(tab, c)].key == c)
  }

  lemma {:induction false} ImageSize(cells: set<Cell>)
    ensures |set k | k in cells :: Of(k)| <= |cells|
  {
    if cells != {} {
      var c :| c in cells;
      ImageSize(cells - {c});
      assert (set k | k in cells :: Of(k)) == (set k | k in cells - {c} :: Of(k)) + {Of(c)};
    }
  }

  /** At a load of at most one half the probe for any cell ends. */
  lemma ProbeEnds(tab: seq<Kv>, m: map<Cell, SBatch>, c: Cell)
    requires Stores(tab, m) && |m| < |tab|
    ensures Terminates(Keys(tab), Free, Of(c))
    ensures Find(tab, c) < |tab| && (!tab[Find(tab, c)].used || tab[Find(tab, c)].key == c)
    ensures c in m <==> tab[Find(tab, c)].used
  {
    hide Home;
    var inUse := set k | k in m.Keys + {c} :: Of(k);
    ImageSize(m.Keys + {c});
    forall i, j | 0 <= i < j < |tab| && Keys(tab)[i] == Keys(tab)[j] ensures Keys(tab)[i] == Free {
    }
    Fits(Keys(tab), Free, Of(c), inUse);
    StopsIff(Keys(tab), Free, Of(c), Home(|tab|, c));
  }

  lemma OtherStored(tab: seq<Kv>, m: map<Cell, SBatch>, c: Cell, i: nat, v: SBatch, k: Cell)
    requires Stores(tab, m) && |m| < |tab| && i == Find(tab, c) && i < |tab| && k in m && k != c
    ensures Find(tab[i := Kv(c, v, true)], k) == Find(tab, k) && Find(tab, k) != i
  {
    hide Home, PowerOfTwo, Steps;
    ProbeEnds(tab, m, c);
    ProbeEnds(tab, m, k);
    StopsIff(Keys(tab), Free, Of(k), Home(|tab|, k));
    assert Keys(tab[i := Kv(c, v, true)]) == Keys(tab)[i := Of(c)];
    PathKept(Keys(tab), Free, Of(c), i, Of(k), Home(|tab|, k));
  }

  lemma NewStored(tab: seq<Kv>, m: map<Cell, SBatch>, c: Cell, i: nat, v: SBatch)
    requires Stores(tab, m) && |m| < |tab| && i == Find(tab, c) && i < |tab|
    ensures Find(tab[i := Kv(c, v, true)], c) == i
  {
    hide Home, PowerOfTwo, Steps;
    ProbeEnds(tab, m, c);
    assert Keys(tab[i := Kv(c, v, true)]) == Keys(tab)[i := Of(c)];
    NewEntryFound(Keys(tab), Free, Of(c), Home(|tab|, c));
  }

  /** Writing the merged entry where the probe ended is the update of the map. */
  lemma StoreKept(tab: seq<Kv>, m: map<Cell, SBatch>, b: SBatch, i: nat)
    requires Stores(tab, m) && |m| < |tab| && i == Find(tab, CellOf(b)) && i < |tab|
    ensures Stores(tab[i := Kv(CellOf(b), Put(m, b)[CellOf(b)], true)], Put(m, b))
  {
    hide Home, PowerOfTwo, Find;
    var c := CellOf(b);
    var v := Put(m, b)[c];
    ProbeEnds(tab, m, c);
    NewStored(tab, m, c, i, v);
    forall k | k in m && k != c ensures Find(tab[i := Kv(c, v, true)], k) == Find(tab, k) && Find(tab, k) != i {
      OtherStored(tab, m, c, i, v, k);
    }
  }

  lemma EmptyStores(tab: seq<Kv>)
    requires |tab| > 0 && PowerOfTwo(|tab|) && forall i :: 0 <= i < |tab| ==> !tab[i].used
    ensures Stores(tab, Fold([]))
  {
  }

  lemma FoldStep(bs: seq<SBatch>, i: nat)
    requires i < |bs|
    ensures Fold(bs[..i + 1]) == Put(Fold(bs[..i]), bs[i])
  {
    assert bs[..i + 1][..i] == bs[..i];
  }

  lemma DoublePower(n: int)
    requires n > 0 && PowerOfTwo(n)
    ensures PowerOfTwo(n * 2)
  {
    PowIsPowerOfTwo(Digits(n));
    DigitsBound(n);
  }

  lemma StoresShape(tab: seq<Kv>, m: map<Cell, SBatch>)
    requires Stores(tab, m)
    ensures |tab| > 0 && PowerOfTwo(|tab|)
  {
  }

  lemma ValueStored(tab: seq<Kv>, m: map<Cell, SBatch>, c: Cell)
    requires Stores(tab, m) && |tab| > 0 && PowerOfTwo(|tab|)
    ensures c in m ==> Find(tab, c) < |tab| && tab[Find(tab, c)].key == c && tab[Find(tab, c)].val == m[c]
  {
  }

  method FindSlot(tab: array<Kv>, k: Cell, ghost m: map<Cell, SBatch>) returns (idx: nat)
    requires Stores(tab[..], m) && |m| < tab.Length && tab.Length > 0 && PowerOfTwo(tab.Length)
    ensures idx == Find(tab[..], k) && idx < tab.Length
  {
    hide Stores, PowerOfTwo, Steps, BitAnd, Pack, Around;
    ProbeEnds(tab[..], m, k);
    ghost var keys, home := Keys(tab[..]), Home(tab.Length, k);
    StopsIff(keys, Free, Of(k), home);
    var mask := tab.Length - 1;
    MaskBelow(Pack(k.0, k.1), tab.Length);
    idx := BitAnd(Pack(k.0, k.1), mask);
    assert idx == home;
    hide Home;
    AroundHome(tab.Length, home);
    ghost var t := 0;
    while tab[idx].used && tab[idx].key != k
      invariant t < tab.Length && idx == Around(tab.Length, home, t)
      invariant Steps(keys, Free, Of(k), home, 0) == Steps(keys, Free, Of(k), home, t)
      decreases tab.Length - t
    {
      NextStep(keys, Free, Of(k), home, t);
      MaskBelow(idx + 1, tab.Length);
      NextAround(tab.Length, home, t);
      idx := BitAnd(idx + 1, mask);
      t := t + 1;
    }
    NextStep(keys, Free, Of(k), home, t);
  }

  method StoreBatch(tab: array<Kv>, b: SBatch, ghost m: map<Cell, SBatch>)
    requires Stores(tab[..], m) && |m| < tab.Length
    modifies tab
    ensures Stores(tab[..], Put(m, b))
  {
    hide Stores, Home, PowerOfTwo;
    assert tab.Length > 0 && PowerOfTwo(tab.Length) by { StoresShape(tab[..], m); }
    ghost var start := tab[..];
    var k := CellOf(b);
    var idx := FindSlot(tab, k, m);
    ProbeEnds(start, m, k);
    StoreKept(start, m, b, idx);
    ValueStored(start, m, k);
    if !tab[idx].used {
      tab[idx] := Kv(k, b, true);
    } else {
      tab[idx] := tab[idx].(val := Merged(tab[idx].val, b));
    }
    assert tab[..] == start[idx := Kv(k, Put(m, b)[k], true)];
  }

  // The open-addressed table for short slices, indexed from the packed id but keyed by the cell.
  method BuildTable(batches: array<SBatch>) returns (tab: array<Kv>)
    requires batches.Length > 0
    ensures fresh(tab) && Stores(tab[..], Fold(batches[..]))
  {
    hide Home, Pack, Fold;
    ghost var bs := batches[..];
    var n := 1;
    PowIsPowerOfTwo(0);
    while n < batches.Length * 2
      invariant n > 0 && PowerOfTwo(n)
      decreases batches.Length * 2 - n
    {
      DoublePower(n);
      n := n * 2;
    }
    tab := new Kv[n](i => Kv((0, 0), SBatch(0, 0, 0, 0), false));
    EmptyStores(tab[..]);
    for i := 0 to batches.Length
      invariant tab.Length == n && batches[..] == bs && Stores(tab[..], Fold(bs[..i]))
    {
      FoldSize(bs[..i]);
      FoldStep(bs, i);
      StoreBatch(tab, batches[i], Fold(bs[..i]));
    }
    assert bs[..|bs|] == bs;
  }

  // The cells stored in the first i slots.
  function CellsBelow(tab: seq<Kv>, i: nat): set<Cell>
    requires i <= |tab|
  {
    set j | 0 <= j < i && tab[j].used :: tab[j].key
  }

  // One more slot of the table read: its entry, if there is one and it does not cancel out, is kept.
  lemma SlotListed(tab: seq<Kv>, bs: seq<SBatch>, i: nat, out: seq<SBatch>)
    requires Stores(tab, Fold(bs)) && i < |tab| && Lists(out, Fold(bs), CellsBelow(tab, i))
    ensures Lists(if tab[i].used && tab[i].val.netDelta != 0 then out + [tab[i].val] else out,
                  Fold(bs), CellsBelow(tab, i + 1))
    ensures tab[i].used && tab[i].val.netDelta != 0 ==> |out| < |bs|
  {
    hide Home, PowerOfTwo, Find, Fold;
    var m, c := Fold(bs), tab[i].key;
    if tab[i].used {
      assert CellsBelow(tab, i + 1) == CellsBelow(tab, i) + {c};
      FoldMeaning(bs, c);
      ListsMore(out, m, CellsBelow(tab, i), c);
      FoldSize(bs);
    } else {
      assert CellsBelow(tab, i + 1) == CellsBelow(tab, i);
    }
  }

  lemma AllCells(tab: seq<Kv>, m: map<Cell, SBatch>)
    requires Stores(tab, m)
    ensures CellsBelow(tab, |tab|) == m.Keys
  {
    hide Home, PowerOfTwo, Find;
    forall c | c in m ensures c in CellsBelow(tab, |tab|) {
      var i := Find(tab, c);
      assert tab[i].used && tab[i].key == c;
    }
  }

  lemma NothingListed(out: seq<SBatch>, tab: seq<Kv>, bs: seq<SBatch>)
    requires out == []
    ensures Lists(out, Fold(bs), CellsBelow(tab, 0))
    ensures Lists(out, Fold(bs), {})
  {
    assert CellsBelow(tab, 0) == {};
  }

  // The table path: entries are written over the front of the slice they came from.
  method CompressShort(batches: array<SBatch>) returns (n: nat)
    requires 0 < batches.Length
    modifies batches
    ensures n <= batches.Length
    ensures Compressed(old(batches[..]), batches[..n])
  {
    hide Stores, Fold, Lists, CellsBelow;
    ghost var bs := batches[..];
    var tab := BuildTable(batches);
    ghost var entries := tab[..];
    n := 0;
    assert Lists(batches[..0], Fold(bs), CellsBelow(entries, 0)) by { NothingListed(batches[..0], entries, bs); }
    for i := 0 to tab.Length
      invariant n <= batches.Length && tab[..] == entries
      invariant Lists(batches[..n], Fold(bs), CellsBelow(entries, i))
    {
      SlotListed(entries, bs, i, batches[..n]);
      if tab[i].used {
        var v := tab[i].val;
        if v.netDelta != 0 {
          batches[n] := v;
          n := n + 1;
          assert batches[..n] == batches[..n - 1] + [v];
        }
      }
    }
    AllCells(entries, Fold(bs));
    ListsCompressed(batches[..n], bs);
  }

  lemma FoldNothing()
    ensures Fold([]) == map[]
  {
  }

  method FoldMap(batches: array<SBatch>) returns (m: map<Cell, SBatch>)
    ensures m == Fold(batches[..])
  {
    hide Fold;
    m := map[];
    FoldNothing();
    for i := 0 to batches.Length
      invariant m == Fold(batches[..][..i])
    {
      FoldStep(batches[..], i);
      var b := batches[i];
      var k := CellOf(b);
      if k in m {
        m := m[k := Merged(m[k], b)];
      } else {
        m := m[k := b];
      }
    }
    assert batches[..][..batches.Length] == batches[..];
  }

  lemma EntryListed(out: seq<SBatch>, bs: seq<SBatch>, done: set<Cell>, c: Cell)
    requires Lists(out, Fold(bs), done) && c !in done && c in Fold(bs)
    ensures Lists(if Fold(bs)[c].netDelta != 0 then out + [Fold(bs)[c]] else out, Fold(bs), done + {c})
    ensures Fold(bs)[c].netDelta != 0 ==> |out| < |bs|
  {
    hide Fold;
    FoldMeaning(bs, c);
    ListsMore(out, Fold(bs), done, c);
    FoldSize(bs);
  }

  // The map path, for slices longer than the threshold; the map is read in any order.
  method CompressLong(batches: array<SBatch>) returns (n: nat)
    modifies batches
    ensures n <= batches.Length
    ensures Compressed(old(batches[..]), batches[..n])
  {
    hide Fold, Lists;
    ghost var bs := batches[..];
    var m := FoldMap(batches);
    var rest := m.Keys;
    n := 0;
    NothingListed(batches[..0], [], bs);
    assert m.Keys - rest == {};
    while rest != {}
      invariant n <= batches.Length && rest <= m.Keys
      invariant Lists(batches[..n], m, m.Keys - rest)
      decreases |rest|
    {
      var c :| c in rest;
      assert m.Keys - (rest - {c}) == (m.Keys - rest) + {c};
      EntryListed(batches[..n], bs, m.Keys - rest, c);
      rest := rest - {c};
      if m[c].netDelta != 0 {
        batches[n] := m[c];
        n := n + 1;
        assert batches[..n] == batches[..n - 1] + [m[c]];
      }
    }
    assert m.Keys - rest == m.Keys;
    ListsCompressed(batches[..n], bs);
  }

  /** Merges the duplicates of a slice into its own front and returns how many entries are left. */
  method Compress(batches: array<SBatch>) returns (n: nat)
    modifies batches
    ensures n <= batches.Length
    ensures Compressed(old(batches[..]), batches[..n])
  {
    if batches.Length == 0 {
      n := 0;
    } else if batches.Length <= OA_THRESHOLD {
      n := CompressShort(batches);
    } else {
      n := CompressLong(batches);
    }
  }
}
