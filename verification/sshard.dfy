/** The single-writer shard: an open-addressed table kept in parallel arrays and changed in place. */
module SShards {
  import opened Bits
  import opened Packing
  import opened Envelopes
  import opened Tables
  import Probing

  lemma {:induction false} VacantUnoccupied(t: Table)
    requires forall i :: 0 <= i < |t| ==> t[i].id == 0
    ensures Occupied(t) == 0
  {
    if |t| > 0 {
      VacantUnoccupied(t[..|t| - 1]);
    }
  }

  lemma NothingToFlush(t: Table, only: set<uint64>, every: bool)
    requires Occupied(t) == 0
    ensures Kept(t, only, every) == t && Taken(t, only, every) == []
  {
    NoneOccupied(t);
    OccupiedAfter(t, only, every);
  }

  lemma FlushNone(only: set<uint64>, every: bool)
    ensures Kept([], only, every) == [] && Taken([], only, every) == []
  {
  }

  lemma FlushPrefix(t: Table, i: nat, only: set<uint64>, every: bool)
    requires i < |t|
    ensures Taken(t[..i + 1], only, every)
      == Taken(t[..i], only, every) + (if Flushes(t[i], only, every) then [BatchOf(t[i])] else [])
  {
    assert t[..i + 1][..i] == t[..i];
  }

  // The slot after, as the mask gives it.
  lemma NextSlot(n: nat, home: nat, t: nat)
    requires PowerOfTwo(n) && home < n && t < n
    ensures n > 0 && BitAnd(Probing.Around(n, home, t) + 1, n - 1)
      == Probing.Around(n, home, if t + 1 < n then t + 1 else 0)
  {
    MaskBelow(Probing.Around(n, home, t) + 1, n);
    Probing.NextAround(n, home, t);
  }

  class SShard {
    const keys: array<uint64>
    const keyIDs: array<uint64>
    const bucketIDs: array<uint64>
    const sums: array<int>
    const seqEnds: array<uint64>
    const mask: nat
    var used: int

    ghost const Repr: set<object>

    ghost predicate Wired() {
      && Repr == {this, keys, keyIDs, bucketIDs, sums, seqEnds} && |Repr| == 6
      && keys.Length == keyIDs.Length == bucketIDs.Length == sums.Length == seqEnds.Length
      && keys.Length > 0 && PowerOfTwo(keys.Length) && mask == keys.Length - 1
    }

    ghost function SlotAt(i: nat): Slot
      requires Wired() && i < keys.Length
      reads keys, keyIDs, bucketIDs, sums, seqEnds
    {
      Slot(keys[i], keyIDs[i], bucketIDs[i], sums[i], seqEnds[i])
    }

    ghost function View(): (t: Table)
      requires Wired()
      reads keys, keyIDs, bucketIDs, sums, seqEnds
      ensures |t| == keys.Length && Shape(t)
      ensures forall i :: 0 <= i < |t| ==> t[i] == SlotAt(i)
    {
      seq(keys.Length, i requires 0 <= i < keys.Length && Wired() reads keys, keyIDs, bucketIDs, sums, seqEnds => SlotAt(i))
    }

    // used is at least the number of entries, and that number unless an id was 0.
    ghost predicate Valid()
      reads Repr
      ensures Valid() ==> Wired()
    {
      Wired() && Occupied(View()) <= used
    }

    constructor (order: nat)
      ensures Valid() && fresh(Repr)
      ensures |View()| == Pow2(order) && used == 0
      ensures forall i :: 0 <= i < |View()| ==> View()[i] == Slot(0, 0, 0, 0, 0)
    {
      hide PowerOfTwo, Occupied, Pow2;
      var n := Pow2(order);
      var a, b, c, d := new uint64[n](i => 0), new uint64[n](i => 0), new uint64[n](i => 0), new uint64[n](i => 0);
      var e := new int[n](i => 0);
      keys, keyIDs, bucketIDs, sums, seqEnds := a, b, c, e, d;
      mask := n - 1;
      used := 0;
      Repr := {this, a, b, c, e, d};
      new;
      PowIsPowerOfTwo(order);
      assert |Repr| == 6;
      VacantUnoccupied(View());
    }

    method Probe(k: uint64) returns (i: nat)
      requires Wired() && Stops(View(), k)
      ensures i == Index(View(), k) && i < keys.Length
    {
      hide BitAnd, PowerOfTwo, Probing.Steps;
      ghost var ids, home := Ids(View()), Home(keys.Length, k);
      Probing.StopsIff(ids, 0, k, home);
      i := BitAnd(k, mask);
      hide Home, Probing.Around;
      Probing.AroundHome(keys.Length, home);
      ghost var t := 0;
      while true
        invariant t < keys.Length && i == Probing.Around(keys.Length, home, t)
        invariant Probing.Steps(ids, 0, k, home, 0) == Probing.Steps(ids, 0, k, home, t)
        decreases keys.Length - t
      {
        Probing.NextStep(ids, 0, k, home, t);
        var kk := keys[i];
        assert kk == ids[i];
        if kk == 0 || kk == k {
          return;
        }
        NextSlot(keys.Length, home, t);
        i := BitAnd(i + 1, mask);
        t := t + 1;
      }
    }

    // The writes of Ingest, at a slot that is free or already holds the id.
    method MergeInto(i: nat, k: uint64, env: Envelope)
      requires Wired() && i < keys.Length
      modifies Repr
      ensures View() == old(View())[i := Merge(old(View())[i], k, AsBatch(env))]
      ensures used == old(used) + (if old(keys[i]) == 0 then 1 else 0)
    {
      hide PowerOfTwo, Pack;
      if keys[i] == 0 {
        keys[i] := k;
        keyIDs[i] := env.footprint.keyId;
        bucketIDs[i] := env.footprint.time.bucketId;
        used := used + 1;
      }
      sums[i] := sums[i] + env.delta;
      if env.seqEnd > seqEnds[i] {
        seqEnds[i] := env.seqEnd;
      }
    }

    /** Merges an envelope into the slot where the probe for its id ends. */
    method Ingest(env: Envelope)
      requires Valid() && Stops(View(), IdOf(AsBatch(env)))
      modifies Repr
      ensures Valid()
      ensures Index(old(View()), IdOf(AsBatch(env))) < |old(View())|
      ensures View() == Ingested(old(View()), IdOf(AsBatch(env)), AsBatch(env))
      ensures old(used == Occupied(View())) && IdOf(AsBatch(env)) != 0 ==> used == Occupied(View())
    {
      hide Pack, Index, Occupied, PowerOfTwo;
      ghost var t := View();
      var k := Pack(env.footprint.keyId, env.footprint.time.bucketId);
      assert k == IdOf(AsBatch(env));
      var i := Probe(k);
      IndexHits(t, k);
      MergeInto(i, k, env);
      OccupiedUpdate(t, i, Merge(t[i], k, AsBatch(env)));
    }

    // Reads a slot as a batch and clears it.
    method EmitSlot(i: nat) returns (b: SBatch)
      requires Wired() && i < keys.Length
      modifies keys, keyIDs, bucketIDs, sums, seqEnds
      ensures b == BatchOf(old(View())[i])
      ensures View() == old(View())[i := Slot(0, 0, 0, 0, 0)]
    {
      hide PowerOfTwo;
      b := SBatch(keyIDs[i], bucketIDs[i], sums[i], seqEnds[i]);
      keys[i] := 0;
      keyIDs[i] := 0;
      bucketIDs[i] := 0;
      sums[i] := 0;
      seqEnds[i] := 0;
    }

    /** Emits every entry in slot order and clears the table. */
    method Flush(out: seq<SBatch>) returns (more: seq<SBatch>)
      requires Valid()
      modifies Repr
      ensures Valid() && used == Occupied(View()) == 0
      ensures View() == Kept(old(View()), {}, true)
      ensures more == out + Taken(old(View()), {}, true)
    {
      hide PowerOfTwo, Kept, Taken, Occupied, Emit;
      ghost var t := View();
      more := out;
      if used == 0 {
        assert Occupied(t) == 0;
        NothingToFlush(t, {}, true);
        return;
      }
      FlushNone({}, true);
      for i := 0 to keys.Length
        invariant forall j :: 0 <= j < keys.Length ==> View()[j] == if j < i then Kept(t, {}, true)[j] else t[j]
        invariant more == out + Taken(t[..i], {}, true)
      {
        FlushPrefix(t, i, {}, true);
        assert SlotAt(i) == t[i];
        if keys[i] != 0 {
          var batch := EmitSlot(i);
          more := more + [batch];
        }
      }
      assert t[..keys.Length] == t;
      assert View() == Kept(t, {}, true);
      FlushAllEmits(t);
      used := 0;
    }

    /** Emits and clears the entries of one key only. */
    method FlushKey(keyID: uint64, out: seq<SBatch>) returns (more: seq<SBatch>)
      requires Valid()
      modifies Repr
      ensures Valid()
      ensures View() == Kept(old(View()), {keyID}, false)
      ensures more == out + Taken(old(View()), {keyID}, false)
      ensures used == old(used) - |Taken(old(View()), {keyID}, false)|
      ensures old(used == Occupied(View())) ==> used == Occupied(View())
    {
      hide PowerOfTwo, Kept, Taken, Occupied, Emit;
      ghost var t := View();
      more := out;
      if used == 0 {
        NothingToFlush(t, {keyID}, false);
        return;
      }
      FlushNone({keyID}, false);
      for i := 0 to keys.Length
        invariant forall j :: 0 <= j < keys.Length ==> View()[j] == if j < i then Kept(t, {keyID}, false)[j] else t[j]
        invariant more == out + Taken(t[..i], {keyID}, false)
        invariant used == old(used) - |Taken(t[..i], {keyID}, false)|
      {
        FlushPrefix(t, i, {keyID}, false);
        assert SlotAt(i) == t[i];
        if keys[i] != 0 && keyIDs[i] == keyID {
          var batch := EmitSlot(i);
          more := more + [batch];
          used := used - 1;
        }
      }
      assert t[..keys.Length] == t;
      assert View() == Kept(t, {keyID}, false);
      OccupiedAfter(t, {keyID}, false);
    }
  }
}
