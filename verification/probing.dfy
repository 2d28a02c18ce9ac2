/** Linear probing over a circular table, as the shard and the compressor do it. */
module Probing {

  predicate Hit<K(==)>(ids: seq<K>, free: K, k: K, i: nat)
    requires i < |ids|
  {
    ids[i] == free || ids[i] == k
  }

  // The slot t steps after home, around the end of the table.
  function Around(n: nat, home: nat, t: nat): nat
    requires home < n && t <= n
    ensures t < n ==> Around(n, home, t) < n
  {
    if home + t < n then home + t else home + t - n
  }

  lemma AroundHome(n: nat, home: nat)
    requires home < n
    ensures Around(n, home, 0) == home
  {
  }

  // The slot after, as the loops compute it.
  lemma NextAround(n: nat, home: nat, t: nat)
    requires home < n && t < n
    ensures (Around(n, home, t) + 1) % n == Around(n, home, if t + 1 < n then t + 1 else 0)
  {
  }

  // Steps from home to the first free or matching slot; as many as there are slots when none is.
  function Steps<K(==)>(ids: seq<K>, free: K, k: K, home: nat, t: nat): (d: nat)
    requires home < |ids| && t <= |ids|
    ensures t <= d <= |ids|
    ensures d < |ids| ==> Hit(ids, free, k, Around(|ids|, home, d))
    ensures forall u :: t <= u < d ==> !Hit(ids, free, k, Around(|ids|, home, u))
    decreases |ids| - t
  {
    if t == |ids| || Hit(ids, free, k, Around(|ids|, home, t)) then t else Steps(ids, free, k, home, t + 1)
  }

  lemma NextStep<K>(ids: seq<K>, free: K, k: K, home: nat, t: nat)
    requires home < |ids| && t < |ids|
    ensures Hit(ids, free, k, Around(|ids|, home, t)) ==> Steps(ids, free, k, home, t) == t
    ensures !Hit(ids, free, k, Around(|ids|, home, t)) ==>
      Steps(ids, free, k, home, t) == Steps(ids, free, k, home, t + 1) > t
  {
  }

  ghost predicate Terminates<K>(ids: seq<K>, free: K, k: K) {
    exists i :: 0 <= i < |ids| && Hit(ids, free, k, i)
  }

  // Where the probe for k stops, if it does.
  function Slot<K(==)>(ids: seq<K>, free: K, k: K, home: nat): (i: nat)
    requires home < |ids|
  {
    Around(|ids|, home, Steps(ids, free, k, home, 0))
  }

  lemma Reaching(n: nat, home: nat, i: nat) returns (t: nat)
    requires home < n && i < n
    ensures t < n && Around(n, home, t) == i
  {
    t := if i >= home then i - home else i + n - home;
  }

  /** A probe stops if and only if some slot is free or already holds the id. */
  lemma StopsIff<K>(ids: seq<K>, free: K, k: K, home: nat)
    requires home < |ids|
    ensures Steps(ids, free, k, home, 0) < |ids| <==> Terminates(ids, free, k)
    ensures Terminates(ids, free, k) ==>
      Slot(ids, free, k, home) < |ids| && Hit(ids, free, k, Slot(ids, free, k, home))
  {
    if i :| 0 <= i < |ids| && Hit(ids, free, k, i) {
      var t := Reaching(|ids|, home, i);
    }
  }

  lemma StepsUnique<K>(ids: seq<K>, free: K, k: K, home: nat, d: nat)
    requires home < |ids| && d < |ids|
    requires Hit(ids, free, k, Around(|ids|, home, d))
    requires forall u :: 0 <= u < d ==> !Hit(ids, free, k, Around(|ids|, home, u))
    ensures Steps(ids, free, k, home, 0) == d
  {
    var s := Steps(ids, free, k, home, 0);
  }

  /** Filing an id where its probe stops leaves every other entry where its own probe stops. */
  lemma PathKept<K>(ids: seq<K>, free: K, k: K, i: nat, other: K, home: nat)
    requires k != free && other != free && home < |ids| && i < |ids| && Hit(ids, free, k, i)
    requires Steps(ids, free, other, home, 0) < |ids|
    requires ids[Slot(ids, free, other, home)] == other
    ensures Slot(ids[i := k], free, other, home) == Slot(ids, free, other, home)
  {
    StepsUnique(ids[i := k], free, other, home, Steps(ids, free, other, home, 0));
  }

  lemma NewEntryFound<K>(ids: seq<K>, free: K, k: K, home: nat)
    requires k != free && home < |ids| && Terminates(ids, free, k)
    ensures Slot(ids, free, k, home) < |ids|
    ensures Slot(ids[Slot(ids, free, k, home) := k], free, k, home) == Slot(ids, free, k, home)
  {
    StopsIff(ids, free, k, home);
    var d := Steps(ids, free, k, home, 0);
    var i := Around(|ids|, home, d);
    forall u | 0 <= u < d ensures Around(|ids|, home, u) != i {
    }
    StepsUnique(ids[i := k], free, k, home, d);
  }

  ghost predicate NoDuplicates<K(!new)>(ids: seq<K>, free: K) {
    forall i, j :: 0 <= i < j < |ids| && ids[i] == ids[j] ==> ids[i] == free
  }

  function Entries<K(==)>(ids: seq<K>, free: K): set<K> {
    set x | x in ids && x != free
  }

  lemma {:induction false} FullTable<K(!new)>(ids: seq<K>, free: K)
    requires NoDuplicates(ids, free) && free !in ids
    ensures |Entries(ids, free)| == |ids|
  {
    if |ids| == 0 {
      assert Entries(ids, free) == {};
    } else {
      var front, last := ids[..|ids| - 1], ids[|ids| - 1];
      FullTable(front, free);
      assert Entries(ids, free) == Entries(front, free) + {last};
      assert last !in Entries(front, free);
    }
  }

  lemma SubsetSize<K>(a: set<K>, b: set<K>)
    requires a <= b
    ensures |a| <= |b|
  {
    assert b == a + (b - a);
  }

  /** While no more distinct ids are in use than there are slots, every probe stops. */
  lemma Fits<K(!new)>(ids: seq<K>, free: K, k: K, inUse: set<K>)
    requires NoDuplicates(ids, free)
    requires Entries(ids, free) <= inUse && k in inUse && |inUse| <= |ids|
    ensures Terminates(ids, free, k)
  {
    if !Terminates(ids, free, k) {
      forall i | 0 <= i < |ids| ensures ids[i] != free && ids[i] != k {
        assert !Hit(ids, free, k, i);
      }
      FullTable(ids, free);
      SubsetSize(Entries(ids, free), inUse - {k});
      assert false;
    }
  }
}
