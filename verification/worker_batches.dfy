/** What the cycles of the worker do to all keys at once: the rows a batch has, the keys it takes and the
    managed counters it leaves. */
module WorkerBatches {
  import opened WorkerSpec
  import CounterSpec
  import opened Vsa
  import opened Stores

  datatype Commit = Commit(key: string, vector: int)

  // The vectors of one key, in the order in which they were written.
  function RowsOf(commits: seq<Commit>, key: string): seq<int> {
    if |commits| == 0 then []
    else
      var last := commits[|commits| - 1];
      RowsOf(commits[..|commits| - 1], key) + (if last.key == key then [last.vector] else [])
  }

  lemma {:induction false} RowsConcat(a: seq<Commit>, b: seq<Commit>, key: string)
    ensures RowsOf(a + b, key) == RowsOf(a, key) + RowsOf(b, key)
  {
    if |b| == 0 {
      assert a + b == a;
    } else {
      assert (a + b)[..|a + b| - 1] == a + b[..|b| - 1];
      RowsConcat(a, b[..|b| - 1], key);
    }
  }

  // A batch has one row for each key of due, its vector in view, and no others.
  ghost predicate Batch(commits: seq<Commit>, due: set<string>, view: map<string, Managed>) {
    && (forall i :: 0 <= i < |commits| ==>
          commits[i].key in due && commits[i].key in view && commits[i].vector == view[commits[i].key].counter.net)
    && (forall i, j :: 0 <= i < j < |commits| ==> commits[i].key != commits[j].key)
    && (forall k :: k in due ==> exists i :: 0 <= i < |commits| && commits[i].key == k)
  }

  lemma {:induction false} BatchRows(commits: seq<Commit>, due: set<string>, view: map<string, Managed>, key: string)
    requires Batch(commits, due, view)
    ensures RowsOf(commits, key) == if key in due && key in view then [view[key].counter.net] else []
    decreases |commits|
  {
    if |commits| > 0 {
      var front, last := commits[..|commits| - 1], commits[|commits| - 1];
      assert Batch(front, due - {last.key}, view) by {
        forall k | k in due - {last.key} ensures exists i :: 0 <= i < |front| && front[i].key == k {
          var i :| 0 <= i < |commits| && commits[i].key == k;
          assert front[i].key == k;
        }
      }
      BatchRows(front, due - {last.key}, view, key);
    }
  }

  lemma BatchGrows(commits: seq<Commit>, due: set<string>, view: map<string, Managed>, key: string)
    requires Batch(commits, due, view) && key !in due && key in view
    ensures Batch(commits + [Commit(key, view[key].counter.net)], due + {key}, view)
  {
    var more := commits + [Commit(key, view[key].counter.net)];
    forall k | k in due + {key} ensures exists i :: 0 <= i < |more| && more[i].key == k {
      if k == key {
        assert more[|commits|].key == k;
      } else {
        var i :| 0 <= i < |commits| && commits[i].key == k;
        assert more[i].key == k;
      }
    }
  }

  // Every key got these rows on top of those it had.
  ghost predicate RowsAdded(before: seq<Commit>, after: seq<Commit>, rows: string -> seq<int>) {
    forall k :: RowsOf(after, k) == RowsOf(before, k) + rows(k)
  }

  function Rows(key: string, vectors: seq<int>): (r: seq<Commit>)
    ensures |r| == |vectors| && forall i :: 0 <= i < |r| ==> r[i] == Commit(key, vectors[i])
  {
    seq(|vectors|, i requires 0 <= i < |vectors| => Commit(key, vectors[i]))
  }

  lemma SmallRows(key: string, vector: int)
    ensures Rows(key, []) == [] && Rows(key, [vector]) == [Commit(key, vector)]
  {
  }

  lemma {:induction false} RowsOfKey(key: string, vectors: seq<int>, k: string)
    ensures RowsOf(Rows(key, vectors), k) == if k == key then vectors else []
  {
    hide Rows;
    if |vectors| > 0 {
      var front, last := vectors[..|vectors| - 1], vectors[|vectors| - 1];
      RowsOfKey(key, front, k);
      assert Rows(key, vectors)[..|vectors| - 1] == Rows(key, front);
      assert vectors == front + [last];
    }
  }

  predicate Paired(commits: seq<Commit>, vsaToCommit: seq<VSA>, vectors: seq<int>, counters: map<string, ManagedVSA>)
  {
    && |commits| == |vsaToCommit| == |vectors|
    && forall i :: 0 <= i < |commits| ==>
         && commits[i].key in counters && vsaToCommit[i] == counters[commits[i].key].instance
         && vectors[i] == commits[i].vector
  }

  lemma NoneDue(commits: seq<Commit>, due: set<string>, view: map<string, Managed>)
    requires Batch(commits, due, view) && |commits| == 0
    ensures due == {}
  {
  }

  // The three slices of a scan so far: a batch of the keys of due, with their instances and vectors.
  ghost predicate Gathered(commits: seq<Commit>, vsaToCommit: seq<VSA>, vectors: seq<int>, due: set<string>,
                           view: map<string, Managed>, counters: map<string, ManagedVSA>) {
    Batch(commits, due, view) && Paired(commits, vsaToCommit, vectors, counters)
  }

  lemma Gather(commits: seq<Commit>, vsaToCommit: seq<VSA>, vectors: seq<int>, due: set<string>, rest: set<string>,
               view: map<string, Managed>, counters: map<string, ManagedVSA>, key: string)
    requires Gathered(commits, vsaToCommit, vectors, due - rest, view, counters)
    requires key in rest && key in view && key in counters
    ensures key !in due ==> Gathered(commits, vsaToCommit, vectors, due - (rest - {key}), view, counters)
    ensures key in due ==> Gathered(commits + [Commit(key, view[key].counter.net)],
      vsaToCommit + [counters[key].instance], vectors + [view[key].counter.net], due - (rest - {key}), view, counters)
  {
    hide Batch;
    if key in due {
      BatchGrows(commits, due - rest, view, key);
      assert due - (rest - {key}) == (due - rest) + {key};
    } else {
      assert due - (rest - {key}) == due - rest;
    }
  }

  lemma AllGathered(commits: seq<Commit>, vsaToCommit: seq<VSA>, vectors: seq<int>, due: set<string>, rest: set<string>,
                    view: map<string, Managed>, counters: map<string, ManagedVSA>)
    requires Gathered(commits, vsaToCommit, vectors, due - rest, view, counters) && rest == {}
    ensures Batch(commits, due, view) && Paired(commits, vsaToCommit, vectors, counters)
  {
    assert due - rest == due;
  }

  lemma OneLess(rest: set<string>, key: string)
    requires key in rest
    ensures |rest - {key}| < |rest|
  {
  }

  function Selected(p: Policy, view: map<string, Managed>, now: int): set<string> {
    set k | k in view && Selects(p, view[k], now)
  }

  lemma DueStep(p: Policy, view: map<string, Managed>, now: int, rest: set<string>, key: string)
    requires key in rest && rest <= view.Keys
    ensures key in Selected(p, view, now) <==> Selects(p, view[key], now)
  {
    hide Selects;
  }

  ghost predicate MarkedAll(p: Policy, before: map<string, Managed>, now: int, after: map<string, Managed>) {
    after.Keys == before.Keys && forall k :: k in after ==> after[k] == Marked(p, before[k], now)
  }

  // The scan has marked every key but those in rest.
  ghost predicate Scanned(p: Policy, before: map<string, Managed>, now: int, rest: set<string>, view: map<string, Managed>) {
    view.Keys == before.Keys &&
    forall k :: k in view ==> view[k] == if k in rest then before[k] else Marked(p, before[k], now)
  }

  lemma ScanStep(p: Policy, before: map<string, Managed>, now: int, rest: set<string>, view: map<string, Managed>,
                 key: string)
    requires Scanned(p, before, now, rest, view) && key in rest && key in view
    ensures before.Keys == view.Keys && view[key] == before[key]
    ensures Scanned(p, before, now, rest - {key}, view[key := Marked(p, view[key], now)])
  {
    hide Marked;
  }

  lemma ScanDone(p: Policy, before: map<string, Managed>, now: int, rest: set<string>, view: map<string, Managed>)
    requires Scanned(p, before, now, rest, view) && rest == {}
    ensures MarkedAll(p, before, now, view)
  {
  }

  lemma NothingYet(p: Policy, view: map<string, Managed>, now: int, counters: map<string, ManagedVSA>)
    requires view.Keys == counters.Keys
    ensures Gathered([], [], [], Selected(p, view, now) - counters.Keys, view, counters)
    ensures Scanned(p, view, now, counters.Keys, view)
  {
  }

  // Marking a key does not touch its vector.
  lemma SameVectors(p: Policy, commits: seq<Commit>, due: set<string>, view: map<string, Managed>, now: int,
                    view': map<string, Managed>)
    requires Batch(commits, due, view) && MarkedAll(p, view, now, view')
    ensures Batch(commits, due, view')
  {
    hide Selects;
  }

  ghost predicate SettledDue(before: map<string, Managed>, due: set<string>, after: map<string, Managed>) {
    after.Keys == before.Keys && forall k :: k in after ==>
      after[k] == if k in due then Settled(before[k], before[k].counter.net, 0) else before[k]
  }

  lemma NoneToSettle(view: map<string, Managed>)
    ensures SettledDue(view, {}, view)
  {
  }

  predicate Paid(commits: seq<Commit>, key: string) {
    exists i :: 0 <= i < |commits| && commits[i].key == key
  }

  lemma PaidStep(commits: seq<Commit>, i: nat)
    requires i < |commits|
    ensures forall k :: Paid(commits[..i + 1], k) <==> Paid(commits[..i], k) || k == commits[i].key
  {
    assert commits[..i + 1] == commits[..i] + [commits[i]];
    forall k ensures Paid(commits[..i + 1], k) <==> Paid(commits[..i], k) || k == commits[i].key {
      if Paid(commits[..i], k) {
        var j :| 0 <= j < i && commits[..i][j].key == k;
        assert commits[..i + 1][j].key == k;
      }
      if k == commits[i].key {
        assert commits[..i + 1][i].key == k;
      }
      if Paid(commits[..i + 1], k) {
        var j :| 0 <= j < i + 1 && commits[..i + 1][j].key == k;
        assert j < i ==> commits[..i][j].key == k;
      }
    }
  }

  lemma PaidOnce(commits: seq<Commit>, i: nat, due: set<string>, view: map<string, Managed>)
    requires Batch(commits, due, view) && i < |commits|
    ensures !Paid(commits[..i], commits[i].key)
  {
  }

  // The vectors of these rows, and no others, have come off their instances.
  ghost predicate SettledFor(before: map<string, Managed>, commits: seq<Commit>, view: map<string, Managed>) {
    view.Keys == before.Keys && forall k :: k in view ==>
      view[k] == if Paid(commits, k) then Settled(before[k], before[k].counter.net, 0) else before[k]
  }

  lemma NoneSettled(before: map<string, Managed>, commits: seq<Commit>)
    ensures SettledFor(before, commits[..0], before)
  {
  }

  lemma SettleStep(before: map<string, Managed>, commits: seq<Commit>, i: nat, view: map<string, Managed>, due: set<string>)
    requires i < |commits| && SettledFor(before, commits[..i], view) && Batch(commits, due, before)
    ensures commits[i].key in view
    ensures SettledFor(before, commits[..i + 1], view[commits[i].key := Settled(view[commits[i].key], commits[i].vector, 0)])
  {
    hide Settled, Paid;
    PaidStep(commits, i);
    assert !Paid(commits[..i], commits[i].key) by { PaidOnce(commits, i, due, before); }
  }

  lemma AllSettled(before: map<string, Managed>, commits: seq<Commit>, view: map<string, Managed>, due: set<string>)
    requires SettledFor(before, commits, view) && Batch(commits, due, before)
    ensures SettledDue(before, due, view)
  {
    hide Settled;
  }

  // Every key did its own cycle step.
  ghost predicate Cycled(p: Policy, before: map<string, Managed>, now: int, ok: bool, after: map<string, Managed>) {
    after.Keys == before.Keys && forall k :: k in after ==> after[k] == AfterCycle(p, before[k], now, ok, 0)
  }

  lemma CycleEnds(p: Policy, before: map<string, Managed>, now: int, ok: bool,
                  marked: map<string, Managed>, after: map<string, Managed>)
    requires MarkedAll(p, before, now, marked)
    requires if ok then SettledDue(marked, Selected(p, before, now), after) else after == marked
    ensures Cycled(p, before, now, ok, after)
  {
    hide Selects, CounterSpec.AfterCommit;
  }

  function CycleRowsFor(p: Policy, view: map<string, Managed>, now: int, ok: bool): string -> seq<int> {
    (k: string) => if k in view then CycleRows(p, view[k], now, ok) else []
  }

  lemma NoRows(p: Policy, view: map<string, Managed>, now: int, persisted: seq<Commit>)
    ensures RowsAdded(persisted, persisted, CycleRowsFor(p, view, now, false))
  {
  }

  lemma CycleRowsOf(p: Policy, view: map<string, Managed>, now: int, commits: seq<Commit>, persisted: seq<Commit>)
    requires Batch(commits, Selected(p, view, now), view)
    ensures RowsAdded(persisted, persisted + commits, CycleRowsFor(p, view, now, true))
  {
    hide Selects, Batch, RowsOf;
    forall k ensures RowsOf(persisted + commits, k) == RowsOf(persisted, k) + CycleRowsFor(p, view, now, true)(k) {
      RowsConcat(persisted, commits, k);
      BatchRows(commits, Selected(p, view, now), view, k);
    }
  }

  function NonZero(view: map<string, Managed>): set<string> {
    set k | k in view && view[k].counter.net != 0
  }

  lemma NoRemainders(view: map<string, Managed>, counters: map<string, ManagedVSA>)
    requires view.Keys == counters.Keys
    ensures Gathered([], [], [], NonZero(view) - counters.Keys, view, counters)
  {
  }

  lemma RemainderStep(view: map<string, Managed>, rest: set<string>, key: string)
    requires key in rest && rest <= view.Keys
    ensures key in NonZero(view) <==> view[key].counter.net != 0
  {
  }

  ghost predicate FlushedAll(before: map<string, Managed>, ok: bool, after: map<string, Managed>) {
    after.Keys == before.Keys && forall k :: k in after ==> after[k] == AfterFinalFlush(before[k], ok, 0)
  }

  lemma FlushEnds(before: map<string, Managed>, ok: bool, after: map<string, Managed>)
    requires if ok then SettledDue(before, NonZero(before), after) else after == before
    ensures FlushedAll(before, ok, after)
  {
    hide CounterSpec.AfterCommit;
  }

  function FinalRowsFor(view: map<string, Managed>, ok: bool): string -> seq<int> {
    (k: string) => if k in view then FinalRows(view[k], ok) else []
  }

  lemma FinalRowsOf(view: map<string, Managed>, commits: seq<Commit>, persisted: seq<Commit>)
    requires Batch(commits, NonZero(view), view)
    ensures RowsAdded(persisted, persisted + commits, FinalRowsFor(view, true))
    ensures RowsAdded(persisted, persisted, FinalRowsFor(view, false))
  {
    hide Batch, RowsOf;
    forall k ensures RowsOf(persisted + commits, k) == RowsOf(persisted, k) + FinalRowsFor(view, true)(k) {
      RowsConcat(persisted, commits, k);
      BatchRows(commits, NonZero(view), view, k);
    }
  }

  predicate SameBut(key: string, view: map<string, Managed>, view': map<string, Managed>) {
    view' - {key} == view - {key}
  }

  lemma SameWithout(view: map<string, Managed>, key: string, m: Managed)
    ensures SameBut(key, view, view[key := m]) && SameBut(key, view, view)
  {
  }

  // What a caller does to a key: it looks the counter up and changes it.
  datatype Access = Access(now: int, d: int, choice: nat)

  // What the turn of a key meets: the accesses since it was listed, the time and the persister's answer.
  datatype Visit = Visit(accesses: seq<Access>, later: int, ok: bool)

  function Used(m: Managed, a: Access): Managed {
    Changed(m.(lastAccessed := a.now), a.d)
  }

  function Accessed(m: Managed, accesses: seq<Access>): Managed {
    if |accesses| == 0 then m
    else Used(Accessed(m, accesses[..|accesses| - 1]), accesses[|accesses| - 1])
  }

  lemma AccessNone(view: map<string, Managed>, key: string)
    requires key in view
    ensures view[key := Accessed(view[key], [])] == view
  {
  }

  lemma AccessStep(m: Managed, accesses: seq<Access>, i: nat)
    requires i < |accesses|
    ensures Accessed(m, accesses[..i + 1]) == Used(Accessed(m, accesses[..i]), accesses[i])
  {
    assert accesses[..i + 1][..i] == accesses[..i];
  }

  function EvictRowsAt(p: Policy, view: map<string, Managed>, key: string, later: int, ok: bool): seq<int> {
    if key in view then EvictRows(p, true, view[key], later, ok) else []
  }

  function Kept(p: Policy, view: map<string, Managed>, key: string, later: int, ok: bool): map<string, Managed> {
    if key in view && Evicts(p, true, view[key], later, ok) then view - {key} else view
  }

  // The turn of this key drops it.
  predicate Drops(p: Policy, m: Managed, v: Visit) {
    Evicts(p, true, Accessed(m, v.accesses), v.later, v.ok)
  }

  function DropRows(p: Policy, m: Managed, v: Visit): seq<int> {
    EvictRows(p, true, Accessed(m, v.accesses), v.later, v.ok)
  }

  // The keys had their turns and the others none.
  ghost predicate Evicted(p: Policy, before: map<string, Managed>, visits: string -> Visit, keys: seq<string>,
                          view: map<string, Managed>) {
    && (forall k :: k in view <==> k in before && !(k in keys && Drops(p, before[k], visits(k))))
    && (forall k :: k in view ==> view[k] == if k in keys then Accessed(before[k], visits(k).accesses) else before[k])
  }

  function EvictedRows(p: Policy, before: map<string, Managed>, visits: string -> Visit, keys: seq<string>)
    : string -> seq<int>
  {
    (k: string) => if k in keys && k in before then DropRows(p, before[k], visits(k)) else []
  }

  // Every key did its own eviction step.
  ghost predicate EvictedAll(p: Policy, before: map<string, Managed>, now: int, visits: string -> Visit,
                             after: map<string, Managed>) {
    && (forall k :: k in after <==> k in before && !(Old(p, before[k], now) && Drops(p, before[k], visits(k))))
    && (forall k :: k in after ==>
          after[k] == if Old(p, before[k], now) then Accessed(before[k], visits(k).accesses) else before[k])
  }

  function EvictRowsFor(p: Policy, before: map<string, Managed>, now: int, visits: string -> Visit)
    : string -> seq<int>
  {
    (k: string) => if k in before && Old(p, before[k], now) then DropRows(p, before[k], visits(k)) else []
  }

  lemma NoneEvicted(p: Policy, before: map<string, Managed>, visits: string -> Visit, keys: seq<string>,
                    persisted: seq<Commit>)
    ensures Evicted(p, before, visits, keys[..0], before)
    ensures RowsAdded(persisted, persisted, EvictedRows(p, before, visits, keys[..0]))
  {
    hide RowsOf;
  }

  lemma EvictStep(p: Policy, before: map<string, Managed>, visits: string -> Visit, keys: seq<string>, i: nat,
                  view: map<string, Managed>)
    requires i < |keys| && (forall a, b :: 0 <= a < b < |keys| ==> keys[a] != keys[b])
    requires keys[i] in before && Evicted(p, before, visits, keys[..i], view)
    ensures keys[i] in view && view[keys[i]] == before[keys[i]]
    ensures var (k, v) := (keys[i], visits(keys[i]));
      Evicted(p, before, visits, keys[..i + 1], Kept(p, view[k := Accessed(view[k], v.accesses)], k, v.later, v.ok))
  {
    hide Evicts, Accessed;
    assert keys[i] !in keys[..i];
    assert keys[..i + 1] == keys[..i] + [keys[i]];
  }

  lemma EvictRowsStep(p: Policy, before: map<string, Managed>, visits: string -> Visit, keys: seq<string>, i: nat,
                      start: seq<Commit>, persisted: seq<Commit>)
    requires i < |keys| && (forall a, b :: 0 <= a < b < |keys| ==> keys[a] != keys[b])
    requires keys[i] in before && RowsAdded(start, persisted, EvictedRows(p, before, visits, keys[..i]))
    ensures RowsAdded(start, persisted + Rows(keys[i], DropRows(p, before[keys[i]], visits(keys[i]))),
                      EvictedRows(p, before, visits, keys[..i + 1]))
  {
    hide RowsOf, Rows, DropRows;
    var key := keys[i];
    var more := DropRows(p, before[key], visits(key));
    assert key !in keys[..i];
    assert keys[..i + 1] == keys[..i] + [key];
    forall k ensures RowsOf(persisted + Rows(key, more), k)
        == RowsOf(start, k) + EvictedRows(p, before, visits, keys[..i + 1])(k)
    {
      RowsConcat(persisted, Rows(key, more), k);
      RowsOfKey(key, more, k);
    }
  }

  lemma EvictEnds(p: Policy, before: map<string, Managed>, now: int, visits: string -> Visit, keys: seq<string>,
                  view: map<string, Managed>, start: seq<Commit>, persisted: seq<Commit>)
    requires Evicted(p, before, visits, keys, view)
    requires forall k :: k in keys <==> k in before && Old(p, before[k], now)
    requires RowsAdded(start, persisted, EvictedRows(p, before, visits, keys))
    ensures EvictedAll(p, before, now, visits, view)
    ensures RowsAdded(start, persisted, EvictRowsFor(p, before, now, visits))
  {
    hide RowsOf, DropRows, Drops;
    forall k ensures RowsOf(persisted, k) == RowsOf(start, k) + EvictRowsFor(p, before, now, visits)(k) {
      assert RowsOf(persisted, k) == RowsOf(start, k) + EvictedRows(p, before, visits, keys)(k);
    }
  }
}
