/** The background worker over the store: commit cycles, the final flush and eviction, one at a time.
    What each does to a key is WorkerSpec's step for that key. */
module Workers {
  import opened Sums
  import opened Wrappers
  import opened WorkerSpec
  import opened WorkerBatches
  import CounterSpec
  import opened Vsa
  import opened Stores

  class Worker {
    const store: Store
    const policy: Policy
    // What the persister has durably accepted, in order.
    var persisted: seq<Commit>

    ghost predicate Valid()
      reads this, store, store.Repr
    {
      this !in store.Repr && store.Valid() && policy.initialScalar == store.initialScalar
    }

    constructor (store: Store, policy: Policy)
      requires store.Valid() && policy.initialScalar == store.initialScalar
      ensures Valid() && this.store == store && this.policy == policy && persisted == []
    {
      this.store, this.policy := store, policy;
      persisted := [];
    }

    // The persister takes a batch as a whole or fails.
    method CommitBatch(commits: seq<Commit>, ok: bool)
      modifies this`persisted
      ensures persisted == if ok then old(persisted) + commits else old(persisted)
    {
      if ok {
        persisted := persisted + commits;
      }
    }

    // The body of the scan for one key: decide, re-arm, disarm.
    method Consider(key: string, now: int) returns (selected: bool, vector: int)
      requires store.Valid() && key in store.counters
      modifies store.Repr
      ensures store.Valid() && store.Repr == old(store.Repr) && store.counters == old(store.counters)
      ensures selected == Selects(policy, old(store.View())[key], now)
      ensures vector == old(store.View())[key].counter.net
      ensures store.View() == old(store.View())[key := Marked(policy, old(store.View())[key], now)]
    {
      hide ManagedVSA.Repr, VSA.Valid, Store.Valid, Store.View, VSA.Net, Sum;
      var v := store.counters[key];
      ghost var before := v.Value();
      vector := v.instance.CurrentVector();
      assert vector == before.counter.net;
      var absVec := Abs(vector);
      var byThreshold := absVec >= policy.threshold;
      var byMaxAge := policy.maxAge > 0 && vector != 0 && now - v.lastAccessed >= policy.maxAge;
      selected := false;
      if byThreshold {
        if policy.low <= 0 || v.armed {
          selected := true;
        }
      } else if policy.low > 0 && !v.armed && absVec <= policy.low {
        v.Arm(true);
      }
      if byMaxAge {
        selected := true;
      }
      if selected {
        v.Arm(false);
      }
      assert v.Value() == Marked(policy, before, now);
      store.OthersKept(key);
    }

    // The scan of a commit cycle.
    method Collect(now: int) returns (commits: seq<Commit>, vsaToCommit: seq<VSA>, vectors: seq<int>)
      requires store.Valid()
      modifies store.Repr
      ensures store.Valid() && store.Repr == old(store.Repr) && store.counters == old(store.counters)
      ensures MarkedAll(policy, old(store.View()), now, store.View())
      ensures Batch(commits, Selected(policy, old(store.View()), now), old(store.View()))
      ensures Paired(commits, vsaToCommit, vectors, store.counters)
    {
      hide Store.Valid, Store.View, Marked, Selects, Batch, Paired, Selected, Scanned, MarkedAll, Gathered, ManagedVSA.Repr;
      ghost var before := store.View();
      commits, vsaToCommit, vectors := [], [], [];
      var rest := store.counters.Keys;
      NothingYet(policy, before, now, store.counters);
      while rest != {}
        invariant store.Valid() && store.Repr == old(store.Repr) && store.counters == old(store.counters)
        invariant rest <= store.counters.Keys
        invariant Scanned(policy, before, now, rest, store.View())
        invariant Gathered(commits, vsaToCommit, vectors, Selected(policy, before, now) - rest, before, store.counters)
        decreases |rest|
      {
        var key :| key in rest;
        DueStep(policy, before, now, rest, key);
        ScanStep(policy, before, now, rest, store.View(), key);
        Gather(commits, vsaToCommit, vectors, Selected(policy, before, now), rest, before, store.counters, key);
        OneLess(rest, key);
        rest := rest - {key};
        var selected, vector := Consider(key, now);
        if selected {
          commits := commits + [Commit(key, vector)];
          vsaToCommit := vsaToCommit + [store.counters[key].instance];
          vectors := vectors + [vector];
        }
      }
      ScanDone(policy, before, now, rest, store.View());
      AllGathered(commits, vsaToCommit, vectors, Selected(policy, before, now), rest, before, store.counters);
    }

    method CommitInstance(ghost key: string, instance: VSA, vector: int)
      requires store.Valid() && key in store.counters && instance == store.counters[key].instance
      modifies store.Repr
      ensures store.Valid() && store.Repr == old(store.Repr) && store.counters == old(store.counters)
      ensures store.View() == old(store.View())[key := Settled(old(store.View())[key], vector, 0)]
    {
      hide ManagedVSA.Repr, VSA.Valid, Store.Valid, Store.View, VSA.Net, Sum;
      instance.Commit(vector);
      store.OthersKept(key);
    }

    // The persisted vectors come off the instances they were read from.
    method Settle(commits: seq<Commit>, vsaToCommit: seq<VSA>, vectors: seq<int>, ghost due: set<string>)
      requires store.Valid() && Batch(commits, due, store.View())
      requires Paired(commits, vsaToCommit, vectors, store.counters)
      modifies store.Repr
      ensures store.Valid() && store.Repr == old(store.Repr) && store.counters == old(store.counters)
      ensures SettledDue(old(store.View()), due, store.View())
    {
      hide Store.Valid, Store.View, Settled, Batch, SettledFor, ManagedVSA.Repr;
      ghost var before := store.View();
      NoneSettled(before, commits);
      for i := 0 to |vsaToCommit|
        invariant store.Valid() && store.Repr == old(store.Repr) && store.counters == old(store.counters)
        invariant SettledFor(before, commits[..i], store.View())
      {
        SettleStep(before, commits, i, store.View(), due);
        CommitInstance(commits[i].key, vsaToCommit[i], vectors[i]);
      }
      assert commits[..|vsaToCommit|] == commits;
      AllSettled(before, commits, store.View(), due);
    }

    /** One commit cycle that nobody interferes with: every key does its own cycle step, and the persister
        gets one row for every key selected, or nothing if it fails. */
    method RunCommitCycle(now: int, ok: bool)
      requires Valid()
      modifies this`persisted, store.Repr
      ensures Valid() && Cycled(policy, old(store.View()), now, ok, store.View())
      ensures RowsAdded(old(persisted), persisted, CycleRowsFor(policy, old(store.View()), now, ok))
    {
      hide Store.Valid, Store.View, Batch, RowsAdded, Selected, Paired, RowsOf, Cycled, MarkedAll,
        SettledDue, CycleRowsFor, ManagedVSA.Repr, ManagedVSA.Value, ManagedVSA.Valid;
      ghost var before := store.View();
      ghost var due := Selected(policy, before, now);
      var commits, vsaToCommit, vectors := Collect(now);
      ghost var marked := store.View();
      CycleRowsOf(policy, before, now, commits, persisted);
      NoRows(policy, before, now, persisted);
      if |commits| == 0 {
        NoneDue(commits, due, before);
        NoneToSettle(marked);
        CycleEnds(policy, before, now, ok, marked, marked);
        assert persisted + commits == persisted;
        return;
      }
      CommitBatch(commits, ok);
      if !ok {
        CycleEnds(policy, before, now, ok, marked, marked);
        return;
      }
      SameVectors(policy, commits, due, before, now, marked);
      Settle(commits, vsaToCommit, vectors, due);
      CycleEnds(policy, before, now, ok, marked, store.View());
    }

    method VectorOf(key: string) returns (vector: int)
      requires store.Valid() && key in store.counters
      ensures vector == store.View()[key].counter.net
    {
      hide Store.Valid, Store.View, ManagedVSA.Repr, VSA.Valid, VSA.Net, Sum;
      vector := store.counters[key].instance.CurrentVector();
    }

    method CollectRemainders() returns (commits: seq<Commit>, vsaToCommit: seq<VSA>, vectors: seq<int>)
      requires store.Valid()
      ensures Batch(commits, NonZero(store.View()), store.View())
      ensures Paired(commits, vsaToCommit, vectors, store.counters)
    {
      hide Store.Valid, Store.View, Batch, Paired, Gathered, NonZero, ManagedVSA.Repr, ManagedVSA.Value, ManagedVSA.Valid;
      ghost var view := store.View();
      commits, vsaToCommit, vectors := [], [], [];
      var rest := store.counters.Keys;
      NoRemainders(view, store.counters);
      while rest != {}
        invariant rest <= store.counters.Keys
        invariant Gathered(commits, vsaToCommit, vectors, NonZero(view) - rest, view, store.counters)
        decreases |rest|
      {
        var key :| key in rest;
        RemainderStep(view, rest, key);
        Gather(commits, vsaToCommit, vectors, NonZero(view), rest, view, store.counters, key);
        OneLess(rest, key);
        rest := rest - {key};
        var v := store.counters[key];
        var vector := VectorOf(key);
        if vector != 0 {
          commits := commits + [Commit(key, vector)];
          vsaToCommit := vsaToCommit + [v.instance];
          vectors := vectors + [vector];
        }
      }
      AllGathered(commits, vsaToCommit, vectors, NonZero(view), rest, view, store.counters);
    }

    /** The flush at shutdown: every vector that is not zero, whatever the threshold, is persisted and
        taken off, or nothing is if the persister fails. */
    method RunFinalFlush(ok: bool)
      requires Valid()
      modifies this`persisted, store.Repr
      ensures Valid() && FlushedAll(old(store.View()), ok, store.View())
      ensures RowsAdded(old(persisted), persisted, FinalRowsFor(old(store.View()), ok))
    {
      hide Store.Valid, Store.View, Batch, RowsAdded, NonZero, Paired, RowsOf, FlushedAll, SettledDue,
        FinalRowsFor, ManagedVSA.Repr, ManagedVSA.Value, ManagedVSA.Valid;
      ghost var before := store.View();
      ghost var due := NonZero(before);
      var commits, vsaToCommit, vectors := CollectRemainders();
      FinalRowsOf(before, commits, persisted);
      if |commits| == 0 {
        NoneDue(commits, due, before);
        NoneToSettle(before);
        FlushEnds(before, ok, before);
        assert persisted + commits == persisted;
        return;
      }
      CommitBatch(commits, ok);
      if !ok {
        FlushEnds(before, ok, before);
        return;
      }
      Settle(commits, vsaToCommit, vectors, due);
      FlushEnds(before, ok, store.View());
    }

    // The keys that look stale at the start of an eviction cycle, in the order of the scan.
    method CollectStale(now: int) returns (keysToEvict: seq<string>)
      requires store.Valid()
      ensures forall i, j :: 0 <= i < j < |keysToEvict| ==> keysToEvict[i] != keysToEvict[j]
      ensures forall k :: k in keysToEvict <==>
        k in store.View() && Old(policy, store.View()[k], now)
    {
      hide Store.Valid, ManagedVSA.Repr, ManagedVSA.Valid, VSA.Net, Sum;
      keysToEvict := [];
      var rest := store.counters.Keys;
      while rest != {}
        invariant rest <= store.counters.Keys
        invariant forall i, j :: 0 <= i < j < |keysToEvict| ==> keysToEvict[i] != keysToEvict[j]
        invariant forall k :: k in keysToEvict <==>
          k in store.View() && k !in rest && Old(policy, store.View()[k], now)
        decreases |rest|
      {
        var key :| key in rest;
        OneLess(rest, key);
        rest := rest - {key};
        if now - store.counters[key].lastAccessed > policy.evictionAge {
          keysToEvict := keysToEvict + [key];
        }
      }
    }

    // The last commit before a key is dropped, if there is anything to save.
    method SaveRemainder(key: string, ok: bool) returns (saved: bool)
      requires Valid() && key in store.counters
      modifies this`persisted, store.Repr
      ensures Valid() && store.Repr == old(store.Repr) && store.counters == old(store.counters)
      ensures saved <==> old(store.View())[key].counter.net == 0 || ok
      ensures SameBut(key, old(store.View()), store.View())
      ensures !saved ==> store.View() == old(store.View())
      ensures persisted == old(persisted) + Rows(key, FinalRows(old(store.View())[key], ok))
    {
      hide Store.Valid, Store.View, ManagedVSA.Repr, ManagedVSA.Value, ManagedVSA.Valid, Settled, Rows, SameBut;
      ghost var before := store.View();
      var managed := store.counters[key];
      var vector := VectorOf(key);
      SmallRows(key, vector);
      SameWithout(before, key, before[key]);
      if vector != 0 {
        CommitBatch([Commit(key, vector)], ok);
        if !ok {
          return false;
        }
        CommitInstance(key, managed.instance, vector);
        SameWithout(before, key, Settled(before[key], vector, 0));
      }
      return true;
    }

    // The turn of one stale key: look again, save what is left, drop it.
    method EvictOne(key: string, later: int, ok: bool)
      requires Valid()
      modifies this`persisted, store.Repr
      ensures Valid() && store.Repr == old(store.Repr)
      ensures store.View() == Kept(policy, old(store.View()), key, later, ok)
      ensures persisted == old(persisted) + Rows(key, EvictRowsAt(policy, old(store.View()), key, later, ok))
    {
      hide Store.Valid, ManagedVSA.Repr, ManagedVSA.Valid, VSA.Net, Sum;
      if key in store.counters {
        ghost var before := store.View();
        assert before[key].lastAccessed == store.counters[key].lastAccessed;
        if later - store.counters[key].lastAccessed > policy.evictionAge {
          hide Store.View;
          var saved := SaveRemainder(key, ok);
          if saved {
            store.Delete(key);
          }
        }
      }
    }

    method UpdateInstance(ghost key: string, instance: VSA, d: int, choice: nat)
      requires store.Valid() && key in store.counters && instance == store.counters[key].instance
      modifies store.Repr
      ensures store.Valid() && store.Repr == old(store.Repr) && store.counters == old(store.counters)
      ensures store.View() == old(store.View())[key := Changed(old(store.View())[key], d)]
    {
      hide ManagedVSA.Repr, VSA.Valid, Store.Valid, Store.View, VSA.Net, Sum;
      store.counters[key].Owns();
      instance.Update(d, choice);
      store.OthersKept(key);
    }

    // Another caller looks the counter of the key up and changes it.
    method Use(key: string, a: Access)
      requires store.Valid() && key in store.counters
      modifies store.Repr
      ensures store.Valid() && store.Repr == old(store.Repr) && store.counters == old(store.counters)
      ensures store.View() == old(store.View())[key := Used(old(store.View())[key], a)]
    {
      hide ManagedVSA.Repr, ManagedVSA.Valid, ManagedVSA.Value, VSA.Valid, Store.Valid, Store.View, VSA.Net, Changed;
      var instance := store.GetOrCreate(key, a.now);
      UpdateInstance(key, instance, a.d, a.choice);
    }

    method Interleave(key: string, accesses: seq<Access>)
      requires store.Valid() && key in store.counters
      modifies store.Repr
      ensures store.Valid() && store.Repr == old(store.Repr) && store.counters == old(store.counters)
      ensures store.View() == old(store.View())[key := Accessed(old(store.View())[key], accesses)]
    {
      hide Store.Valid, Store.View, ManagedVSA.Repr, ManagedVSA.Value, ManagedVSA.Valid, Accessed, Used;
      ghost var before := store.View();
      AccessNone(before, key);
      assert accesses[..0] == [];
      for i := 0 to |accesses|
        invariant store.Valid() && store.Repr == old(store.Repr) && store.counters == old(store.counters)
        invariant store.View() == before[key := Accessed(before[key], accesses[..i])]
      {
        AccessStep(before[key], accesses, i);
        Use(key, accesses[i]);
      }
      assert accesses[..|accesses|] == accesses;
    }

    /** An eviction cycle, with what callers do to the listed keys before their turns. Exactly the keys that
        were old when listed, are still old in their turn and lose nothing are dropped, and what they had
        left is persisted; a key touched in between stays with all it was given; nothing else changes. */
    method RunEvictionCycle(now: int, visits: string -> Visit)
      requires Valid()
      modifies this`persisted, store.Repr
      ensures Valid() && EvictedAll(policy, old(store.View()), now, visits, store.View())
      ensures RowsAdded(old(persisted), persisted, EvictRowsFor(policy, old(store.View()), now, visits))
    {
      hide Store.Valid, Store.View, Evicted, RowsAdded, Kept, Rows, EvictedAll, Evicts, Accessed, ManagedVSA.Repr,
        ManagedVSA.Value, ManagedVSA.Valid;
      ghost var before := store.View();
      var keysToEvict := CollectStale(now);
      NoneEvicted(policy, before, visits, keysToEvict, persisted);
      for i := 0 to |keysToEvict|
        invariant Valid() && store.Repr == old(store.Repr)
        invariant Evicted(policy, before, visits, keysToEvict[..i], store.View())
        invariant RowsAdded(old(persisted), persisted, EvictedRows(policy, before, visits, keysToEvict[..i]))
      {
        var key := keysToEvict[i];
        EvictStep(policy, before, visits, keysToEvict, i, store.View());
        EvictRowsStep(policy, before, visits, keysToEvict, i, old(persisted), persisted);
        Interleave(key, visits(key).accesses);
        EvictOne(key, visits(key).later, visits(key).ok);
      }
      assert keysToEvict[..|keysToEvict|] == keysToEvict;
      EvictEnds(policy, before, now, visits, keysToEvict, store.View(), old(persisted), persisted);
    }
  }

  // The history of a key matches what the store and the persister have for it.
  ghost predicate Tracks(k: Key, view: map<string, Managed>, persisted: seq<Commit>, key: string) {
    && k.live == (if key in view then Some(view[key]) else None)
    && k.rows == RowsOf(persisted, key)
  }

  /** A commit cycle, the final flush and an eviction cycle of the worker are, for every key, the steps
      whose runs WorkerSpec and Hysteresis speak about. */
  lemma CycleIsStep(p: Policy, k: Key, key: string, now: int, ok: bool, before: map<string, Managed>,
                    persisted: seq<Commit>, after: map<string, Managed>, persisted': seq<Commit>)
    requires Tracks(k, before, persisted, key)
    requires Cycled(p, before, now, ok, after) && RowsAdded(persisted, persisted', CycleRowsFor(p, before, now, ok))
    ensures Tracks(Step(p, k, Cycle(now, ok, 0)), after, persisted', key)
  {
    hide RowsOf, Selects, CounterSpec.AfterCommit;
    assert RowsOf(persisted', key) == RowsOf(persisted, key) + CycleRowsFor(p, before, now, ok)(key);
  }

  lemma TouchIsStep(p: Policy, k: Key, key: string, now: int, before: map<string, Managed>,
                    persisted: seq<Commit>, after: map<string, Managed>)
    requires Tracks(k, before, persisted, key)
    requires after == before[key := if key in before then before[key].(lastAccessed := now)
      else Managed(CounterSpec.Counter(p.initialScalar, 0), now, true)]
    ensures Tracks(Step(p, k, Touch(now)), after, persisted, key)
  {
    hide RowsOf;
  }

  lemma FinalFlushIsStep(p: Policy, k: Key, key: string, ok: bool, before: map<string, Managed>,
                         persisted: seq<Commit>, after: map<string, Managed>, persisted': seq<Commit>)
    requires Tracks(k, before, persisted, key)
    requires FlushedAll(before, ok, after) && RowsAdded(persisted, persisted', FinalRowsFor(before, ok))
    ensures Tracks(Step(p, k, FinalFlush(ok, 0)), after, persisted', key)
  {
    hide RowsOf, CounterSpec.AfterCommit;
    assert RowsOf(persisted', key) == RowsOf(persisted, key) + FinalRowsFor(before, ok)(key);
  }

  function AccessEvents(accesses: seq<Access>): seq<Event> {
    if |accesses| == 0 then []
    else
      var last := accesses[|accesses| - 1];
      AccessEvents(accesses[..|accesses| - 1]) + [Touch(last.now), Change(last.d)]
  }

  lemma {:induction false} AccessRun(p: Policy, k: Key, accesses: seq<Access>)
    requires k.live.Some?
    ensures var k' := Run(p, k, AccessEvents(accesses));
      k'.live == Some(Accessed(k.live.value, accesses)) && k'.rows == k.rows && k'.listed == k.listed
  {
    if |accesses| > 0 {
      var front, last := AccessEvents(accesses[..|accesses| - 1]), accesses[|accesses| - 1];
      AccessRun(p, k, accesses[..|accesses| - 1]);
      assert (front + [Touch(last.now)])[..|front|] == front;
      assert (front + [Touch(last.now), Change(last.d)])[..|front| + 1] == front + [Touch(last.now)];
    }
  }

  // What an eviction cycle lets happen to the key between its listing and its turn.
  function Between(p: Policy, before: map<string, Managed>, key: string, now: int, v: Visit): seq<Event> {
    if key in before && Old(p, before[key], now) then AccessEvents(v.accesses) else []
  }

  lemma EvictionIsStep(p: Policy, k: Key, key: string, now: int, visits: string -> Visit,
                       before: map<string, Managed>, persisted: seq<Commit>,
                       after: map<string, Managed>, persisted': seq<Commit>)
    requires Tracks(k, before, persisted, key)
    requires EvictedAll(p, before, now, visits, after)
    requires RowsAdded(persisted, persisted', EvictRowsFor(p, before, now, visits))
    ensures var v := visits(key);
      var k' := Run(p, Step(p, k, List(now)), Between(p, before, key, now, v));
      Tracks(Step(p, k', Turn(v.later, v.ok, 0)), after, persisted', key)
  {
    hide RowsOf, CounterSpec.AfterCommit, Accessed, AccessEvents;
    assert RowsOf(persisted', key) == RowsOf(persisted, key) + EvictRowsFor(p, before, now, visits)(key);
    var v := visits(key);
    var k1 := Step(p, k, List(now));
    if key in before && Old(p, before[key], now) {
      AccessRun(p, k1, v.accesses);
      var m := Accessed(before[key], v.accesses);
      assert Changed(m, 0) == m;
    } else {
      assert k1.rows + [] == k1.rows;
      assert key in before ==> Changed(before[key], 0) == before[key];
    }
  }
}
