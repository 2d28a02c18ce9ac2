/** What the two watermarks buy, over runs of one key. */
module Hysteresis {
  import opened Sums
  import CounterSpec
  import opened WorkerSpec

  // A cycle that put this live key into its batch, whether or not the persister then succeeded.
  predicate Batched(p: Policy, k: Key, e: Event) {
    k.live.Some? && e.Cycle? && Selects(p, k.live.value, e.now)
  }

  // A cycle that found the vector at or below the low watermark, and below the threshold.
  predicate SawLow(p: Policy, k: Key, e: Event) {
    k.live.Some? && e.Cycle? && Abs(Vector(k)) <= p.low && Abs(Vector(k)) < p.threshold
  }

  predicate Evicted(p: Policy, k: Key, e: Event) {
    k.live.Some? && e.Turn? && Evicts(p, k.listed, k.live.value, e.later, e.ok)
  }

  // The key is neither put into a batch nor evicted.
  predicate Quiet(p: Policy, k: Key, events: seq<Event>) {
    forall i :: 0 <= i < |events| ==>
      var before := Run(p, k, events[..i]);
      !Batched(p, before, events[i]) && !Evicted(p, before, events[i])
  }

  predicate SomeSawLow(p: Policy, k: Key, events: seq<Event>) {
    exists i :: 0 <= i < |events| && SawLow(p, Run(p, k, events[..i]), events[i])
  }

  // The key stays in the store and no cycle sees its vector low.
  predicate StaysHigh(p: Policy, k: Key, events: seq<Event>) {
    forall i :: 0 <= i < |events| ==>
      var before := Run(p, k, events[..i]);
      !SawLow(p, before, events[i]) && !Evicted(p, before, events[i])
  }

  lemma NothingSeen(p: Policy, k: Key)
    ensures Quiet(p, k, []) && !SomeSawLow(p, k, [])
  {
  }

  lemma LastOne(p: Policy, k: Key, events: seq<Event>)
    requires |events| > 0
    ensures var (front, last) := (events[..|events| - 1], events[|events| - 1]);
      var before := Run(p, k, front);
      && (Quiet(p, k, events) <==> Quiet(p, k, front) && !Batched(p, before, last) && !Evicted(p, before, last))
      && (SomeSawLow(p, k, events) <==> SomeSawLow(p, k, front) || SawLow(p, before, last))
      && (StaysHigh(p, k, events) <==> StaysHigh(p, k, front) && !SawLow(p, before, last) && !Evicted(p, before, last))
  {
    hide Run, SawLow, Batched, Evicted;
    var n := |events| - 1;
    var front := events[..n];
    assert forall i :: 0 <= i < n ==> front[..i] == events[..i] && front[i] == events[i];
    if SomeSawLow(p, k, front) {
      var i :| 0 <= i < n && SawLow(p, Run(p, k, front[..i]), front[i]);
      assert SawLow(p, Run(p, k, events[..i]), events[i]);
    }
  }

  /** Re-arming. Over a run that neither batches nor evicts a disarmed key, the key stays in the store,
      and it is armed at the end if and only if some cycle saw its vector low. */
  lemma {:induction false} RearmedIff(p: Policy, k: Key, events: seq<Event>)
    requires p.low > 0 && k.live.Some? && !k.live.value.armed && Quiet(p, k, events)
    ensures var k' := Run(p, k, events); k'.live.Some? && (k'.live.value.armed <==> SomeSawLow(p, k, events))
  {
    hide CounterSpec.AfterCommit, Stale, Quiet, SomeSawLow, StaysHigh;
    if |events| > 0 {
      LastOne(p, k, events);
      RearmedIff(p, k, events[..|events| - 1]);
    } else {
      NothingSeen(p, k);
    }
  }

  // Between two positions the key stays in the store.
  predicate Stays(p: Policy, k: Key, events: seq<Event>) {
    forall i :: 0 <= i < |events| ==> !Evicted(p, Run(p, k, events[..i]), events[i])
  }

  lemma StepAccess(p: Policy, k: Key, e: Event)
    requires k.live.Some? && !Evicted(p, k, e)
    ensures var k' := Step(p, k, e);
      k'.live.Some? && k'.live.value.lastAccessed == if e.Touch? then e.now else k.live.value.lastAccessed
  {
    hide Selects, CounterSpec.AfterCommit, Evicts;
  }

  lemma {:induction false} AccessTime(p: Policy, k: Key, events: seq<Event>)
    requires k.live.Some? && Stays(p, k, events)
    ensures var k' := Run(p, k, events);
      k'.live.Some? && k'.live.value.lastAccessed == LastAccess(k.live.value.lastAccessed, events)
  {
    hide Step, Evicted;
    if |events| > 0 {
      var n := |events| - 1;
      assert forall i :: 0 <= i < n ==> events[..n][..i] == events[..i] && events[..n][i] == events[i];
      AccessTime(p, k, events[..n]);
      StepAccess(p, Run(p, k, events[..n]), events[n]);
    }
  }

  /** What one cycle commits, after anything that leaves the key in the store. It batches the key if and
      only if the vector has reached the threshold and the key is armed, if that matters, or max-age is
      on, there is a vector, and the last access is at least that long ago. A batch that is persisted is
      one row, the vector; undisturbed, it leaves no vector, and any other cycle leaves all of it. */
  lemma CommitsIff(p: Policy, k: Key, between: seq<Event>, now: int, ok: bool, drift: int)
    requires k.live.Some? && Stays(p, k, between)
    ensures var accessed := LastAccess(k.live.value.lastAccessed, between);
      var k' := Run(p, k, between);
      var v := Vector(k');
      k'.live.Some? &&
      var due := Abs(v) >= p.threshold && (p.low <= 0 || k'.live.value.armed);
      var stale := p.maxAge > 0 && v != 0 && now - accessed >= p.maxAge;
      var k'' := Step(p, k', Cycle(now, ok, drift));
      && (Batched(p, k', Cycle(now, ok, drift)) <==> due || stale)
      && k''.rows == k'.rows + (if ok && (due || stale) then [v] else [])
      && (drift == 0 ==> Vector(k'') == if ok && (due || stale) then 0 else v)
  {
    hide CounterSpec.AfterCommit, Run, LastAccess;
    AccessTime(p, k, between);
    var k' := Run(p, k, between);
    SettledExactIff(Marked(p, k'.live.value, now), drift);
  }

  /** With max-age on, a persisted cycle that nobody interferes with leaves no vector on a key whose last
      access is at least that long ago, whatever the thresholds. */
  lemma OldRemainderSettles(p: Policy, k: Key, between: seq<Event>, now: int)
    requires k.live.Some? && Stays(p, k, between)
    requires p.maxAge > 0 && now - LastAccess(k.live.value.lastAccessed, between) >= p.maxAge
    ensures Vector(Step(p, Run(p, k, between), Cycle(now, true, 0))) == 0
  {
    hide Step, Run, LastAccess;
    CommitsIff(p, k, between, now, true, 0);
  }

  lemma QuietStays(p: Policy, k: Key, events: seq<Event>)
    requires Quiet(p, k, events)
    ensures Stays(p, k, events)
  {
    hide Run, Batched, Evicted;
  }

  /** When a key is batched again. A cycle put it into a batch, which was persisted or failed; nothing
      batched or evicted it since. A later cycle batches it if and only if its vector has reached the
      threshold and some cycle in between saw it low, or max-age says so. */
  lemma RetriedIff(p: Policy, k: Key, first: Event, between: seq<Event>, now: int, ok: bool, drift: int)
    requires p.low > 0 && Batched(p, k, first) && Quiet(p, Step(p, k, first), between)
    ensures var accessed := LastAccess(k.live.value.lastAccessed, between);
      var k1 := Step(p, k, first);
      var k2 := Run(p, k1, between);
      && k2.live.Some?
      && (Batched(p, k2, Cycle(now, ok, drift)) <==>
            || (Abs(Vector(k2)) >= p.threshold && SomeSawLow(p, k1, between))
            || (p.maxAge > 0 && Vector(k2) != 0 && now - accessed >= p.maxAge))
  {
    hide CounterSpec.AfterCommit, Due, Stale, Quiet, Stays, SomeSawLow, Run, LastAccess;
    var k1 := Step(p, k, first);
    assert !k1.live.value.armed && k1.live.value.lastAccessed == k.live.value.lastAccessed;
    RearmedIff(p, k1, between);
    QuietStays(p, k1, between);
    CommitsIff(p, k1, between, now, ok, drift);
  }

  lemma {:induction false} ArmedStays(p: Policy, k: Key, events: seq<Event>)
    requires k.live.Some? && k.live.value.armed && Quiet(p, k, events)
    ensures var k' := Run(p, k, events); k'.live.Some? && k'.live.value.armed
  {
    hide Due, CounterSpec.AfterCommit, Stale, Quiet;
    if |events| > 0 {
      LastOne(p, k, events);
      ArmedStays(p, k, events[..|events| - 1]);
    }
  }

  /** When a new key is batched for the first time: as soon as its vector has reached the threshold, low
      watermark or not, or when max-age says so. */
  lemma FirstBatchIff(p: Policy, k: Key, created: int, between: seq<Event>, now: int, ok: bool, drift: int)
    requires k.live.None? && Quiet(p, Step(p, k, Touch(created)), between)
    ensures var k' := Run(p, Step(p, k, Touch(created)), between);
      && k'.live.Some?
      && (Batched(p, k', Cycle(now, ok, drift)) <==>
            || Abs(Vector(k')) >= p.threshold
            || (p.maxAge > 0 && Vector(k') != 0 && now - LastAccess(created, between) >= p.maxAge))
  {
    hide Due, Stale, Quiet, Stays, Run, LastAccess, Selects;
    var k1 := Step(p, k, Touch(created));
    ArmedStays(p, k1, between);
    QuietStays(p, k1, between);
    CommitsIff(p, k1, between, now, ok, drift);
  }

  // Without max-age a disarmed key that stays high is not batched.
  lemma {:induction false} HighIsQuiet(p: Policy, k: Key, events: seq<Event>)
    requires p.low > 0 && p.maxAge <= 0 && k.live.Some? && !k.live.value.armed && StaysHigh(p, k, events)
    ensures Quiet(p, k, events) && !SomeSawLow(p, k, events)
  {
    hide Due, Run, Step, Quiet, SomeSawLow, StaysHigh;
    if |events| > 0 {
      LastOne(p, k, events);
      HighIsQuiet(p, k, events[..|events| - 1]);
      RearmedIff(p, k, events[..|events| - 1]);
    } else {
      NothingSeen(p, k);
    }
  }

  /** Hysteresis: with a positive low watermark and max-age off, between two cycles that put the same
      live key into a batch, persisted or failed, some cycle in between saw its vector at or below the
      low watermark. */
  lemma HysteresisHolds(p: Policy, k: Key, first: Event, between: seq<Event>, second: Event)
    requires p.low > 0 && p.maxAge <= 0
    requires Batched(p, k, first)
    requires Batched(p, Run(p, Step(p, k, first), between), second)
    ensures !StaysHigh(p, Step(p, k, first), between)
  {
    hide CounterSpec.AfterCommit, Due, StaysHigh, SomeSawLow, Quiet, Run;
    var k1 := Step(p, k, first);
    if StaysHigh(p, k1, between) {
      assert !k1.live.value.armed;
      HighIsQuiet(p, k1, between);
      RetriedIff(p, k, first, between, second.now, second.ok, second.drift);
    }
  }

  /** A batch that failed is not tried again while the key stays high, however many cycles pass: with
      the low watermark on, a failure disarms the key just as a success does. */
  lemma FailedNotRetried(p: Policy, k: Key, now: int, drift: int, later: seq<Event>, e: Event)
    requires p.low > 0 && p.maxAge <= 0 && Batched(p, k, Cycle(now, false, drift))
    requires StaysHigh(p, Step(p, k, Cycle(now, false, drift)), later)
    ensures var k' := Run(p, Step(p, k, Cycle(now, false, drift)), later);
      !Batched(p, k', e)
  {
    hide CounterSpec.AfterCommit, Batched, StaysHigh, Run, Step;
    var first := Cycle(now, false, drift);
    if Batched(p, Run(p, Step(p, k, first), later), e) {
      HysteresisHolds(p, k, first, later, e);
    }
  }

  /** A cycle that nobody interferes with and whose batch is persisted leaves the vector below the
      threshold, unless the key was due but disarmed and too recently used for max-age. */
  lemma BelowThresholdIff(p: Policy, m: Managed, now: int)
    requires p.threshold >= 1
    ensures Abs(AfterCycle(p, m, now, true, 0).counter.net) < p.threshold <==>
      || Abs(m.counter.net) < p.threshold
      || p.low <= 0 || m.armed
      || (p.maxAge > 0 && now - m.lastAccessed >= p.maxAge)
  {
    hide CounterSpec.AfterCommit;
    if Selects(p, m, now) {
      SettledExactIff(Marked(p, m, now), 0);
    }
  }

  /** The final flush writes one row, the vector, if there is one and the persister takes it, whatever the
      thresholds; if nobody interferes it leaves no vector exactly when it was persisted or there was none. */
  lemma FinalFlushSettles(p: Policy, k: Key, ok: bool)
    requires k.live.Some?
    ensures var (v, k') := (Vector(k), Step(p, k, FinalFlush(ok, 0)));
      && k'.rows == k.rows + (if ok && v != 0 then [v] else [])
      && Vector(k') == if ok then 0 else v
  {
    hide CounterSpec.AfterCommit;
    SettledExactIff(k.live.value, 0);
  }
}
