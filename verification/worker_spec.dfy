/** What the background worker does to one key: hysteresis, max-age, persister failures, the final
    flush and eviction, with the history needed to say what is conserved. */
module WorkerSpec {
  import opened Sums
  import opened CounterSpec
  import opened Wrappers

  datatype Managed = Managed(counter: Counter, lastAccessed: int, armed: bool)

  // Times are in nanoseconds. A low watermark or a max-age of at most 0 is off.
  datatype Policy = Policy(threshold: int, low: int, maxAge: int, evictionAge: int, initialScalar: int)

  predicate Due(p: Policy, m: Managed) {
    Abs(m.counter.net) >= p.threshold
  }

  predicate Stale(p: Policy, m: Managed, now: int) {
    p.maxAge > 0 && m.counter.net != 0 && now - m.lastAccessed >= p.maxAge
  }

  // A commit cycle puts the key into its batch.
  predicate Selects(p: Policy, m: Managed, now: int) {
    (Due(p, m) && (p.low <= 0 || m.armed)) || Stale(p, m, now)
  }

  predicate Rearms(p: Policy, m: Managed) {
    !Due(p, m) && p.low > 0 && !m.armed && Abs(m.counter.net) <= p.low
  }

  function Marked(p: Policy, m: Managed, now: int): Managed {
    m.(armed := if Selects(p, m, now) then false else m.armed || Rearms(p, m))
  }

  function Changed(m: Managed, d: int): Managed {
    m.(counter := m.counter.(net := m.counter.net + d))
  }

  // A commit of the vector that was read, after others have changed it by drift.
  function Settled(m: Managed, vector: int, drift: int): Managed {
    m.(counter := AfterCommit(Changed(m, drift).counter, vector))
  }

  function AfterCycle(p: Policy, m: Managed, now: int, ok: bool, drift: int): Managed {
    if !Selects(p, m, now) then Changed(Marked(p, m, now), drift)
    else if ok then Settled(Marked(p, m, now), m.counter.net, drift)
    else Changed(Marked(p, m, now), drift)
  }

  function CycleRows(p: Policy, m: Managed, now: int, ok: bool): seq<int> {
    if ok && Selects(p, m, now) then [m.counter.net] else []
  }

  function AfterFinalFlush(m: Managed, ok: bool, drift: int): Managed {
    if m.counter.net == 0 || !ok then Changed(m, drift) else Settled(m, m.counter.net, drift)
  }

  function FinalRows(m: Managed, ok: bool): seq<int> {
    if ok && m.counter.net != 0 then [m.counter.net] else []
  }

  // Not accessed for longer than the eviction age.
  predicate Old(p: Policy, m: Managed, now: int) {
    now - m.lastAccessed > p.evictionAge
  }

  // The turn of a key drops it: it was listed, it is still old, and nothing of it is left unsaved.
  predicate Evicts(p: Policy, listed: bool, m: Managed, later: int, ok: bool) {
    listed && Old(p, m, later) && (m.counter.net == 0 || ok)
  }

  function EvictRows(p: Policy, listed: bool, m: Managed, later: int, ok: bool): seq<int> {
    if listed && Old(p, m, later) then FinalRows(m, ok) else []
  }

  function Created(p: Policy, now: int): Managed {
    Managed(Counter(p.initialScalar, 0), now, true)
  }

  /** What others did between the read of a vector and its commit only pushed it further. */
  predicate Grows(vector: int, drift: int) {
    vector == 0 || (vector > 0 && drift >= 0) || (vector < 0 && drift <= 0)
  }

  /** A commit of a vector read before others changed it takes exactly that vector off if and only if
      they only pushed it further. */
  lemma SettledExactIff(m: Managed, drift: int)
    ensures var v := m.counter.net;
      Settled(m, v, drift).counter == Counter(m.counter.scalar - Abs(v), drift) <==> Grows(v, drift)
  {
    CommitExactIff(Changed(m, drift).counter, m.counter.net);
  }

  // An eviction cycle lists the old keys and then gives each of them a turn; anything may happen between.
  datatype Event =
    | Touch(now: int)
    | Change(d: int)
    | Cycle(now: int, ok: bool, drift: int)
    | FinalFlush(ok: bool, drift: int)
    | List(now: int)
    | Turn(later: int, ok: bool, drift: int)

  // listed: an eviction cycle is under way and will come to the key; rows: everything persisted for the
  // key; lifeRows: that of the live instance; cycleRows: how many rows commit cycles wrote; deltas:
  // everything applied to its instances.
  datatype Key = Key(live: Option<Managed>, listed: bool, rows: seq<int>, lifeRows: seq<int>, cycleRows: nat,
                     deltas: seq<int>)

  function Nothing(): Key {
    Key(None, false, [], [], 0, [])
  }

  function Wrote(k: Key, m: Managed, rows: seq<int>, drift: int): Key {
    k.(live := Some(m), rows := k.rows + rows, lifeRows := k.lifeRows + rows, deltas := k.deltas + [drift])
  }

  function Step(p: Policy, k: Key, e: Event): Key {
    if k.live.None? then
      match e
      case Touch(now) => k.(live := Some(Created(p, now)), lifeRows := [])
      case List(_) => k.(listed := false)
      case Turn(_, _, _) => k.(listed := false)
      case _ => k
    else
      var m := k.live.value;
      match e
      case Touch(now) => k.(live := Some(m.(lastAccessed := now)))
      case Change(d) => k.(live := Some(Changed(m, d)), deltas := k.deltas + [d])
      case Cycle(now, ok, drift) =>
        Wrote(k, AfterCycle(p, m, now, ok, drift), CycleRows(p, m, now, ok), drift)
          .(cycleRows := k.cycleRows + |CycleRows(p, m, now, ok)|)
      case FinalFlush(ok, drift) => Wrote(k, AfterFinalFlush(m, ok, drift), FinalRows(m, ok), drift)
      case List(now) => k.(listed := Old(p, m, now))
      case Turn(later, ok, drift) =>
        if Evicts(p, k.listed, m, later, ok) then
          Wrote(k, AfterFinalFlush(m, ok, drift), FinalRows(m, ok), drift).(live := None, listed := false)
        else Wrote(k, Changed(m, drift), [], drift).(listed := false)
  }

  function Run(p: Policy, k: Key, events: seq<Event>): Key {
    if |events| == 0 then k else Step(p, Run(p, k, events[..|events| - 1]), events[|events| - 1])
  }

  function Vector(k: Key): int {
    if k.live.Some? then k.live.value.counter.net else 0
  }

  function Magnitudes(s: seq<int>): seq<int> {
    seq(|s|, i requires 0 <= i < |s| => Abs(s[i]))
  }

  function Volume(s: seq<int>): int {
    Sum(Magnitudes(s))
  }

  lemma VolumeConcat(s: seq<int>, t: seq<int>)
    ensures Volume(s + t) == Volume(s) + Volume(t)
  {
    assert Magnitudes(s + t) == Magnitudes(s) + Magnitudes(t);
    SumConcat(Magnitudes(s), Magnitudes(t));
  }

  lemma One(x: int)
    ensures Sum([x]) == x && Volume([x]) == Abs(x)
  {
    assert [x][..0] == [] && Magnitudes([x]) == [Abs(x)] && [Abs(x)][..0] == [];
  }

  lemma NoVolume()
    ensures Volume([]) == 0
  {
  }

  // What happens around a commit leaves the durable record right: nobody shrinks or turns the vector
  // between its read and its commit, and nobody touches an instance that is being evicted.
  predicate Calm(p: Policy, k: Key, e: Event) {
    k.live.None? ||
    match e
    case Touch(now) => true
    case Change(d) => true
    case Cycle(now, ok, drift) => CycleRows(p, k.live.value, now, ok) == [] || Grows(Vector(k), drift)
    case FinalFlush(ok, drift) => FinalRows(k.live.value, ok) == [] || Grows(Vector(k), drift)
    case List(now) => true
    case Turn(later, ok, drift) => Evicts(p, k.listed, k.live.value, later, ok) ==> drift == 0
  }

  predicate AllCalm(p: Policy, events: seq<Event>) {
    forall i :: 0 <= i < |events| ==> Calm(p, Run(p, Nothing(), events[..i]), events[i])
  }

  // The record of a key: every delta is in a row or in the vector, the scalar has paid for the rows of
  // this life, and the rows and the vector never weigh more than what was applied.
  predicate Recorded(p: Policy, k: Key) {
    && Sum(k.deltas) == Sum(k.rows) + Vector(k)
    && (k.live.Some? ==> k.live.value.counter.scalar == p.initialScalar - Volume(k.lifeRows))
    && Abs(Vector(k)) + Volume(k.rows) <= Volume(k.deltas)
  }

  // A row for everything that was read keeps the record if and only if exactly that was taken off.
  lemma WroteRecordedIff(p: Policy, k: Key, m: Managed, v: int, drift: int)
    requires Recorded(p, k) && k.live.Some? && v == Vector(k)
    ensures Recorded(p, Wrote(k, m, [v], drift))
      <==> m.counter == Counter(k.live.value.counter.scalar - Abs(v), drift)
  {
    hide Sum, Volume;
    One(v);
    One(drift);
    SumAppend(k.deltas, drift);
    SumAppend(k.rows, v);
    VolumeConcat(k.deltas, [drift]);
    VolumeConcat(k.rows, [v]);
    VolumeConcat(k.lifeRows, [v]);
  }

  lemma ChangedRecorded(p: Policy, k: Key, m: Managed, d: int)
    requires Recorded(p, k) && k.live.Some?
    requires m.counter == Counter(k.live.value.counter.scalar, Vector(k) + d)
    ensures Recorded(p, Wrote(k, m, [], d))
    ensures Recorded(p, k.(live := Some(m), deltas := k.deltas + [d]))
  {
    hide Sum, Volume;
    One(d);
    SumAppend(k.deltas, d);
    VolumeConcat(k.deltas, [d]);
    assert k.rows + [] == k.rows && k.lifeRows + [] == k.lifeRows;
  }

  lemma FinalRecordedIff(p: Policy, k: Key, ok: bool, drift: int)
    requires Recorded(p, k) && k.live.Some?
    ensures Recorded(p, Wrote(k, AfterFinalFlush(k.live.value, ok, drift), FinalRows(k.live.value, ok), drift))
      <==> FinalRows(k.live.value, ok) == [] || Grows(Vector(k), drift)
  {
    hide Sum, Volume, AfterCommit, Recorded;
    var m := k.live.value;
    if m.counter.net == 0 || !ok {
      ChangedRecorded(p, k, Changed(m, drift), drift);
    } else {
      SettledExactIff(m, drift);
      WroteRecordedIff(p, k, AfterFinalFlush(m, ok, drift), Vector(k), drift);
    }
  }

  /** An eviction loses exactly what reached the instance after its vector was read. */
  lemma EvictionLoses(p: Policy, k: Key, later: int, drift: int)
    requires Recorded(p, k) && k.live.Some? && Evicts(p, k.listed, k.live.value, later, true)
    ensures var k' := Step(p, k, Turn(later, true, drift));
      Sum(k'.deltas) == Sum(k'.rows) + Vector(k') + drift
  {
    hide Volume, AfterCommit, Evicts, Sum;
    SumAppend(k.deltas, drift);
    if Vector(k) == 0 {
      assert k.rows + [] == k.rows;
    } else {
      SumAppend(k.rows, Vector(k));
    }
  }

  lemma EvictedRecordedIff(p: Policy, k: Key, later: int, ok: bool, drift: int)
    requires Recorded(p, k) && k.live.Some? && Evicts(p, k.listed, k.live.value, later, ok)
    ensures Recorded(p, Step(p, k, Turn(later, ok, drift))) <==> drift == 0
  {
    hide Volume, AfterCommit, Sum;
    var v := Vector(k);
    One(v);
    One(drift);
    SumAppend(k.deltas, drift);
    SumAppend(k.rows, v);
    VolumeConcat(k.deltas, [drift]);
    VolumeConcat(k.rows, [v]);
    assert k.rows + [] == k.rows;
  }

  lemma CycleRecordedIff(p: Policy, k: Key, now: int, ok: bool, drift: int)
    requires Recorded(p, k) && k.live.Some?
    ensures Recorded(p, Step(p, k, Cycle(now, ok, drift))) <==> Calm(p, k, Cycle(now, ok, drift))
  {
    hide Sum, Volume, AfterCommit, Selects;
    var m := k.live.value;
    if ok && Selects(p, m, now) {
      SettledExactIff(Marked(p, m, now), drift);
      WroteRecordedIff(p, k, AfterCycle(p, m, now, ok, drift), Vector(k), drift);
    } else {
      ChangedRecorded(p, k, AfterCycle(p, m, now, ok, drift), drift);
    }
  }

  /** One event keeps the record if and only if it is calm. */
  lemma StepRecordedIff(p: Policy, k: Key, e: Event)
    requires Recorded(p, k)
    ensures Recorded(p, Step(p, k, e)) <==> Calm(p, k, e)
  {
    hide Sum, Volume, AfterCommit, Selects, Evicts;
    if k.live.Some? {
      var m := k.live.value;
      match e {
        case Touch(now) =>
        case Change(d) =>
          ChangedRecorded(p, k, Changed(m, d), d);
        case Cycle(now, ok, drift) => CycleRecordedIff(p, k, now, ok, drift);
        case FinalFlush(ok, drift) => FinalRecordedIff(p, k, ok, drift);
        case List(now) =>
        case Turn(later, ok, drift) =>
          if Evicts(p, k.listed, m, later, ok) {
            EvictedRecordedIff(p, k, later, ok, drift);
          } else {
            ChangedRecorded(p, k, Changed(m, drift), drift);
          }
      }
    } else {
      NoVolume();
    }
  }

  /** Durable conservation fails exactly when someone shrank or turned the vector between its read and a
      persisted commit: the row no longer says what was taken off. */
  lemma CycleConservesIff(p: Policy, k: Key, now: int, drift: int)
    requires Recorded(p, k) && k.live.Some? && Selects(p, k.live.value, now)
    ensures Recorded(p, Step(p, k, Cycle(now, true, drift))) <==> Grows(Vector(k), drift)
  {
    hide Recorded, Selects, Step;
    CycleRecordedIff(p, k, now, true, drift);
  }

  lemma NothingRecorded(p: Policy)
    ensures Recorded(p, Nothing())
  {
  }

  /** Over a whole run, with the persister failing whenever it likes, the record holds at every moment if
      and only if every event of the run is calm when it happens. */
  lemma {:induction false} RunRecordedIff(p: Policy, events: seq<Event>)
    ensures (forall i :: 0 <= i <= |events| ==> Recorded(p, Run(p, Nothing(), events[..i]))) <==> AllCalm(p, events)
  {
    hide Step, Recorded, Calm;
    if |events| > 0 {
      var n := |events| - 1;
      var front := events[..n];
      forall i | 0 <= i <= n ensures front[..i] == events[..i] {
      }
      assert events[..|events|] == events;
      RunRecordedIff(p, front);
      assert AllCalm(p, events) <==> AllCalm(p, front) && Calm(p, Run(p, Nothing(), front), events[n]) by {
        assert forall i :: 0 <= i < n ==> front[i] == events[i];
      }
      assert front[..n] == front;
      if Recorded(p, Run(p, Nothing(), front)) {
        StepRecordedIff(p, Run(p, Nothing(), front), events[n]);
      }
    } else {
      NothingRecorded(p);
    }
  }

  /** Durable conservation: over every calm run, with the persister failing whenever it likes, every
      delta of the key is in a persisted row or in its current vector; the scalar of a live instance is
      its initial value less the magnitude of the rows of its life; and rows and vector together never
      weigh more than the deltas. */
  lemma DurablyConserved(p: Policy, events: seq<Event>)
    requires AllCalm(p, events)
    ensures Recorded(p, Run(p, Nothing(), events))
  {
    hide Run, Recorded, AllCalm;
    RunRecordedIff(p, events);
    assert events[..|events|] == events;
  }

  // The time of the last access, given that of the access before the run.
  function LastAccess(t: int, events: seq<Event>): int {
    if |events| == 0 then t
    else
      var last := events[|events| - 1];
      if last.Touch? then last.now else LastAccess(t, events[..|events| - 1])
  }

  // One eviction cycle at a time: nobody lists the keys again and the turn of this one has not come.
  predicate BetweenLooks(events: seq<Event>) {
    forall i :: 0 <= i < |events| ==> !events[i].List? && !events[i].Turn?
  }

  lemma {:induction false} StaysListed(p: Policy, k: Key, between: seq<Event>)
    requires k.live.Some? && BetweenLooks(between)
    ensures var k' := Run(p, k, between);
      && k'.live.Some? && k'.listed == k.listed
      && k'.live.value.lastAccessed == LastAccess(k.live.value.lastAccessed, between)
  {
    hide Selects, AfterCommit;
    if |between| > 0 {
      StaysListed(p, k, between[..|between| - 1]);
    }
  }

  /** The second look decides. Whatever callers, commit cycles and the final flush do to a key after it
      was listed, its turn drops it if and only if it was old when listed, is old by the last access before
      its turn, and what is left of it by then is nothing or saved as a row; otherwise it stays as it is. */
  lemma TurnDropsIff(p: Policy, k: Key, now: int, between: seq<Event>, later: int, ok: bool, drift: int)
    requires k.live.Some? && BetweenLooks(between)
    ensures var accessed := k.live.value.lastAccessed;
      var k' := Run(p, Step(p, k, List(now)), between);
      var k'' := Step(p, k', Turn(later, ok, drift));
      && (k''.live.None? <==>
            && now - accessed > p.evictionAge
            && later - LastAccess(accessed, between) > p.evictionAge
            && (Vector(k') == 0 || ok))
      && (k''.live.None? ==> k''.rows == k'.rows + (if Vector(k') != 0 then [Vector(k')] else []))
      && (k''.live.Some? ==> k'.live.Some? && k''.live.value == Changed(k'.live.value, drift) && k''.rows == k'.rows)
  {
    hide Run, AfterCommit;
    var k1 := Step(p, k, List(now));
    StaysListed(p, k1, between);
    var k' := Run(p, k1, between);
    assert k'.rows + [] == k'.rows;
  }

  // What commit cycles wrote, when only the threshold selects.
  lemma StepWrites(p: Policy, k: Key, e: Event)
    requires p.maxAge <= 0 && p.threshold * k.cycleRows <= Volume(k.rows)
    ensures p.threshold * Step(p, k, e).cycleRows <= Volume(Step(p, k, e).rows)
  {
    hide Volume, AfterCommit;
    var k' := Step(p, k, e);
    if k.live.Some? {
      var m := k.live.value;
      One(m.counter.net);
      VolumeConcat(k.rows, [m.counter.net]);
      assert k.rows + [] == k.rows;
      assert p.threshold * (k.cycleRows + 1) == p.threshold * k.cycleRows + p.threshold;
    }
  }

  lemma {:induction false} CycleRowsWeigh(p: Policy, events: seq<Event>)
    requires p.maxAge <= 0
    ensures p.threshold * Run(p, Nothing(), events).cycleRows <= Volume(Run(p, Nothing(), events).rows)
  {
    hide Volume, Step;
    if |events| > 0 {
      CycleRowsWeigh(p, events[..|events| - 1]);
      StepWrites(p, Run(p, Nothing(), events[..|events| - 1]), events[|events| - 1]);
    } else {
      NoVolume();
    }
  }

  /** Amortised write bound: with max-age off, commit cycles write at most one row for every threshold's
      worth of what was applied to the key. */
  lemma {:induction false} WriteBound(p: Policy, events: seq<Event>)
    requires p.maxAge <= 0 && AllCalm(p, events)
    ensures var k := Run(p, Nothing(), events);
      p.threshold * k.cycleRows <= Volume(k.rows) && p.threshold * k.cycleRows <= Volume(k.deltas)
  {
    hide Volume, Step, Calm;
    CycleRowsWeigh(p, events);
    DurablyConserved(p, events);
  }
}
