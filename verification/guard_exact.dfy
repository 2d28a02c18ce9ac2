/** How far the guard of the lock-free path protects: exactly when there is a single caller, or when
    the guard is so large that the path is never taken. Otherwise a schedule oversubscribes, and the
    bound of FastPath.OvershootBound is reached. */
module GuardExact {
  import opened Sums
  import opened GateMachine
  import FastPath
  import LockedGate
  import SoloCall

  // Threads 1 .. parked were admitted for m units and stopped short of their stripe; thread 0 has
  // brought the vector to v on its own.
  ghost predicate Parked(s: State, scalar: int, v: int, m: nat, parked: nat) {
    && s.scalar == scalar && s.offset == 0 && s.approx == v && Sum(s.stripes) == v
    && |s.stripes| > 0 && s.lock.None? && parked < |s.pcs|
    && s.pcs[0].Idle?
    && (forall t :: 1 <= t <= parked ==> s.pcs[t] == FastStripe(m))
    && (forall t :: parked < t < |s.pcs| ==> s.pcs[t].Idle?)
  }

  // One more caller passes the guard and stops.
  lemma Park(guard: int, s: State, scalar: int, m: nat, parked: nat) returns (acts: seq<Action>)
    requires guard > 0 && m > 0 && scalar >= m + guard
    requires Parked(s, scalar, 0, m, parked) && parked + 1 < |s.pcs|
    ensures FastPath.BoundedSchedule(m, acts)
    ensures Parked(Exec(guard, s, acts), scalar, 0, m, parked + 1) && |Exec(guard, s, acts).pcs| == |s.pcs|
  {
    hide Exec;
    var t, call := parked + 1, Call.Consume(m);
    acts := SoloCall.ToFastCheck(guard, s, t, m);
    var s1 := Goto(s, t, FastApprox(m, s.scalar));
    acts := SoloCall.Then(guard, s, acts, call, t, s1);
    assert Exec(guard, s, acts).pcs == s.pcs[t := FastStripe(m)];
  }

  // Thread 0 is served one unit, by whichever path is open to it.
  lemma FillOne(guard: int, s: State, scalar: int, v: nat, m: nat, parked: nat) returns (acts: seq<Action>)
    requires guard > 0 && m > 0 && Parked(s, scalar, v, m, parked) && 1 <= scalar - v
    ensures FastPath.BoundedSchedule(m, acts)
    ensures Parked(Exec(guard, s, acts), scalar, v + 1, m, parked) && |Exec(guard, s, acts).pcs| == |s.pcs|
  {
    hide Exec;
    acts := SoloCall.RefinesCounter(guard, s, 0, Call.Consume(1));
  }

  lemma {:induction false} FillUp(guard: int, s: State, scalar: int, v: nat, m: nat, parked: nat) returns (acts: seq<Action>)
    requires guard > 0 && m > 0 && Parked(s, scalar, v, m, parked) && v <= scalar
    ensures FastPath.BoundedSchedule(m, acts)
    ensures Parked(Exec(guard, s, acts), scalar, scalar, m, parked) && |Exec(guard, s, acts).pcs| == |s.pcs|
    decreases scalar - v
  {
    if v == scalar {
      acts := [];
    } else {
      var one := FillOne(guard, s, scalar, v, m, parked);
      var rest := FillUp(guard, Exec(guard, s, one), scalar, v + 1, m, parked);
      ExecConcat(guard, s, one, rest);
      acts := one + rest;
    }
  }

  lemma {:induction false} ParkAll(guard: int, s: State, scalar: int, m: nat, parked: nat) returns (acts: seq<Action>)
    requires guard > 0 && m > 0 && scalar >= m + guard && Parked(s, scalar, 0, m, 0) && parked < |s.pcs|
    ensures FastPath.BoundedSchedule(m, acts)
    ensures Parked(Exec(guard, s, acts), scalar, 0, m, parked) && |Exec(guard, s, acts).pcs| == |s.pcs|
  {
    if parked == 0 {
      acts := [];
    } else {
      var before := ParkAll(guard, s, scalar, m, parked - 1);
      var one := Park(guard, Exec(guard, s, before), scalar, m, parked - 1);
      ExecConcat(guard, s, before, one);
      acts := before + one;
    }
  }

  // The parked callers add what they were promised.
  lemma {:induction false} Unpark(guard: int, s: State, m: nat, parked: nat) returns (acts: seq<Action>)
    requires parked < |s.pcs| && |s.stripes| > 0
    requires forall t :: 1 <= t <= parked ==> s.pcs[t] == FastStripe(m)
    ensures FastPath.BoundedSchedule(m, acts)
    ensures Vector(Exec(guard, s, acts)) == Vector(s) + parked * m
    decreases parked
  {
    hide Sum, Exec;
    if parked == 0 {
      acts := SoloCall.Nothing(guard, s, Call.Consume(m));
    } else {
      var s' := Goto(AddStripe(s, 0, m), parked, FastNet(m));
      SumUpdateAll(s.stripes, 0, s.stripes[0] + m);
      var none := SoloCall.Nothing(guard, s, Call.Consume(m));
      var first := SoloCall.Then(guard, s, none, Call.Consume(m), parked, s);
      var rest := Unpark(guard, s', m, parked - 1);
      ExecConcat(guard, s, first, rest);
      acts := first + rest;
      assert parked * m == (parked - 1) * m + m;
    }
  }

  /** The bound is tight: if one request of m units can pass the guard at all, some schedule drives
      the vector (threads - 1) * m past the scalar. */
  lemma OvershootReached(guard: int, m: nat, stripeCount: nat, threads: nat, scalar: int) returns (acts: seq<Action>)
    requires guard > 0 && m > 0 && stripeCount > 0 && threads > 0 && scalar >= m + guard
    ensures FastPath.BoundedSchedule(m, acts)
    ensures Vector(Exec(guard, Fresh(scalar, stripeCount, threads), acts)) == scalar + (threads - 1) * m
  {
    var s := Fresh(scalar, stripeCount, threads);
    SumOfZeros(s.stripes);
    var park := ParkAll(guard, s, scalar, m, threads - 1);
    var s1 := Exec(guard, s, park);
    var fill := FillUp(guard, s1, scalar, 0, m, threads - 1);
    var s2 := Exec(guard, s1, fill);
    var unpark := Unpark(guard, s2, m, threads - 1);
    ExecConcat(guard, s, park, fill);
    ExecConcat(guard, s, park + fill, unpark);
    acts := park + fill + unpark;
  }

  lemma SafeRun(guard: int, m: nat, stripeCount: nat, threads: nat, scalar: int, acts: seq<Action>)
    requires guard > 0 && threads > 0 && scalar >= 0 && (threads == 1 || scalar <= guard)
    requires FastPath.BoundedSchedule(m, acts)
    ensures Vector(Exec(guard, Fresh(scalar, stripeCount, threads), acts)) <= scalar
  {
    hide Exec, FastPath.Inv, LockedGate.Inv;
    var s := Fresh(scalar, stripeCount, threads);
    SumOfZeros(s.stripes);
    FastPath.OvershootBound(guard, m, s, acts);
    if scalar <= guard {
      LockedGate.FreshInv(guard, scalar, stripeCount, threads);
      LockedGate.InvRun(guard, scalar, s, acts);
      FastPath.StartInv(guard, m, s);
      FastPath.InvRun(guard, m, s, acts);
      FastPath.NobodyCommits(guard, m, Exec(guard, s, acts));
      LockedGate.WithinScalar(guard, scalar, Exec(guard, s, acts));
    }
  }

  /** The guard keeps every schedule of bounded requests within the scalar if and only if there is one
      caller or the guard is at least the scalar. */
  lemma GuardSafeIff(guard: int, m: nat, stripeCount: nat, threads: nat, scalar: int)
    requires guard > 0 && m > 0 && stripeCount > 0 && threads > 0 && scalar >= 0
    ensures (forall acts | FastPath.BoundedSchedule(m, acts) ::
              Vector(Exec(guard, Fresh(scalar, stripeCount, threads), acts)) <= scalar)
            <==> threads == 1 || scalar <= guard
  {
    if threads == 1 || scalar <= guard {
      forall acts | FastPath.BoundedSchedule(m, acts)
        ensures Vector(Exec(guard, Fresh(scalar, stripeCount, threads), acts)) <= scalar
      {
        SafeRun(guard, m, stripeCount, threads, scalar, acts);
      }
    } else {
      var acts := OvershootReached(guard, 1, stripeCount, threads, scalar);
      assert FastPath.BoundedSchedule(m, acts);
    }
  }
}
