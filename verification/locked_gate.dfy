/** With the lock-free path out of reach, the concurrent gate with commits is linearizable: it
    behaves like the plain atomic limiter under every schedule. */
module LockedGate {
  import opened Sums
  import opened Limiter
  import opened Wrappers
  import opened GateMachine

  // The fast path is off, or the scalar is too small for it ever to be taken.
  predicate Serial(guard: int, scalar: int) {
    guard <= 0 || scalar <= guard
  }

  predicate SerialPc(guard: int, pc: Pc) {
    match pc
    case FastScalar(n) => guard > 0 && n > 0
    case FastApprox(n, sc) => guard > 0 && n > 0 && sc <= guard
    case FastStripe(n) => false
    case FastNet(n) => false
    case Locking(call) => WellFormed(call)
    case _ => true
  }

  // Vector, approximate net and scalar agree with an available budget of a.
  predicate Settled(s: State, a: int) {
    s.approx == Vector(s) && 0 <= Vector(s) && s.scalar - Vector(s) == a
  }

  // What a lock holder owes at each point before the state is settled again.
  predicate Owes(s: State, pc: Pc, a: int) {
    match pc
    case GateScalar(n) => Settled(s, a) && n > 0
    case Scan(call, sc, k, acc) =>
      && Settled(s, a) && WellFormed(call) && k <= |s.stripes| && acc == Sum(s.stripes[..k])
      && (call.Consume? ==> sc == s.scalar)
    case Stripe(d) => s.approx == Vector(s) && 0 <= Vector(s) && 0 <= Vector(s) + d && s.scalar - Vector(s) - d == a
    case Net(d) => s.approx + d == Vector(s) && 0 <= Vector(s) && s.scalar - Vector(s) == a
    case CommitScalar(d) => Settled(s, a) && 0 <= d <= Vector(s)
    case CommitOffset(d) => s.approx == Vector(s) && 0 <= d <= Vector(s) && s.scalar + d - Vector(s) == a
    case _ => Settled(s, a)
  }

  ghost predicate Inv(guard: int, budget: int, s: State) {
    && Serial(guard, s.scalar)
    && MutexOk(s)
    && (forall t :: 0 <= t < |s.pcs| ==> SerialPc(guard, s.pcs[t]))
    && Agrees(budget, s.log)
    && (if s.lock.None? then Settled(s, Replay(budget, s.log))
        else Owes(s, s.pcs[s.lock.value], Replay(budget, s.log)))
    && (0 <= budget && s.lock.Some? && s.pcs[s.lock.value].Stripe? ==> Vector(s) <= s.scalar)
  }

  // A thread outside the critical section cannot disturb the holder's obligation.
  lemma OutsideMoves(guard: int, budget: int, s: State, t: nat, pc: Pc)
    requires Inv(guard, budget, s) && t < |s.pcs| && !Holds(s.pcs[t])
    requires !Holds(pc) && SerialPc(guard, pc)
    ensures Inv(guard, budget, Goto(s, t, pc))
  {
    hide Sum, Agrees, Replay;
    assert Vector(Goto(s, t, pc)) == Vector(s);
    assert s.lock != Some(t);
  }

  lemma OutsideStep(guard: int, budget: int, s: State, t: nat, idx: nat)
    requires Inv(guard, budget, s) && t < |s.pcs| && !Holds(s.pcs[t])
    ensures Inv(guard, budget, Continue(guard, s, t, idx))
  {
    hide Agrees, Replay;
    match s.pcs[t] {
      case FastScalar(n) => OutsideMoves(guard, budget, s, t, FastApprox(n, s.scalar));
      case FastApprox(n, sc) => OutsideMoves(guard, budget, s, t, Locking(Call.Consume(n)));
      case Locking(call) =>
        if s.lock.None? {
          assert s.stripes[..0] == [];
          MutexStep(guard, s, Action(t, Advance(idx)));
        }
      case _ =>
    }
  }

  // A holder that moves on inside its critical section, deciding something on the way.
  lemma HolderMoves(guard: int, budget: int, s: State, t: nat, pc: Pc, log: seq<Event>)
    requires Inv(guard, budget, s) && t < |s.pcs| && s.lock == Some(t)
    requires Holds(pc) && Agrees(budget, log) && Owes(s, pc, Replay(budget, log))
    requires 0 <= budget && pc.Stripe? ==> Vector(s) <= s.scalar
    ensures Inv(guard, budget, Goto(s, t, pc).(log := log))
  {
    hide Sum, Agrees, Replay;
    var s' := Goto(s, t, pc).(log := log);
    assert Vector(s') == Vector(s);
    assert MutexOk(s');
  }

  // A decision taken on the exact net is the limiter's own decision.
  lemma DecisionIsExact(budget: int, s: State, call: Call, sc: int)
    requires Agrees(budget, s.log) && Settled(s, Replay(budget, s.log)) && WellFormed(call)
    requires call.Consume? ==> sc == s.scalar
    ensures var (pc, answer) := Decide(call, sc, Vector(s));
      Holds(pc) && Agrees(budget, s.log + answer) && Owes(s, pc, Replay(budget, s.log + answer))
    ensures 0 <= budget ==> Vector(s) <= s.scalar
  {
    hide Agrees, Replay, Sum;
    BudgetHolds(budget, s.log);
    var answer := Decide(call, sc, Vector(s)).1;
    if answer == [] {
      assert s.log + answer == s.log;
    } else {
      AgreesAppend(budget, s.log, answer[0]);
    }
  }

  lemma ScanLoad(guard: int, budget: int, s: State, t: nat, idx: nat)
    requires Inv(guard, budget, s) && t < |s.pcs| && s.pcs[t].Scan? && s.pcs[t].k < |s.stripes|
    ensures Inv(guard, budget, Continue(guard, s, t, idx))
  {
    hide Sum, Agrees, Replay;
    var k := s.pcs[t].k;
    assert s.lock == Some(t);
    SumPrefixStep(s.stripes, k);
    HolderMoves(guard, budget, s, t, Scan(s.pcs[t].call, s.pcs[t].sc, k + 1, s.pcs[t].acc + s.stripes[k]), s.log);
  }

  lemma ScanDecide(guard: int, budget: int, s: State, t: nat, idx: nat)
    requires Inv(guard, budget, s) && t < |s.pcs| && s.pcs[t].Scan? && s.pcs[t].k == |s.stripes|
    ensures Inv(guard, budget, Continue(guard, s, t, idx))
  {
    hide Sum, Agrees, Replay, Decide;
    assert s.lock == Some(t);
    assert s.stripes[..|s.stripes|] == s.stripes;
    DecisionIsExact(budget, s, s.pcs[t].call, s.pcs[t].sc);
    var (pc, answer) := Decide(s.pcs[t].call, s.pcs[t].sc, Vector(s));
    HolderMoves(guard, budget, s, t, pc, s.log + answer);
    assert Continue(guard, s, t, idx) == Goto(s, t, pc).(log := s.log + answer);
  }

  lemma StripeStep(guard: int, budget: int, s: State, t: nat, idx: nat)
    requires Inv(guard, budget, s) && t < |s.pcs| && s.pcs[t].Stripe?
    ensures Inv(guard, budget, Continue(guard, s, t, idx))
  {
    hide Sum, Agrees, Replay;
    MutexStep(guard, s, Action(t, Advance(idx)));
    assert s.lock == Some(t);
    if idx < |s.stripes| {
      SumUpdateAll(s.stripes, idx, s.stripes[idx] + s.pcs[t].d);
    }
  }

  lemma HolderStep(guard: int, budget: int, s: State, t: nat, idx: nat)
    requires Inv(guard, budget, s) && t < |s.pcs| && Holds(s.pcs[t]) && !s.pcs[t].Scan? && !s.pcs[t].Stripe?
    ensures Inv(guard, budget, Continue(guard, s, t, idx))
  {
    hide Sum, Agrees, Replay;
    assert s.lock == Some(t);
    MutexStep(guard, s, Action(t, Advance(idx)));
    if s.pcs[t].GateScalar? {
      NoSum();
      assert s.stripes[..0] == [];
      HolderMoves(guard, budget, s, t, Scan(Call.Consume(s.pcs[t].n), s.scalar, 0, 0), s.log);
    }
  }

  lemma InvStep(guard: int, budget: int, s: State, a: Action)
    requires Inv(guard, budget, s)
    ensures Inv(guard, budget, Step(guard, s, a))
  {
    if a.t < |s.pcs| {
      match a.move {
        case Begin(call) =>
          if s.pcs[a.t].Idle? {
            OutsideMoves(guard, budget, s, a.t, First(guard, call));
          }
        case Advance(idx) =>
          if !Holds(s.pcs[a.t]) {
            OutsideStep(guard, budget, s, a.t, idx);
          } else if s.pcs[a.t].Scan? {
            if s.pcs[a.t].k < |s.stripes| {
              ScanLoad(guard, budget, s, a.t, idx);
            } else {
              ScanDecide(guard, budget, s, a.t, idx);
            }
          } else if s.pcs[a.t].Stripe? {
            StripeStep(guard, budget, s, a.t, idx);
          } else {
            HolderStep(guard, budget, s, a.t, idx);
          }
      }
    }
  }

  lemma {:induction false} InvRun(guard: int, budget: int, s: State, acts: seq<Action>)
    requires Inv(guard, budget, s)
    ensures Inv(guard, budget, Exec(guard, s, acts))
  {
    if |acts| > 0 {
      InvRun(guard, budget, s, acts[..|acts| - 1]);
      InvStep(guard, budget, Exec(guard, s, acts[..|acts| - 1]), acts[|acts| - 1]);
    }
  }

  lemma FreshInv(guard: int, scalar: int, stripeCount: nat, threads: nat)
    requires Serial(guard, scalar)
    ensures Inv(guard, scalar, Fresh(scalar, stripeCount, threads))
  {
    SumOfZeros(Fresh(scalar, stripeCount, threads).stripes);
  }

  /** Main result: under every schedule of consumers, refunders and committers with arbitrary stale
      arguments, the answers are those of the atomic limiter asked in decision order, the vector never
      goes negative, and whenever the mutex is free availability is the limiter's. */
  lemma Linearizable(guard: int, scalar: int, stripeCount: nat, threads: nat, acts: seq<Action>)
    requires Serial(guard, scalar)
    ensures var s := Exec(guard, Fresh(scalar, stripeCount, threads), acts);
      && Agrees(scalar, s.log)
      && 0 <= Vector(s)
      && (s.lock.None? ==>
            && s.approx == Vector(s)
            && s.scalar - Vector(s) == Replay(scalar, s.log)
            && s.scalar - Vector(s) == scalar - (Admitted(s.log) - GivenBack(s.log)))
  {
    FreshInv(guard, scalar, stripeCount, threads);
    InvRun(guard, scalar, Fresh(scalar, stripeCount, threads), acts);
    BudgetHolds(scalar, Exec(guard, Fresh(scalar, stripeCount, threads), acts).log);
  }

  // With the mutex held the vector stays within the scalar too, except between the two adds of a
  // commit, where the scalar has already been lowered and the offset not yet raised.
  lemma WithinScalar(guard: int, budget: int, s: State)
    requires Inv(guard, budget, s) && 0 <= budget
    requires s.lock.Some? ==> !s.pcs[s.lock.value].CommitOffset?
    ensures Vector(s) <= s.scalar
  {
    BudgetHolds(budget, s.log);
  }

  /** No schedule admits more than the initial scalar, net of refunds, and whenever the mutex is free
      there is something left or exactly nothing, never less. */
  lemma NeverOversubscribed(guard: int, scalar: int, stripeCount: nat, threads: nat, acts: seq<Action>)
    requires Serial(guard, scalar) && 0 <= scalar
    ensures var s := Exec(guard, Fresh(scalar, stripeCount, threads), acts);
      && Admitted(s.log) - GivenBack(s.log) <= scalar
      && (s.lock.None? ==> 0 <= s.scalar - Vector(s))
  {
    Linearizable(guard, scalar, stripeCount, threads, acts);
    BudgetHolds(scalar, Exec(guard, Fresh(scalar, stripeCount, threads), acts).log);
  }
}
