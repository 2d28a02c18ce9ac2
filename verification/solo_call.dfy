/** A call of the concurrent gate that nobody interferes with is the operation of the counter. */
module SoloCall {
  import opened Sums
  import opened Limiter
  import opened Wrappers
  import opened GateMachine
  import CounterSpec

  function Value(s: State): CounterSpec.Counter {
    CounterSpec.Counter(s.scalar, Vector(s))
  }

  function AsOp(call: Call): CounterSpec.Op {
    match call
    case Consume(n) => CounterSpec.Consume(n)
    case Refund(n) => CounterSpec.Refund(n)
    case Commit(v) => CounterSpec.Commit(v)
  }

  predicate AtRest(s: State) {
    s.lock == None && s.approx == Vector(s) && |s.stripes| > 0
  }

  // The schedule begins no other call.
  ghost predicate Only(acts: seq<Action>, call: Call) {
    forall i :: 0 <= i < |acts| && acts[i].move.Begin? ==> acts[i].move.call == call
  }

  lemma Nothing(guard: int, s: State, call: Call) returns (acts: seq<Action>)
    ensures acts == [] && Exec(guard, s, acts) == s && Only(acts, call)
  {
    acts := [];
  }

  // One more action.
  lemma Do(guard: int, s: State, acts: seq<Action>, call: Call, s': State, a: Action) returns (more: seq<Action>)
    requires Exec(guard, s, acts) == s' && Only(acts, call) && (a.move.Begin? ==> a.move.call == call)
    ensures Exec(guard, s, more) == Step(guard, s', a) && Only(more, call)
  {
    more := acts + [a];
    assert more[..|acts|] == acts;
  }

  // One more step of thread t.
  lemma Then(guard: int, s: State, acts: seq<Action>, call: Call, t: nat, s': State) returns (more: seq<Action>)
    requires Exec(guard, s, acts) == s' && t < |s'.pcs| && Only(acts, call)
    ensures Exec(guard, s, more) == Continue(guard, s', t, 0) && Only(more, call)
  {
    more := Do(guard, s, acts, call, s', Action(t, Advance(0)));
  }

  // Moving on from an arbitrary point of a thread forgets that point.
  lemma GotoAgain(s: State, t: nat, pc: Pc, next: Pc)
    requires t < |s.pcs|
    ensures Goto(Goto(s, t, pc), t, next) == Goto(s, t, next)
  {
    assert s.pcs[t := pc][t := next] == s.pcs[t := next];
  }

  // From the call to its first point, or its end if there is nothing to do.
  lemma Start(guard: int, s: State, t: nat, call: Call) returns (acts: seq<Action>)
    requires t < |s.pcs| && s.pcs[t] == Idle
    ensures Exec(guard, s, acts) == Goto(s, t, First(guard, call)) && Only(acts, call)
  {
    hide Exec;
    acts := Nothing(guard, s, call);
    acts := Do(guard, s, acts, call, s, Action(t, Begin(call)));
  }

  // A consumer reads the scalar and the approximate net.
  lemma ToFastCheck(guard: int, s: State, t: nat, n: int) returns (acts: seq<Action>)
    requires t < |s.pcs| && s.pcs[t] == Idle && guard > 0 && n > 0
    ensures Exec(guard, s, acts) == Goto(s, t, FastApprox(n, s.scalar)) && Only(acts, Call.Consume(n))
  {
    hide Exec;
    acts := Start(guard, s, t, Call.Consume(n));
    acts := Then(guard, s, acts, Call.Consume(n), t, Goto(s, t, FastScalar(n)));
    GotoAgain(s, t, FastScalar(n), FastApprox(n, s.scalar));
  }

  // Far from the limit it is served without the mutex.
  lemma FastCall(guard: int, s: State, t: nat, n: int) returns (acts: seq<Action>)
    requires t < |s.pcs| && s.pcs[t] == Idle && guard > 0 && n > 0 && |s.stripes| > 0
    requires s.scalar - Abs(s.approx) >= n + guard
    ensures Exec(guard, s, acts)
      == Goto(AddStripe(s, 0, n), t, Idle).(approx := s.approx + n, log := s.log + [Admit(n)])
    ensures Only(acts, Call.Consume(n))
  {
    hide Exec;
    var call := Call.Consume(n);
    acts := ToFastCheck(guard, s, t, n);
    acts := Then(guard, s, acts, call, t, Goto(s, t, FastApprox(n, s.scalar)));
    GotoAgain(s, t, FastApprox(n, s.scalar), FastStripe(n));
    var s1 := s.(log := s.log + [Admit(n)]);
    acts := Then(guard, s, acts, call, t, Goto(s1, t, FastStripe(n)));
    GotoAgain(AddStripe(s1, 0, n), t, FastStripe(n), FastNet(n));
    acts := Then(guard, s, acts, call, t, Goto(AddStripe(s1, 0, n), t, FastNet(n)));
    GotoAgain(AddStripe(s1, 0, n), t, FastNet(n), Idle);
  }

  // Every other call with something to do asks for the mutex.
  lemma ToMutex(guard: int, s: State, t: nat, call: Call) returns (acts: seq<Action>)
    requires t < |s.pcs| && s.pcs[t] == Idle && WellFormed(call)
    requires guard > 0 && call.Consume? ==> s.scalar - Abs(s.approx) < call.n + guard
    ensures Exec(guard, s, acts) == Goto(s, t, Locking(call)) && Only(acts, call)
  {
    hide Exec;
    if guard > 0 && call.Consume? {
      acts := ToFastCheck(guard, s, t, call.n);
      acts := Then(guard, s, acts, call, t, Goto(s, t, FastApprox(call.n, s.scalar)));
      GotoAgain(s, t, FastApprox(call.n, s.scalar), Locking(call));
    } else {
      acts := Start(guard, s, t, call);
    }
  }

  lemma {:induction false} ScanTo(guard: int, s: State, t: nat, call: Call, sc: int, k: nat) returns (acts: seq<Action>)
    requires t < |s.pcs| && s.pcs[t] == Scan(call, sc, 0, 0) && k <= |s.stripes|
    ensures Exec(guard, s, acts) == Goto(s, t, Scan(call, sc, k, Sum(s.stripes[..k]))) && Only(acts, call)
  {
    hide Sum, Exec;
    if k == 0 {
      acts := Nothing(guard, s, call);
      NoSum();
      assert s.stripes[..0] == [];
      assert s.pcs[t := s.pcs[t]] == s.pcs;
    } else {
      acts := ScanTo(guard, s, t, call, sc, k - 1);
      SumPrefixStep(s.stripes, k - 1);
      var pc := Scan(call, sc, k - 1, Sum(s.stripes[..k - 1]));
      acts := Then(guard, s, acts, call, t, Goto(s, t, pc));
      GotoAgain(s, t, pc, Scan(call, sc, k, Sum(s.stripes[..k])));
    }
  }

  // With the mutex free, it is taken, the net is read, and nothing has moved.
  lemma ToDecision(guard: int, s: State, t: nat, call: Call) returns (acts: seq<Action>)
    requires t < |s.pcs| && s.pcs[t] == Idle && s.lock == None && WellFormed(call)
    requires guard > 0 && call.Consume? ==> s.scalar - Abs(s.approx) < call.n + guard
    ensures Exec(guard, s, acts)
      == Goto(s, t, Scan(call, if call.Consume? then s.scalar else 0, |s.stripes|, Sum(s.stripes))).(lock := Some(t))
    ensures Only(acts, call)
  {
    hide Exec, Sum;
    var held := s.(lock := Some(t));
    acts := ToMutex(guard, s, t, call);
    acts := Then(guard, s, acts, call, t, Goto(s, t, Locking(call)));
    var sc := if call.Consume? then s.scalar else 0;
    if call.Consume? {
      GotoAgain(held, t, Locking(call), GateScalar(call.n));
      acts := Then(guard, s, acts, call, t, Goto(held, t, GateScalar(call.n)));
      GotoAgain(held, t, GateScalar(call.n), Scan(call, sc, 0, 0));
    } else {
      GotoAgain(held, t, Locking(call), Scan(call, sc, 0, 0));
    }
    var scan := ScanTo(guard, Goto(held, t, Scan(call, sc, 0, 0)), t, call, sc, |s.stripes|);
    GotoAgain(held, t, Scan(call, sc, 0, 0), Scan(call, sc, |s.stripes|, Sum(s.stripes)));
    ExecConcat(guard, s, acts, scan);
    assert s.stripes[..|s.stripes|] == s.stripes;
    acts := acts + scan;
  }

  // From the last write on: the approximate net and the mutex.
  lemma Publish(guard: int, s: State, acts: seq<Action>, call: Call, t: nat, s': State, d: int)
    returns (more: seq<Action>)
    requires t < |s'.pcs| && Exec(guard, s, acts) == Goto(s', t, Net(d)) && Only(acts, call)
    ensures Exec(guard, s, more) == Goto(s', t, Idle).(lock := None, approx := s'.approx + d) && Only(more, call)
  {
    hide Exec;
    more := Then(guard, s, acts, call, t, Goto(s', t, Net(d)));
    GotoAgain(s', t, Net(d), Unlock);
    more := Then(guard, s, more, call, t, Goto(s', t, Unlock).(approx := s'.approx + d));
    GotoAgain(s', t, Unlock, Idle);
  }

  // The mutex holder adds d to a stripe and to the approximate net, and releases.
  lemma AddAndRelease(guard: int, s: State, t: nat, call: Call, d: int) returns (acts: seq<Action>)
    requires t < |s.pcs| && s.pcs[t] == Stripe(d) && |s.stripes| > 0
    ensures Exec(guard, s, acts) == Goto(AddStripe(s, 0, d), t, Idle).(lock := None, approx := s.approx + d)
    ensures Only(acts, call)
  {
    hide Exec;
    acts := Nothing(guard, s, call);
    acts := Then(guard, s, acts, call, t, s);
    acts := Publish(guard, s, acts, call, t, AddStripe(s, 0, d), d);
  }

  // It moves d from the net to the scalar and releases.
  lemma MoveAndRelease(guard: int, s: State, t: nat, call: Call, d: int) returns (acts: seq<Action>)
    requires t < |s.pcs| && s.pcs[t] == CommitScalar(d)
    ensures Exec(guard, s, acts)
      == Goto(s, t, Idle).(lock := None, scalar := s.scalar - Abs(d), offset := s.offset + d, approx := s.approx - d)
    ensures Only(acts, call)
  {
    hide Exec;
    acts := Nothing(guard, s, call);
    acts := Then(guard, s, acts, call, t, s);
    var s1 := s.(scalar := s.scalar - Abs(d));
    acts := Then(guard, s, acts, call, t, Goto(s1, t, CommitOffset(d)));
    GotoAgain(s1, t, CommitOffset(d), Net(-d));
    acts := Publish(guard, s, acts, call, t, s1.(offset := s.offset + d), -d);
  }

  // The call is over and has done what the operation of the counter does.
  ghost predicate Served(s: State, s': State, call: Call) {
    && s'.pcs == s.pcs && AtRest(s')
    && Value(s') == CounterSpec.Apply(Value(s), AsOp(call))
    && s'.log == s.log + CounterSpec.Answer(Value(s), AsOp(call))
    && (!call.Commit? ==> s'.offset == s.offset)
  }

  // The state in which the decision has been taken.
  function Decided(s: State, t: nat, call: Call): State
    requires t < |s.pcs|
  {
    var (pc, answer) := Decide(call, s.scalar, Vector(s));
    Goto(s, t, pc).(lock := Some(t), log := s.log + answer)
  }

  lemma FromDecision(guard: int, s: State, t: nat, call: Call) returns (acts: seq<Action>)
    requires t < |s.pcs| && s.pcs[t] == Idle && AtRest(s) && WellFormed(call)
    ensures Served(s, Exec(guard, Decided(s, t, call), acts), call) && Only(acts, call)
  {
    hide Exec;
    var s1 := Decided(s, t, call);
    match s1.pcs[t] {
      case Unlock =>
        acts := Nothing(guard, s1, call);
        acts := Then(guard, s1, acts, call, t, s1);
      case Stripe(d) =>
        acts := AddAndRelease(guard, s1, t, call, d);
        SumUpdateAll(s.stripes, 0, s.stripes[0] + d);
      case CommitScalar(d) =>
        acts := MoveAndRelease(guard, s1, t, call, d);
    }
    assert Exec(guard, s1, acts).pcs == s.pcs;
  }

  lemma FastServed(guard: int, s: State, t: nat, n: int) returns (acts: seq<Action>)
    requires t < |s.pcs| && s.pcs[t] == Idle && AtRest(s) && guard > 0 && n > 0
    requires s.scalar - Abs(s.approx) >= n + guard
    ensures Served(s, Exec(guard, s, acts), Call.Consume(n)) && Only(acts, Call.Consume(n))
  {
    hide Exec, Sum;
    acts := FastCall(guard, s, t, n);
    SumUpdateAll(s.stripes, 0, s.stripes[0] + n);
    assert Exec(guard, s, acts).pcs == s.pcs;
  }

  lemma SlowServed(guard: int, s: State, t: nat, call: Call) returns (acts: seq<Action>)
    requires t < |s.pcs| && s.pcs[t] == Idle && AtRest(s) && WellFormed(call)
    requires guard > 0 && call.Consume? ==> s.scalar - Abs(s.approx) < call.n + guard
    ensures Served(s, Exec(guard, s, acts), call) && Only(acts, call)
  {
    hide Exec, Served, Sum;
    acts := ToDecision(guard, s, t, call);
    var pc := Scan(call, if call.Consume? then s.scalar else 0, |s.stripes|, Sum(s.stripes));
    var held := s.(lock := Some(t));
    acts := Then(guard, s, acts, call, t, Goto(held, t, pc));
    GotoAgain(held, t, pc, Decide(call, s.scalar, Vector(s)).0);
    var rest := FromDecision(guard, s, t, call);
    ExecConcat(guard, s, acts, rest);
    acts := acts + rest;
  }

  /** Taken alone from a gate at rest, every call of the concurrent machine, whatever the guard and by the
      lock-free path or under the mutex, ends at rest with the value and the answer of the counter's
      operation, which are also those of the sequential class. */
  lemma RefinesCounter(guard: int, s: State, t: nat, call: Call) returns (acts: seq<Action>)
    requires t < |s.pcs| && s.pcs[t] == Idle && AtRest(s)
    ensures Served(s, Exec(guard, s, acts), call) && Only(acts, call)
  {
    hide Exec;
    if !WellFormed(call) {
      acts := Nothing(guard, s, call);
      assert s.log + [] == s.log;
    } else if guard > 0 && call.Consume? && s.scalar - Abs(s.approx) >= call.n + guard {
      acts := FastServed(guard, s, t, call.n);
    } else {
      acts := SlowServed(guard, s, t, call);
    }
  }
}
