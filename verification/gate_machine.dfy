/** The concurrent gate. Threads share a scalar, a committed offset, an approximate net, an array
    of stripes and one mutex; every load, add, lock and unlock is a step of its own, so a scan of
    the stripes is not atomic. A step that is not possible leaves the state as it is, which is a
    thread waiting its turn, so every sequence of actions is a schedule. Group sums and the cached
    gate are off. */
module GateMachine {
  import opened Sums
  import opened Limiter
  import opened Wrappers
  import CounterSpec

  datatype Call = Consume(n: int) | Refund(n: int) | Commit(v: int)

  datatype Pc =
    | Idle
    // lock-free path of a consumer
    | FastScalar(n: int)
    | FastApprox(n: int, sc: int)
    | FastStripe(n: int)
    | FastNet(n: int)
    // waiting for the mutex
    | Locking(call: Call)
    // holding the mutex
    | GateScalar(n: int)
    | Scan(call: Call, sc: int, k: nat, acc: int)
    | Stripe(d: int)
    | Net(d: int)
    | CommitScalar(d: int)
    | CommitOffset(d: int)
    | Unlock

  datatype State = State(
    scalar: int,
    offset: int,
    approx: int,
    stripes: seq<int>,
    lock: Option<nat>,
    pcs: seq<Pc>,
    log: seq<Event>)

  datatype Move = Begin(call: Call) | Advance(idx: nat)

  datatype Action = Action(t: nat, move: Move)

  function Vector(s: State): int {
    Sum(s.stripes) - s.offset
  }

  function Goto(s: State, t: nat, pc: Pc): State
    requires t < |s.pcs|
  {
    s.(pcs := s.pcs[t := pc])
  }

  function AddStripe(s: State, idx: nat, d: int): State
    requires idx < |s.stripes|
  {
    s.(stripes := s.stripes[idx := s.stripes[idx] + d])
  }

  // Calls with nothing to do return before they touch shared state.
  function First(guard: int, call: Call): Pc {
    match call
    case Consume(n) => if n <= 0 then Idle else if guard > 0 then FastScalar(n) else Locking(call)
    case Refund(n) => if n <= 0 then Idle else Locking(call)
    case Commit(v) => if v == 0 then Idle else Locking(call)
  }

  // The decision a lock holder takes once it has read every stripe and the offset: where it goes
  // next and what it has answered by then.
  function Decide(call: Call, sc: int, net: int): (Pc, seq<Event>) {
    match call
    case Consume(n) => if sc - Abs(net) < n then (Unlock, [Deny(n)]) else (Stripe(n), [Admit(n)])
    case Refund(n) => if net <= 0 then (Unlock, []) else (Stripe(-Min(n, net)), [Refunded(Min(n, net))])
    case Commit(v) => if net == 0 then (Unlock, []) else (CommitScalar(CounterSpec.CommitDelta(v, net)), [])
  }

  function Continue(guard: int, s: State, t: nat, idx: nat): State
    requires t < |s.pcs|
  {
    match s.pcs[t]
    case Idle => s
    case FastScalar(n) => Goto(s, t, FastApprox(n, s.scalar))
    case FastApprox(n, sc) =>
      if sc - Abs(s.approx) >= n + guard then Goto(s, t, FastStripe(n)).(log := s.log + [Admit(n)])
      else Goto(s, t, Locking(Consume(n)))
    case FastStripe(n) => if idx < |s.stripes| then Goto(AddStripe(s, idx, n), t, FastNet(n)) else s
    case FastNet(n) => Goto(s, t, Idle).(approx := s.approx + n)
    case Locking(call) =>
      if s.lock.Some? then s
      else Goto(s, t, if call.Consume? then GateScalar(call.n) else Scan(call, 0, 0, 0)).(lock := Some(t))
    case GateScalar(n) => Goto(s, t, Scan(Consume(n), s.scalar, 0, 0))
    case Scan(call, sc, k, acc) =>
      if k < |s.stripes| then Goto(s, t, Scan(call, sc, k + 1, acc + s.stripes[k]))
      else
        var (pc, answer) := Decide(call, sc, acc - s.offset);
        Goto(s, t, pc).(log := s.log + answer)
    case Stripe(d) => if idx < |s.stripes| then Goto(AddStripe(s, idx, d), t, Net(d)) else s
    case Net(d) => Goto(s, t, Unlock).(approx := s.approx + d)
    case CommitScalar(d) => Goto(s, t, CommitOffset(d)).(scalar := s.scalar - Abs(d))
    case CommitOffset(d) => Goto(s, t, Net(-d)).(offset := s.offset + d)
    case Unlock => Goto(s, t, Idle).(lock := None)
  }

  function Step(guard: int, s: State, a: Action): State {
    if a.t >= |s.pcs| then s
    else match a.move
      case Begin(call) => if s.pcs[a.t].Idle? then Goto(s, a.t, First(guard, call)) else s
      case Advance(idx) => Continue(guard, s, a.t, idx)
  }

  function Exec(guard: int, s: State, acts: seq<Action>): State {
    if |acts| == 0 then s else Step(guard, Exec(guard, s, acts[..|acts| - 1]), acts[|acts| - 1])
  }

  lemma {:induction false} ExecConcat(guard: int, s: State, a: seq<Action>, b: seq<Action>)
    ensures Exec(guard, s, a + b) == Exec(guard, Exec(guard, s, a), b)
  {
    if |b| == 0 {
      assert a + b == a;
    } else {
      ExecConcat(guard, s, a, b[..|b| - 1]);
      assert (a + b)[..|a + b| - 1] == a + b[..|b| - 1];
    }
  }

  // A gate at rest that nobody has used yet.
  function Fresh(scalar: int, stripeCount: nat, threads: nat): State {
    State(scalar, 0, 0, seq(stripeCount, i => 0), None, seq(threads, i => Idle), [])
  }

  predicate Holds(pc: Pc) {
    pc.GateScalar? || pc.Scan? || pc.Stripe? || pc.Net? ||
    pc.CommitScalar? || pc.CommitOffset? || pc.Unlock?
  }

  // The mutex has at most one holder and every critical section has the mutex.
  ghost predicate MutexOk(s: State) {
    && (s.lock.Some? ==> s.lock.value < |s.pcs|)
    && (forall t :: 0 <= t < |s.pcs| ==> (Holds(s.pcs[t]) <==> s.lock == Some(t)))
  }

  predicate WellFormed(call: Call) {
    match call
    case Consume(n) => n > 0
    case Refund(n) => n > 0
    case Commit(v) => v != 0
  }

  lemma MutexStep(guard: int, s: State, a: Action)
    requires MutexOk(s)
    ensures MutexOk(Step(guard, s, a))
  {
  }
}
