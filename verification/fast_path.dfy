/** The lock-free path between commits. The approximate net lags behind the stripes and the stripe
    scan is not atomic, so callers can overshoot the scalar, but by no more than one request for
    every caller but one. */
module FastPath {
  import opened Sums
  import opened Limiter
  import opened Wrappers
  import opened GateMachine

  // Calls of at most m units, and no commits.
  predicate Bounded(m: nat, call: Call) {
    match call
    case Consume(n) => n <= m
    case Refund(n) => true
    case Commit(v) => false
  }

  ghost predicate BoundedSchedule(m: nat, acts: seq<Action>) {
    forall i :: 0 <= i < |acts| && acts[i].move.Begin? ==> Bounded(m, acts[i].move.call)
  }

  // Admitted by this thread but not yet in a stripe.
  function Pend(pc: Pc): int {
    match pc
    case FastStripe(n) => n
    case Stripe(d) => Max(d, 0)
    case _ => 0
  }

  // In a stripe but not yet in the approximate net.
  function Half(pc: Pc): int {
    match pc
    case FastNet(n) => n
    case Net(d) => d
    case _ => 0
  }

  function Pends(pcs: seq<Pc>): seq<int> {
    seq(|pcs|, t requires 0 <= t < |pcs| => Pend(pcs[t]))
  }

  function Halves(pcs: seq<Pc>): seq<int> {
    seq(|pcs|, t requires 0 <= t < |pcs| => Half(pcs[t]))
  }

  function Loads(pcs: seq<Pc>): seq<int> {
    seq(|pcs|, t requires 0 <= t < |pcs| => Pend(pcs[t]) + Half(pcs[t]))
  }

  // The vector as it will be once every admitted request has reached its stripe.
  function Committed(s: State): int {
    Vector(s) + Sum(Pends(s.pcs))
  }

  // What a scan that has read k stripes for acc in all would find if nobody moved any more.
  function Seen(s: State, k: nat, acc: int): int
    requires k <= |s.stripes|
  {
    acc + Sum(s.stripes) - Sum(s.stripes[..k]) - s.offset
  }

  predicate PcOk(m: nat, s: State, pc: Pc) {
    match pc
    case FastScalar(n) => 0 < n <= m
    case FastApprox(n, sc) => 0 < n <= m && sc == s.scalar
    case FastStripe(n) => 0 < n <= m
    case FastNet(n) => 0 < n <= m
    case Locking(call) => WellFormed(call) && Bounded(m, call)
    case GateScalar(n) => 0 < n <= m
    case Scan(call, sc, k, acc) =>
      && WellFormed(call) && Bounded(m, call) && k <= |s.stripes| && (call.Consume? ==> sc == s.scalar)
    case Stripe(d) => d <= m
    case Net(d) => d <= m
    case CommitScalar(d) => false
    case CommitOffset(d) => false
    case _ => true
  }

  // A scan sees no more than there is, and everything admitted since it started is accounted for:
  // either nobody was admitted meanwhile, or the last one so admitted respected the guard while the
  // scanning thread was carrying nothing.
  predicate Progress(guard: int, m: nat, s: State, pc: Pc)
    requires PcOk(m, s, pc)
  {
    match pc
    case Scan(call, sc, k, acc) =>
      && Seen(s, k, acc) <= Vector(s)
      && (call.Consume? ==>
            || Committed(s) <= Seen(s, k, acc) + (|s.pcs| - 1) * m
            || Committed(s) <= s.scalar - guard + (|s.pcs| - 2) * m)
    case Stripe(d) => 0 <= Vector(s) + d
    case _ => true
  }

  ghost predicate Books(m: nat, s: State) {
    && s.approx + Sum(Halves(s.pcs)) == Vector(s)
    && 0 <= Vector(s)
    && Committed(s) <= s.scalar + (|s.pcs| - 1) * m
  }

  ghost predicate Threads(m: nat, s: State) {
    && MutexOk(s)
    && forall t :: 0 <= t < |s.pcs| ==> PcOk(m, s, s.pcs[t])
  }

  ghost predicate Inv(guard: int, m: nat, s: State) {
    && guard > 0
    && Threads(m, s)
    && Books(m, s)
    && (s.lock.Some? ==> Progress(guard, m, s, s.pcs[s.lock.value]))
  }

  lemma ThreadsMove(m: nat, s: State, s': State, t: nat, pc: Pc)
    requires Threads(m, s) && t < |s.pcs| && PcOk(m, s, pc) && s'.pcs == s.pcs[t := pc]
    requires s'.scalar == s.scalar && |s'.stripes| == |s.stripes|
    requires s'.lock == (if Holds(pc) == Holds(s.pcs[t]) then s.lock else if Holds(pc) then Some(t) else None)
    requires Holds(pc) && !Holds(s.pcs[t]) ==> s.lock.None?
    ensures Threads(m, s')
  {
  }

  lemma GotoSums(pcs: seq<Pc>, t: nat, pc: Pc)
    requires t < |pcs|
    ensures Sum(Pends(pcs[t := pc])) == Sum(Pends(pcs)) + Pend(pc) - Pend(pcs[t])
    ensures Sum(Halves(pcs[t := pc])) == Sum(Halves(pcs)) + Half(pc) - Half(pcs[t])
  {
    SumUpdateAll(Pends(pcs), t, Pend(pc));
    SumUpdateAll(Halves(pcs), t, Half(pc));
    assert Pends(pcs[t := pc]) == Pends(pcs)[t := Pend(pc)];
    assert Halves(pcs[t := pc]) == Halves(pcs)[t := Half(pc)];
  }

  lemma {:induction false} LoadSums(pcs: seq<Pc>)
    ensures Sum(Loads(pcs)) == Sum(Pends(pcs)) + Sum(Halves(pcs))
  {
    if |pcs| > 0 {
      var front := pcs[..|pcs| - 1];
      LoadSums(front);
      assert Loads(pcs)[..|pcs| - 1] == Loads(front);
      assert Pends(pcs)[..|pcs| - 1] == Pends(front);
      assert Halves(pcs)[..|pcs| - 1] == Halves(front);
    }
  }

  // A thread that neither is nor becomes loaded moves between uncritical points.
  lemma QuietMove(guard: int, m: nat, s: State, t: nat, pc: Pc)
    requires Inv(guard, m, s) && t < |s.pcs| && !Holds(s.pcs[t]) && !Holds(pc) && PcOk(m, s, pc)
    requires Pend(s.pcs[t]) == Half(s.pcs[t]) == Pend(pc) == Half(pc) == 0
    ensures Inv(guard, m, Goto(s, t, pc))
  {
    hide Sum, Pends, Halves;
    var s' := Goto(s, t, pc);
    GotoSums(s.pcs, t, pc);
    ThreadsMove(m, s, s', t, pc);
    assert Vector(s') == Vector(s) && Committed(s') == Committed(s);
  }

  // What the other threads carry when this one, and a scanning lock holder, carry nothing.
  lemma OthersCarry(m: nat, s: State, t: nat)
    requires Threads(m, s) && t < |s.pcs| && !Holds(s.pcs[t])
    requires Pend(s.pcs[t]) == Half(s.pcs[t]) == 0
    ensures Sum(Pends(s.pcs)) + Sum(Halves(s.pcs)) <= (|s.pcs| - 1) * m
    ensures s.lock.Some? && s.pcs[s.lock.value].Scan? ==>
      Sum(Pends(s.pcs)) + Sum(Halves(s.pcs)) <= (|s.pcs| - 2) * m
  {
    var loads := Loads(s.pcs);
    LoadSums(s.pcs);
    SumBound(loads, m, {t});
    if s.lock.Some? && s.pcs[s.lock.value].Scan? {
      var u := s.lock.value;
      assert |{t, u}| == 2;
      SumBound(loads, m, {t, u});
    }
  }

  // The lock-free admission: the guard leaves room for everything the approximate net has missed.
  lemma FastAdmit(guard: int, m: nat, s: State, t: nat, n: int)
    requires Inv(guard, m, s) && t < |s.pcs| && s.pcs[t].FastApprox? && n == s.pcs[t].n
    requires s.scalar - Abs(s.approx) >= n + guard
    ensures Inv(guard, m, Goto(s, t, FastStripe(n)))
  {
    hide Sum, Pends, Halves;
    var s' := Goto(s, t, FastStripe(n));
    GotoSums(s.pcs, t, FastStripe(n));
    ThreadsMove(m, s, s', t, FastStripe(n));
    OthersCarry(m, s, t);
    assert Vector(s') == Vector(s);
    assert Committed(s') == s.approx + Sum(Pends(s.pcs)) + Sum(Halves(s.pcs)) + n;
  }

  lemma SeenAfterAdd(s: State, idx: nat, d: int, k: nat, acc: int)
    requires idx < |s.stripes| && k <= |s.stripes|
    ensures Vector(AddStripe(s, idx, d)) == Vector(s) + d
    ensures Seen(AddStripe(s, idx, d), k, acc) == Seen(s, k, acc) + (if idx < k then 0 else d)
  {
    SumUpdateAll(s.stripes, idx, s.stripes[idx] + d);
    SumUpdate(s.stripes, idx, s.stripes[idx] + d, k);
  }

  lemma FastAdd(guard: int, m: nat, s: State, t: nat, idx: nat, n: int)
    requires Inv(guard, m, s) && t < |s.pcs| && s.pcs[t] == FastStripe(n) && idx < |s.stripes|
    ensures Inv(guard, m, Goto(AddStripe(s, idx, n), t, FastNet(n)))
  {
    hide Sum, Pends, Halves;
    var s' := Goto(AddStripe(s, idx, n), t, FastNet(n));
    GotoSums(s.pcs, t, FastNet(n));
    ThreadsMove(m, s, s', t, FastNet(n));
    SeenAfterAdd(s, idx, n, 0, 0);
    assert Vector(s') == Vector(s) + n && Committed(s') == Committed(s);
    if s.lock.Some? && s.pcs[s.lock.value].Scan? {
      var pc := s.pcs[s.lock.value];
      SeenAfterAdd(s, idx, n, pc.k, pc.acc);
      assert Seen(s', pc.k, pc.acc) == Seen(AddStripe(s, idx, n), pc.k, pc.acc);
    }
  }

  lemma FastPublish(guard: int, m: nat, s: State, t: nat, n: int)
    requires Inv(guard, m, s) && t < |s.pcs| && s.pcs[t] == FastNet(n)
    ensures Inv(guard, m, Goto(s, t, Idle).(approx := s.approx + n))
  {
    hide Sum, Pends, Halves;
    var s' := Goto(s, t, Idle).(approx := s.approx + n);
    GotoSums(s.pcs, t, Idle);
    ThreadsMove(m, s, s', t, Idle);
    assert Vector(s') == Vector(s) && Committed(s') == Committed(s);
  }

  // A lock holder moves on without touching the counters.
  lemma HolderMoves(guard: int, m: nat, s: State, t: nat, pc: Pc)
    requires Inv(guard, m, s) && t < |s.pcs| && s.lock == Some(t) && Holds(pc) && PcOk(m, s, pc)
    requires Pend(s.pcs[t]) == Half(s.pcs[t]) == Half(pc) == 0
    requires Committed(s) + Pend(pc) <= s.scalar + (|s.pcs| - 1) * m
    requires Progress(guard, m, Goto(s, t, pc), pc)
    ensures Inv(guard, m, Goto(s, t, pc))
  {
    hide Sum, Pends, Halves;
    var s' := Goto(s, t, pc);
    GotoSums(s.pcs, t, pc);
    ThreadsMove(m, s, s', t, pc);
    assert Vector(s') == Vector(s);
  }

  // Whoever enters the critical section carries nothing, so a scan starts within the bound.
  lemma ScanStarts(m: nat, s: State, t: nat, pc: Pc)
    requires t < |s.pcs| && Pend(s.pcs[t]) == Pend(pc) == 0
    requires Threads(m, s)
    ensures Committed(Goto(s, t, pc)) <= Vector(s) + (|s.pcs| - 1) * m
    ensures Seen(Goto(s, t, pc), 0, 0) == Vector(s)
  {
    GotoSums(s.pcs, t, pc);
    assert s.stripes[..0] == [];
    SumBound(Pends(s.pcs), m, {t});
  }

  lemma Enter(guard: int, m: nat, s: State, t: nat, pc: Pc)
    requires Inv(guard, m, s) && t < |s.pcs| && s.lock.None? && Holds(pc) && PcOk(m, s, pc)
    requires Pend(s.pcs[t]) == Half(s.pcs[t]) == Pend(pc) == Half(pc) == 0
    requires Progress(guard, m, Goto(s, t, pc), pc)
    ensures Inv(guard, m, Goto(s, t, pc).(lock := Some(t)))
  {
    hide Sum, Pends, Halves;
    var s' := Goto(s, t, pc).(lock := Some(t));
    GotoSums(s.pcs, t, pc);
    ThreadsMove(m, s, s', t, pc);
    assert Vector(s') == Vector(s) && Committed(s') == Committed(s);
    assert pc.Scan? ==> Seen(s', pc.k, pc.acc) == Seen(Goto(s, t, pc), pc.k, pc.acc);
  }

  lemma ScanLoad(guard: int, m: nat, s: State, t: nat)
    requires Inv(guard, m, s) && t < |s.pcs| && s.pcs[t].Scan? && s.pcs[t].k < |s.stripes|
    ensures var Scan(call, sc, k, acc) := s.pcs[t];
      Inv(guard, m, Goto(s, t, Scan(call, sc, k + 1, acc + s.stripes[k])))
  {
    hide Sum, Pends, Halves;
    var Scan(call, sc, k, acc) := s.pcs[t];
    var pc := Scan(call, sc, k + 1, acc + s.stripes[k]);
    var s' := Goto(s, t, pc);
    assert s.lock == Some(t);
    SumPrefixStep(s.stripes, k);
    GotoSums(s.pcs, t, pc);
    assert Seen(s', k + 1, acc + s.stripes[k]) == Seen(s, k, acc);
    assert Vector(s') == Vector(s) && Committed(s') == Committed(s);
    HolderMoves(guard, m, s, t, pc);
  }

  // The log takes no part in the argument.
  lemma Relabel(guard: int, m: nat, s: State, log: seq<Event>)
    requires Inv(guard, m, s)
    ensures Inv(guard, m, s.(log := log))
  {
    var s' := s.(log := log);
    assert Vector(s') == Vector(s) && Committed(s') == Committed(s);
    if s.lock.Some? && s.pcs[s.lock.value].Scan? {
      var pc := s.pcs[s.lock.value];
      assert Seen(s', pc.k, pc.acc) == Seen(s, pc.k, pc.acc);
    }
  }

  // The exact check admits on a scan that may be out of date, yet stays within the bound; a refund
  // sized by such a scan never takes more than there is.
  lemma ScanDecide(guard: int, m: nat, s: State, t: nat, answer: seq<Event>)
    requires Inv(guard, m, s) && t < |s.pcs| && s.pcs[t].Scan? && s.pcs[t].k == |s.stripes|
    ensures var pc := Decide(s.pcs[t].call, s.pcs[t].sc, s.pcs[t].acc - s.offset).0;
      Inv(guard, m, Goto(s, t, pc).(log := s.log + answer))
  {
    hide Sum, Pends, Halves;
    var cur := s.pcs[t];
    var pc := Decide(cur.call, cur.sc, cur.acc - s.offset).0;
    assert s.lock == Some(t);
    assert s.stripes[..|s.stripes|] == s.stripes;
    assert Seen(s, cur.k, cur.acc) == cur.acc - s.offset;
    GotoSums(s.pcs, t, pc);
    HolderMoves(guard, m, s, t, pc);
    Relabel(guard, m, Goto(s, t, pc), s.log + answer);
  }

  lemma HolderAdd(guard: int, m: nat, s: State, t: nat, idx: nat, d: int)
    requires Inv(guard, m, s) && t < |s.pcs| && s.pcs[t] == Stripe(d) && idx < |s.stripes|
    ensures Inv(guard, m, Goto(AddStripe(s, idx, d), t, Net(d)))
  {
    hide Sum, Pends, Halves;
    var s' := Goto(AddStripe(s, idx, d), t, Net(d));
    GotoSums(s.pcs, t, Net(d));
    ThreadsMove(m, s, s', t, Net(d));
    SeenAfterAdd(s, idx, d, 0, 0);
    assert s.lock == Some(t);
    assert Vector(s') == Vector(s) + d;
  }

  lemma HolderPublish(guard: int, m: nat, s: State, t: nat, d: int)
    requires Inv(guard, m, s) && t < |s.pcs| && s.pcs[t] == Net(d)
    ensures Inv(guard, m, Goto(s, t, Unlock).(approx := s.approx + d))
  {
    hide Sum, Pends, Halves;
    var s' := Goto(s, t, Unlock).(approx := s.approx + d);
    GotoSums(s.pcs, t, Unlock);
    ThreadsMove(m, s, s', t, Unlock);
    assert s.lock == Some(t);
    assert Vector(s') == Vector(s);
  }

  lemma Release(guard: int, m: nat, s: State, t: nat)
    requires Inv(guard, m, s) && t < |s.pcs| && s.pcs[t].Unlock?
    ensures Inv(guard, m, Goto(s, t, Idle).(lock := None))
  {
    hide Sum, Pends, Halves;
    var s' := Goto(s, t, Idle).(lock := None);
    GotoSums(s.pcs, t, Idle);
    ThreadsMove(m, s, s', t, Idle);
    assert s.lock == Some(t);
    assert Vector(s') == Vector(s);
  }

  lemma ThreadOk(guard: int, m: nat, s: State, t: nat)
    requires Inv(guard, m, s) && t < |s.pcs|
    ensures guard > 0 && Threads(m, s) && PcOk(m, s, s.pcs[t])
    ensures s.pcs[t].Scan? ==> s.pcs[t].k <= |s.stripes|
  {
  }

  lemma OutsideStep(guard: int, m: nat, s: State, t: nat, idx: nat)
    requires Inv(guard, m, s) && t < |s.pcs| && !Holds(s.pcs[t])
    ensures Inv(guard, m, Continue(guard, s, t, idx))
  {
    hide Inv;
    ThreadOk(guard, m, s, t);
    var next := Continue(guard, s, t, idx);
    match s.pcs[t] {
      case Idle =>
      case FastScalar(n) =>
        QuietMove(guard, m, s, t, FastApprox(n, s.scalar));
        assert next == Goto(s, t, FastApprox(n, s.scalar));
      case FastApprox(n, sc) =>
        if sc - Abs(s.approx) >= n + guard {
          FastAdmit(guard, m, s, t, n);
          Relabel(guard, m, Goto(s, t, FastStripe(n)), s.log + [Admit(n)]);
          assert next == Goto(s, t, FastStripe(n)).(log := s.log + [Admit(n)]);
        } else {
          QuietMove(guard, m, s, t, Locking(Call.Consume(n)));
          assert next == Goto(s, t, Locking(Call.Consume(n)));
        }
      case FastStripe(n) =>
        if idx < |s.stripes| {
          FastAdd(guard, m, s, t, idx, n);
          assert next == Goto(AddStripe(s, idx, n), t, FastNet(n));
        }
      case FastNet(n) =>
        FastPublish(guard, m, s, t, n);
        assert next == Goto(s, t, Idle).(approx := s.approx + n);
      case Locking(call) =>
        if s.lock.None? {
          var pc := if call.Consume? then GateScalar(call.n) else Scan(call, 0, 0, 0);
          ScanStarts(m, s, t, pc);
          Enter(guard, m, s, t, pc);
          assert next == Goto(s, t, pc).(lock := Some(t));
        }
    }
  }

  lemma ScanStep(guard: int, m: nat, s: State, t: nat, idx: nat)
    requires Inv(guard, m, s) && t < |s.pcs| && s.pcs[t].Scan?
    ensures Inv(guard, m, Continue(guard, s, t, idx))
  {
    hide Inv, PcOk, Abs;
    ThreadOk(guard, m, s, t);
    var Scan(call, sc, k, acc) := s.pcs[t];
    if k < |s.stripes| {
      ScanLoad(guard, m, s, t);
      assert Continue(guard, s, t, idx) == Goto(s, t, Scan(call, sc, k + 1, acc + s.stripes[k]));
    } else {
      var (pc, answer) := Decide(call, sc, acc - s.offset);
      ScanDecide(guard, m, s, t, answer);
      assert Continue(guard, s, t, idx) == Goto(s, t, pc).(log := s.log + answer);
    }
  }

  lemma HolderStep(guard: int, m: nat, s: State, t: nat, idx: nat)
    requires Inv(guard, m, s) && t < |s.pcs| && Holds(s.pcs[t]) && !s.pcs[t].Scan?
    ensures Inv(guard, m, Continue(guard, s, t, idx))
  {
    var next := Continue(guard, s, t, idx);
    assert s.lock == Some(t) && PcOk(m, s, s.pcs[t]);
    match s.pcs[t] {
      case GateScalar(n) =>
        var pc := Scan(Call.Consume(n), s.scalar, 0, 0);
        ScanStarts(m, s, t, pc);
        HolderMoves(guard, m, s, t, pc);
        assert next == Goto(s, t, pc);
      case Stripe(d) =>
        if idx < |s.stripes| {
          HolderAdd(guard, m, s, t, idx, d);
          assert next == Goto(AddStripe(s, idx, d), t, Net(d));
        }
      case Net(d) =>
        HolderPublish(guard, m, s, t, d);
        assert next == Goto(s, t, Unlock).(approx := s.approx + d);
      case Unlock =>
        Release(guard, m, s, t);
        assert next == Goto(s, t, Idle).(lock := None);
    }
  }

  lemma InvStep(guard: int, m: nat, s: State, a: Action)
    requires Inv(guard, m, s) && (a.move.Begin? ==> Bounded(m, a.move.call))
    ensures Inv(guard, m, Step(guard, s, a))
    ensures |Step(guard, s, a).pcs| == |s.pcs| && Step(guard, s, a).scalar == s.scalar
  {
    if a.t < |s.pcs| {
      match a.move {
        case Begin(call) => if s.pcs[a.t].Idle? { QuietMove(guard, m, s, a.t, First(guard, call)); }
        case Advance(idx) =>
          if s.pcs[a.t].Scan? {
            ScanStep(guard, m, s, a.t, idx);
          } else if Holds(s.pcs[a.t]) {
            HolderStep(guard, m, s, a.t, idx);
          } else {
            OutsideStep(guard, m, s, a.t, idx);
          }
      }
    }
  }

  lemma {:induction false} InvRun(guard: int, m: nat, s: State, acts: seq<Action>)
    requires Inv(guard, m, s) && BoundedSchedule(m, acts)
    ensures Inv(guard, m, Exec(guard, s, acts))
    ensures |Exec(guard, s, acts).pcs| == |s.pcs| && Exec(guard, s, acts).scalar == s.scalar
  {
    if |acts| > 0 {
      InvRun(guard, m, s, acts[..|acts| - 1]);
      InvStep(guard, m, Exec(guard, s, acts[..|acts| - 1]), acts[|acts| - 1]);
    }
  }

  lemma NobodyCommits(guard: int, m: nat, s: State)
    requires Inv(guard, m, s)
    ensures s.lock.Some? ==> s.lock.value < |s.pcs| && !s.pcs[s.lock.value].CommitOffset?
  {
  }

  lemma StartInv(guard: int, m: nat, s: State)
    requires guard > 0 && |s.pcs| >= 1 && s.lock.None?
    requires forall t :: 0 <= t < |s.pcs| ==> s.pcs[t].Idle?
    requires s.approx == Vector(s) && 0 <= Vector(s) <= s.scalar
    ensures Inv(guard, m, s)
  {
    SumOfZeros(Pends(s.pcs));
    SumOfZeros(Halves(s.pcs));
    MulMonotone(0, |s.pcs| - 1, m);
  }

  /** Main result: with T callers asking for at most m units each, no schedule of consumers and
      refunders drives the vector below zero or more than (T - 1) * m past the scalar. */
  lemma OvershootBound(guard: int, m: nat, s: State, acts: seq<Action>)
    requires guard > 0 && |s.pcs| >= 1 && s.lock.None?
    requires forall t :: 0 <= t < |s.pcs| ==> s.pcs[t].Idle?
    requires s.approx == Vector(s) && 0 <= Vector(s) <= s.scalar
    requires BoundedSchedule(m, acts)
    ensures 0 <= Vector(Exec(guard, s, acts))
    ensures Vector(Exec(guard, s, acts)) - s.scalar <= (|s.pcs| - 1) * m
  {
    StartInv(guard, m, s);
    InvRun(guard, m, s, acts);
    SumNonNegative(Pends(Exec(guard, s, acts).pcs));
  }
}
