/** The value of a vector-scalar counter, one operation at a time: a durable scalar and a volatile
    net, with availability scalar - |net|. */
module CounterSpec {
  import opened Sums
  import Limiter

  datatype Counter = Counter(scalar: int, net: int)

  datatype Op = Consume(n: int) | Refund(n: int) | Commit(v: int)

  function Available(c: Counter): int {
    c.scalar - Abs(c.net)
  }

  // Commit moves towards zero, by no more than it was told and no more than there is.
  function CommitDelta(v: int, net: int): int {
    var mag := Min(Abs(v), Abs(net));
    if net > 0 then mag else -mag
  }

  function AfterCommit(c: Counter, v: int): Counter {
    if v == 0 || c.net == 0 then c
    else
      var d := CommitDelta(v, c.net);
      Counter(c.scalar - Abs(d), c.net - d)
  }

  predicate Admits(c: Counter, n: int) {
    n > 0 && Available(c) >= n
  }

  function AfterConsume(c: Counter, n: int): Counter {
    if Admits(c, n) then c.(net := c.net + n) else c
  }

  // What a refund of n gives back: never more than is outstanding.
  function RefundAmount(c: Counter, n: int): int {
    if n <= 0 || c.net <= 0 then 0 else Min(n, c.net)
  }

  function AfterRefund(c: Counter, n: int): Counter {
    c.(net := c.net - RefundAmount(c, n))
  }

  function Apply(c: Counter, op: Op): Counter {
    match op
    case Consume(n) => AfterConsume(c, n)
    case Refund(n) => AfterRefund(c, n)
    case Commit(v) => AfterCommit(c, v)
  }

  // The same operation as the plain limiter sees it; a commit and an empty refund are invisible.
  function Answer(c: Counter, op: Op): seq<Limiter.Event> {
    match op
    case Consume(n) =>
      if n <= 0 then [] else if Admits(c, n) then [Limiter.Admit(n)] else [Limiter.Deny(n)]
    case Refund(n) => if RefundAmount(c, n) == 0 then [] else [Limiter.Refunded(RefundAmount(c, n))]
    case Commit(v) => []
  }

  function Run(c: Counter, ops: seq<Op>): Counter {
    if |ops| == 0 then c else Apply(Run(c, ops[..|ops| - 1]), ops[|ops| - 1])
  }

  function Answers(c: Counter, ops: seq<Op>): seq<Limiter.Event> {
    if |ops| == 0 then []
    else Answers(c, ops[..|ops| - 1]) + Answer(Run(c, ops[..|ops| - 1]), ops[|ops| - 1])
  }

  /** Whatever the argument, a commit never moves availability. */
  lemma CommitKeepsAvailable(c: Counter, v: int)
    ensures Available(AfterCommit(c, v)) == Available(c)
  {
  }

  /** How much a commit moves: the net goes towards zero by what was asked for or by all there is, whichever
      is less, keeping its sign and not the argument's, and the scalar pays the same. */
  lemma CommitMoves(c: Counter, v: int)
    ensures var c' := AfterCommit(c, v);
      && c.scalar - c'.scalar == Abs(c.net) - Abs(c'.net) == Min(Abs(v), Abs(c.net))
      && (0 <= c'.net <= c.net || c.net <= c'.net <= 0)
  {
  }

  /** A commit of a vector read earlier takes exactly that vector off if and only if the net has since
      kept its sign and not shrunk. */
  lemma CommitExactIff(c: Counter, v: int)
    ensures AfterCommit(c, v) == Counter(c.scalar - Abs(v), c.net - v)
      <==> v == 0 || (v > 0 && v <= c.net) || (v < 0 && c.net <= v)
  {
  }

  // One operation: the answer is one the limiter gives too, and both are left with the same amount.
  lemma StepRefines(scalar: int, log: seq<Limiter.Event>, c: Counter, op: Op)
    requires 0 <= c.net && Limiter.Agrees(scalar, log) && Available(c) == Limiter.Replay(scalar, log)
    ensures 0 <= Apply(c, op).net
    ensures Limiter.Agrees(scalar, log + Answer(c, op))
    ensures Available(Apply(c, op)) == Limiter.Replay(scalar, log + Answer(c, op))
  {
    var answer := Answer(c, op);
    if answer == [] {
      assert log + answer == log;
    } else {
      hide Limiter.Agrees, Limiter.Replay;
      Limiter.AgreesAppend(scalar, log, answer[0]);
    }
  }

  /** For every sequence of consumes, refunds and commits of any argument, the counter answers as the
      plain limiter does and leaves the same amount available. */
  lemma {:induction false} RefinesLimiter(scalar: int, ops: seq<Op>)
    ensures var c := Run(Counter(scalar, 0), ops);
      && 0 <= c.net
      && Limiter.Agrees(scalar, Answers(Counter(scalar, 0), ops))
      && Available(c) == Limiter.Replay(scalar, Answers(Counter(scalar, 0), ops))
  {
    hide Apply, Answer;
    if |ops| > 0 {
      var before := ops[..|ops| - 1];
      RefinesLimiter(scalar, before);
      StepRefines(scalar, Answers(Counter(scalar, 0), before), Run(Counter(scalar, 0), before), ops[|ops| - 1]);
    }
  }
}
