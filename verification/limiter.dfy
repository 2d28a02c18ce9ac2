/** The simple counter the gate stands in for: one number, checked and moved in one step. */
module Limiter {

  function Consume(avail: int, n: int): (bool, int) {
    if n <= 0 || avail < n then (false, avail) else (true, avail - n)
  }

  function Refund(avail: int, n: int): int {
    if n > 0 then avail + n else avail
  }

  // What a gate answered, in the order in which it decided.
  datatype Event = Admit(n: int) | Deny(n: int) | Refunded(n: int)

  function After(avail: int, e: Event): int {
    match e
    case Admit(n) => Consume(avail, n).1
    case Deny(n) => Consume(avail, n).1
    case Refunded(n) => Refund(avail, n)
  }

  // The limiter, holding avail, would have given this answer.
  predicate Legal(avail: int, e: Event) {
    match e
    case Admit(n) => Consume(avail, n).0
    case Deny(n) => n > 0 && !Consume(avail, n).0
    case Refunded(n) => n > 0
  }

  function Replay(avail: int, log: seq<Event>): int {
    if |log| == 0 then avail else After(Replay(avail, log[..|log| - 1]), log[|log| - 1])
  }

  // The limiter, fed the same calls in the same order, gives the same answers.
  predicate Agrees(avail: int, log: seq<Event>) {
    |log| == 0 ||
    (&& Agrees(avail, log[..|log| - 1])
     && Legal(Replay(avail, log[..|log| - 1]), log[|log| - 1]))
  }

  lemma AgreesAppend(avail: int, log: seq<Event>, e: Event)
    ensures Agrees(avail, log + [e]) == (Agrees(avail, log) && Legal(Replay(avail, log), e))
    ensures Replay(avail, log + [e]) == After(Replay(avail, log), e)
  {
    assert (log + [e])[..|log|] == log;
  }

  function Admitted(log: seq<Event>): int {
    if |log| == 0 then 0
    else Admitted(log[..|log| - 1]) + (match log[|log| - 1] case Admit(n) => n case _ => 0)
  }

  function GivenBack(log: seq<Event>): int {
    if |log| == 0 then 0
    else GivenBack(log[..|log| - 1]) + (match log[|log| - 1] case Refunded(n) => n case _ => 0)
  }

  // The budget accounts for every admission and refund and is never overdrawn.
  lemma {:induction false} BudgetHolds(avail: int, log: seq<Event>)
    requires Agrees(avail, log)
    ensures Replay(avail, log) == avail - Admitted(log) + GivenBack(log)
    ensures 0 <= avail ==> 0 <= Replay(avail, log)
  {
    if |log| > 0 {
      BudgetHolds(avail, log[..|log| - 1]);
    }
  }
}

/** The compare-and-swap limiter of the benchmarks. */
module AtomicLimiters {
  import opened Limiter
  import opened Sums

  class AtomicLimiter {
    var avail: int

    constructor (initial: int)
      ensures avail == initial
    {
      avail := initial;
    }

    method CompareAndSwap(expected: int, replacement: int) returns (swapped: bool)
      modifies this
      ensures swapped == (old(avail) == expected)
      ensures avail == if swapped then replacement else old(avail)
    {
      swapped := avail == expected;
      if swapped {
        avail := replacement;
      }
    }

    /** rivals[i] is by how much other callers move avail between the i-th load and its swap. A swap that
        finds avail moved is tried again; the answer is the one the limiter gives at the load that
        decided, after the rivals of all earlier turns. */
    method TryConsume(n: int, rivals: seq<int>) returns (ok: bool, ghost turns: nat)
      modifies this
      ensures turns <= |rivals| && forall i :: 0 <= i < turns ==> rivals[i] != 0
      ensures (ok, avail) == Consume(old(avail) + Sum(rivals[..turns]), n)
    {
      hide Sum;
      turns := 0;
      NoSum();
      assert rivals[..0] == [];
      if n <= 0 {
        return false, turns;
      }
      var i := 0;
      while true
        invariant i <= |rivals| && turns == i && avail == old(avail) + Sum(rivals[..i])
        invariant forall j :: 0 <= j < i ==> rivals[j] != 0
        decreases |rivals| - i
      {
        var expected := avail;
        if expected < n {
          return false, turns;
        }
        if i < |rivals| {
          SumPrefixStep(rivals, i);
          avail := avail + rivals[i];
        }
        var swapped := CompareAndSwap(expected, expected - n);
        if swapped {
          return true, turns;
        }
        i, turns := i + 1, turns + 1;
      }
    }

    method Refund(n: int)
      modifies this
      ensures avail == Limiter.Refund(old(avail), n)
    {
      if n > 0 {
        avail := avail + n;
      }
    }
  }
}
