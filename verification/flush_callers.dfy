/** The callers of Flush beside the service. A caller sends its request into a channel of one place and
    waits for an answer; the worker takes the request up, drains, flushes and lets the caller go. */
module FlushCallers {
  import opened Envelopes
  import opened Accumulation
  import Service = ServiceMachine

  // Waiting: the request is in the channel. TakenUp: the worker is at it.
  datatype Caller = Sending | Waiting | TakenUp | Returned

  datatype State = State(service: Service.Service, callers: seq<Caller>)

  datatype Action =
    | Ask
    | Send(i: nat)
    | Work(step: Service.Action)

  // Those that were at one point are at the other.
  function Moved(callers: seq<Caller>, from: Caller, to: Caller): (r: seq<Caller>)
    ensures |r| == |callers|
    ensures forall i :: 0 <= i < |r| ==> r[i] == if callers[i] == from then to else callers[i]
  {
    seq(|callers|, i requires 0 <= i < |callers| => if callers[i] == from then to else callers[i])
  }

  // The worker takes a request up only if there is one, and the end of its flush is the answer.
  ghost function Step(cfg: Service.Config, s: State, a: Action): (r: State)
    requires AllShaped(s.service.held)
    ensures AllShaped(r.service.held)
  {
    match a
    case Ask => s.(callers := s.callers + [Sending])
    case Send(i) =>
      if i < |s.callers| && s.callers[i].Sending? && Waiting !in s.callers then
        s.(callers := s.callers[i := Waiting])
      else s
    case Work(step) =>
      var service := Service.Step(cfg, s.service, step);
      if step.TakeFlush? then
        if s.service.mode.Serving? && Waiting in s.callers then State(service, Moved(s.callers, Waiting, TakenUp)) else s
      else if s.service.mode.Emitting? && service.mode.Serving? then State(service, Moved(s.callers, TakenUp, Returned))
      else s.(service := service)
  }

  ghost function Exec(cfg: Service.Config, s: State, acts: seq<Action>): (r: State)
    requires AllShaped(s.service.held)
    ensures AllShaped(r.service.held)
  {
    if |acts| == 0 then s else Step(cfg, Exec(cfg, s, acts[..|acts| - 1]), acts[|acts| - 1])
  }

  function Idle(p: nat, order: nat): (s: State)
    requires p > 0
    ensures AllShaped(s.service.held)
  {
    State(Service.Idle(p, order), [])
  }

  predicate AtMostOne(callers: seq<Caller>, at: Caller) {
    forall i, j :: 0 <= i < j < |callers| ==> callers[i] != at || callers[j] != at
  }

  // The worker is draining or flushing because a caller asked.
  predicate Answering(mode: Service.Mode) {
    (mode.Draining? || mode.Emitting?) && !mode.stop
  }

  // The worker will never take anything up again.
  predicate Over(mode: Service.Mode) {
    mode.Stopped? || mode.Wedged?
  }

  // One request in the channel at most, and one in work at most: exactly while the worker is answering, or
  // for ever if the drain got lost.
  predicate Orderly(s: State) {
    && AtMostOne(s.callers, Waiting) && AtMostOne(s.callers, TakenUp)
    && (Answering(s.service.mode) ==> TakenUp in s.callers)
    && (TakenUp in s.callers ==> Answering(s.service.mode) || s.service.mode.Wedged?)
  }

  // How a step of the service may change what the worker is at.
  lemma ModeStep(cfg: Service.Config, s: Service.Service, a: Service.Action)
    requires AllShaped(s.held)
    ensures var mode := Service.Step(cfg, s, a).mode;
      && (a.TakeFlush? && s.mode.Serving? ==> Answering(mode))
      && (!a.TakeFlush? ==> Answering(mode) ==> Answering(s.mode))
      && (Answering(s.mode) ==> Answering(mode) || mode.Wedged? || (s.mode.Emitting? && mode.Serving?))
      && (s.mode.Emitting? && mode.Serving? ==> Answering(s.mode))
      && (Over(s.mode) ==> mode == s.mode)
  {
    hide Service.TakeOne, Service.Flush, Service.Accept, Service.Hands, Accepts;
  }

  lemma MovedOn(callers: seq<Caller>, from: Caller, to: Caller, other: Caller)
    requires from != to && from != other && to != other && AtMostOne(callers, from)
    ensures var r := Moved(callers, from, to);
      && from !in r && AtMostOne(r, from) && (AtMostOne(callers, other) ==> AtMostOne(r, other))
      && (to !in callers ==> AtMostOne(r, to)) && (from in callers ==> to in r) && (other in r <==> other in callers)
  {
    var r := Moved(callers, from, to);
    if from in callers {
      var i :| 0 <= i < |callers| && callers[i] == from;
      assert r[i] == to;
    }
    if other in callers {
      var i :| 0 <= i < |callers| && callers[i] == other;
      assert r[i] == other;
    }
  }

  lemma Asked(callers: seq<Caller>, at: Caller)
    requires at != Sending && AtMostOne(callers, at)
    ensures var r := callers + [Sending]; AtMostOne(r, at) && (at in r <==> at in callers)
  {
  }

  lemma Sent(callers: seq<Caller>, i: nat)
    requires i < |callers| && callers[i].Sending? && Waiting !in callers && AtMostOne(callers, TakenUp)
    ensures var r := callers[i := Waiting];
      AtMostOne(r, Waiting) && AtMostOne(r, TakenUp) && (TakenUp in r <==> TakenUp in callers)
  {
    var r := callers[i := Waiting];
    if TakenUp in callers {
      var j :| 0 <= j < |callers| && callers[j] == TakenUp;
      assert r[j] == TakenUp;
    }
  }

  lemma StepOrderly(cfg: Service.Config, s: State, a: Action)
    requires Orderly(s) && AllShaped(s.service.held)
    ensures Orderly(Step(cfg, s, a))
  {
    hide Service.Step, AllShaped, AtMostOne, Moved;
    match a {
      case Ask =>
        Asked(s.callers, Waiting);
        Asked(s.callers, TakenUp);
      case Send(i) =>
        if i < |s.callers| && s.callers[i].Sending? && Waiting !in s.callers {
          Sent(s.callers, i);
        }
      case Work(step) =>
        ModeStep(cfg, s.service, step);
        MovedOn(s.callers, Waiting, TakenUp, Returned);
        MovedOn(s.callers, TakenUp, Returned, Waiting);
    }
  }

  lemma IdleOrderly(p: nat, order: nat)
    requires p > 0
    ensures Orderly(Idle(p, order))
  {
  }

  lemma {:induction false} RunOrderly(cfg: Service.Config, p: nat, order: nat, acts: seq<Action>)
    requires p > 0
    ensures Orderly(Exec(cfg, Idle(p, order), acts))
  {
    hide Step, Orderly;
    if |acts| > 0 {
      RunOrderly(cfg, p, order, acts[..|acts| - 1]);
      StepOrderly(cfg, Exec(cfg, Idle(p, order), acts[..|acts| - 1]), acts[|acts| - 1]);
    } else {
      assert Orderly(Idle(p, order)) by { IdleOrderly(p, order); }
    }
  }

  // At some moment of the run the worker was at the request of this caller.
  ghost predicate WasTaken(cfg: Service.Config, s: State, acts: seq<Action>, i: nat)
    requires AllShaped(s.service.held)
  {
    exists n :: 0 <= n <= |acts| && i < |Exec(cfg, s, acts[..n]).callers| && Exec(cfg, s, acts[..n]).callers[i].TakenUp?
  }

  lemma TakenLast(cfg: Service.Config, s: State, acts: seq<Action>, i: nat)
    requires AllShaped(s.service.held)
    ensures var s' := Exec(cfg, s, acts);
      WasTaken(cfg, s, acts, i) <==>
        (|acts| > 0 && WasTaken(cfg, s, acts[..|acts| - 1], i)) || (i < |s'.callers| && s'.callers[i].TakenUp?)
  {
    hide Exec, AllShaped;
    assert acts[..|acts|] == acts;
    if |acts| > 0 {
      var front := acts[..|acts| - 1];
      assert forall n :: 0 <= n <= |front| ==> front[..n] == acts[..n];
      if WasTaken(cfg, s, front, i) {
        var n :| 0 <= n <= |front| && i < |Exec(cfg, s, front[..n]).callers|
          && Exec(cfg, s, front[..n]).callers[i].TakenUp?;
        assert Exec(cfg, s, acts[..n]).callers[i].TakenUp?;
      }
    }
  }

  // A step moves a caller on: to TakenUp, or from there to Returned, and never back.
  lemma StepMoves(cfg: Service.Config, s: State, a: Action, i: nat)
    requires AllShaped(s.service.held)
    ensures var s' := Step(cfg, s, a);
      && |s.callers| <= |s'.callers|
      && (i < |s.callers| ==>
            && (s'.callers[i].Returned? ==> s.callers[i].Returned? || s.callers[i].TakenUp?)
            && (s.callers[i].Returned? || s.callers[i].TakenUp? ==> s'.callers[i].Returned? || s'.callers[i].TakenUp?)
            && (s.callers[i].Returned? ==> s'.callers[i].Returned?))
      && (|s.callers| <= i < |s'.callers| ==> s'.callers[i].Sending?)
  {
    hide Service.Step, AllShaped;
  }

  // A request that was taken up is at work or answered, and only such a one is.
  lemma {:induction false} TakenIff(cfg: Service.Config, p: nat, order: nat, acts: seq<Action>, i: nat)
    requires p > 0
    ensures var s := Exec(cfg, Idle(p, order), acts);
      WasTaken(cfg, Idle(p, order), acts, i) <==> i < |s.callers| && (s.callers[i].TakenUp? || s.callers[i].Returned?)
  {
    hide Step, WasTaken;
    TakenLast(cfg, Idle(p, order), acts, i);
    if |acts| > 0 {
      var front := acts[..|acts| - 1];
      TakenIff(cfg, p, order, front, i);
      StepMoves(cfg, Exec(cfg, Idle(p, order), front), acts[|acts| - 1], i);
    }
  }

  // Once the worker is over nobody else returns.
  lemma {:induction false} OverStays(cfg: Service.Config, s: State, more: seq<Action>)
    requires AllShaped(s.service.held) && Over(s.service.mode)
    ensures var s' := Exec(cfg, s, more);
      && s'.service.mode == s.service.mode && |s.callers| <= |s'.callers|
      && forall i :: 0 <= i < |s'.callers| ==> (s'.callers[i].Returned? <==> i < |s.callers| && s.callers[i].Returned?)
  {
    hide Service.Step, AllShaped;
    if |more| > 0 {
      var front, a := more[..|more| - 1], more[|more| - 1];
      OverStays(cfg, s, front);
      if a.Work? {
        ModeStep(cfg, Exec(cfg, s, front).service, a.step);
      }
    }
  }

  /** Which calls of Flush ever return. Once the worker has stopped or is lost, whatever happens next, a
      caller has returned if and only if its request was taken up before and that drain was not the one
      in which the worker got lost. After a stop every request that was taken up has been answered; a
      request still in the channel, or sent later, waits for ever. */
  lemma ReturnsIff(cfg: Service.Config, p: nat, order: nat, acts: seq<Action>, more: seq<Action>, i: nat)
    requires p > 0 && Over(Exec(cfg, Idle(p, order), acts).service.mode)
    ensures var s := Exec(cfg, Idle(p, order), acts);
      var s' := Exec(cfg, s, more);
      var lost := i < |s.callers| && s.callers[i].TakenUp?;
      && (i < |s'.callers| && s'.callers[i].Returned? <==> WasTaken(cfg, Idle(p, order), acts, i) && !lost)
      && (lost ==> s.service.mode.Wedged? && forall j :: 0 <= j < |s.callers| && s.callers[j].TakenUp? ==> j == i)
  {
    hide Exec, WasTaken;
    TakenIff(cfg, p, order, acts, i);
    RunOrderly(cfg, p, order, acts);
    OverStays(cfg, Exec(cfg, Idle(p, order), acts), more);
  }

  function Drains(n: nat): seq<Action> {
    seq(n, i => Work(Service.DrainNext))
  }

  lemma {:induction false} ExecConcat(cfg: Service.Config, s: State, a: seq<Action>, b: seq<Action>)
    requires AllShaped(s.service.held)
    ensures Exec(cfg, s, a + b) == Exec(cfg, Exec(cfg, s, a), b)
  {
    hide Step, AllShaped;
    if |b| == 0 {
      assert a + b == a;
    } else {
      ExecConcat(cfg, s, a, b[..|b| - 1]);
      assert (a + b)[..|a + b| - 1] == a + b[..|b| - 1];
    }
  }

  lemma OneStep(cfg: Service.Config, s: State, a: Action)
    requires AllShaped(s.service.held)
    ensures Exec(cfg, s, [a]) == Step(cfg, s, a)
  {
    hide Step, AllShaped;
    assert [a][..0] == [];
  }

  lemma ExecNothing(cfg: Service.Config, s: State)
    requires AllShaped(s.service.held)
    ensures Exec(cfg, s, Drains(0)) == s
  {
  }

  lemma NothingToFile(held: Shards)
    requires AllShaped(held)
    ensures Files(held, AsBatches([]))
  {
  }

  lemma {:induction false} LostStays(cfg: Service.Config, s: State, n: nat)
    requires AllShaped(s.service.held) && s.service.mode.Wedged?
    ensures Exec(cfg, s, Drains(n)) == s
  {
    hide AllShaped;
    if n > 0 {
      assert Drains(n)[..n - 1] == Drains(n - 1);
      LostStays(cfg, s, n - 1);
    }
  }

  // One step of a drain: the end, or the first of the queue filed, or the worker lost.
  lemma DrainStep(cfg: Service.Config, s: State)
    requires AllShaped(s.service.held) && s.service.mode.Draining?
    ensures var s1 := Step(cfg, s, Work(Service.DrainNext));
      && s1.callers == s.callers
      && if |s.service.queue| == 0 then
           && s1.service.mode == Service.Emitting(s.service.mode.stop, s.service.mode.mark)
           && Files(s.service.held, AsBatches(s.service.queue))
         else if Accepts(s.service.held, AsBatch(s.service.queue[0])) then
           && s1.service.mode == s.service.mode && |s1.service.queue| == |s.service.queue| - 1
           && (Files(s1.service.held, AsBatches(s1.service.queue))
               <==> Files(s.service.held, AsBatches(s.service.queue)))
         else s1.service.mode.Wedged? && !Files(s.service.held, AsBatches(s.service.queue))
  {
    hide Accepts, Service.TakeOne, Files, AllShaped, IngestedAll, Finds, Service.Hands, Service.Flush, Service.Accept,
      Moved, AsBatches;
    if |s.service.queue| == 0 {
      NothingToFile(s.service.held);
    } else {
      Service.FilesRest(s.service);
    }
  }

  lemma FirstDrain(cfg: Service.Config, s: State, n: nat)
    requires AllShaped(s.service.held)
    ensures Exec(cfg, s, Drains(n + 1)) == Exec(cfg, Step(cfg, s, Work(Service.DrainNext)), Drains(n))
  {
    hide Step, Exec, AllShaped;
    OneStep(cfg, s, Work(Service.DrainNext));
    ExecConcat(cfg, s, Drains(1), Drains(n));
    assert Drains(n + 1) == Drains(1) + Drains(n) && Drains(1) == [Work(Service.DrainNext)];
  }

  lemma {:induction false} DrainsEnd(cfg: Service.Config, s: State)
    requires AllShaped(s.service.held) && s.service.mode.Draining?
    ensures var s' := Exec(cfg, s, Drains(|s.service.queue| + 1));
      && s'.callers == s.callers
      && (Files(s.service.held, AsBatches(s.service.queue)) ==>
            s'.service.mode == Service.Emitting(s.service.mode.stop, s.service.mode.mark))
      && (!Files(s.service.held, AsBatches(s.service.queue)) ==> s'.service.mode.Wedged?)
    decreases |s.service.queue|
  {
    hide Accepts, Files, AllShaped, Exec, Step, Drains;
    var n := |s.service.queue|;
    var s1 := Step(cfg, s, Work(Service.DrainNext));
    DrainStep(cfg, s);
    FirstDrain(cfg, s, n);
    if n == 0 {
      ExecNothing(cfg, s1);
    } else if s1.service.mode.Wedged? {
      LostStays(cfg, s1, n);
    } else {
      DrainsEnd(cfg, s1);
    }
  }

  /** A request that is being served is answered if and only if what is queued can be filed: if no more
      arrives, the drain comes to its end and the flush lets the caller go, or the worker is lost in the
      drain and the caller never returns. */
  lemma ServedIff(cfg: Service.Config, s: State, i: nat, out: seq<SBatch>, more: seq<Action>)
    requires AllShaped(s.service.held) && Orderly(s) && i < |s.callers| && s.callers[i].TakenUp?
    requires s.service.mode.Draining?
    ensures var s1 := Exec(cfg, s, Drains(|s.service.queue| + 1));
      var s2 := Step(cfg, s1, Work(Service.Emit(out)));
      if Files(s.service.held, AsBatches(s.service.queue))
      then Service.Hands(cfg, s1.service.held, out) ==> i < |s2.callers| && s2.callers[i].Returned?
      else i < |Exec(cfg, s1, more).callers| && !Exec(cfg, s1, more).callers[i].Returned?
  {
    hide Files, AllShaped, Service.Hands, Service.Flush, Exec;
    DrainsEnd(cfg, s);
    var s1 := Exec(cfg, s, Drains(|s.service.queue| + 1));
    assert TakenUp in s.callers;
    if s1.service.mode.Wedged? {
      OverStays(cfg, s1, more);
    }
  }

  function Works(acts: seq<Service.Action>): (r: seq<Action>)
    ensures |r| == |acts| && forall j :: 0 <= j < |r| ==> r[j] == Work(acts[j])
  {
    seq(|acts|, j requires 0 <= j < |acts| => Work(acts[j]))
  }

  lemma {:induction false} ServesTaken(cfg: Service.Config, s: State, i: nat, acts: seq<Service.Action>)
    requires AllShaped(s.service.held) && s.service.mode.Serving? && Orderly(s)
    requires i < |s.callers| && s.callers[i].Waiting? && Service.Serves(acts, Service.TakeFlush)
    ensures var s' := Exec(cfg, s, Works(acts));
      && s'.service == Service.Exec(cfg, s.service, acts) && Orderly(s')
      && i < |s'.callers| && (s'.callers[i].TakenUp? || s'.callers[i].Returned?)
  {
    hide Service.Step, AllShaped, Orderly;
    var front, last := acts[..|acts| - 1], acts[|acts| - 1];
    assert Works(acts)[..|acts| - 1] == Works(front);
    var s1 := Exec(cfg, s, Works(front));
    if |front| > 0 {
      ServesTaken(cfg, s, i, front);
      StepMoves(cfg, s1, Work(last), i);
    } else {
      assert Works(front) == [];
    }
    StepOrderly(cfg, s1, Work(last));
  }

  /** The worker's way from a request back to its loop, as the service goes it, answers the caller whose
      request was waiting. */
  lemma AnsweredBy(cfg: Service.Config, s: State, i: nat, acts: seq<Service.Action>)
    requires AllShaped(s.service.held) && s.service.mode.Serving? && Orderly(s)
    requires i < |s.callers| && s.callers[i].Waiting? && Service.Serves(acts, Service.TakeFlush)
    requires Service.Exec(cfg, s.service, acts).mode.Serving?
    ensures var s' := Exec(cfg, s, Works(acts));
      s'.service == Service.Exec(cfg, s.service, acts) && i < |s'.callers| && s'.callers[i].Returned?
  {
    hide Exec, Service.Exec, AllShaped, AtMostOne;
    ServesTaken(cfg, s, i, acts);
    var s' := Exec(cfg, s, Works(acts));
    assert s'.callers[i].TakenUp? ==> TakenUp in s'.callers;
  }
}
