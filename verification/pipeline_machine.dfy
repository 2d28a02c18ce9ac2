/** The whole pipeline step by step: a mixed log is handled envelope by envelope while the service does
    its work and callers drain the keys of the vector lane. */
module PipelineMachine {
  import opened Packing
  import opened Envelopes
  import opened Accumulation
  import opened LiveCells
  import opened Reconstruction
  import Service = ServiceMachine
  import Vectors = VectorLane

  // log is the history of what was handled, drained that of what the drains returned.
  datatype State = State(
    service: Service.Service,
    lanes: Vectors.Lanes,
    drained: seq<Envelope>,
    log: seq<Envelope>)

  datatype Action =
    | Handle(env: Envelope)
    | Work(step: Service.Action)
    | DrainV(key: uint64)

  // A scalar envelope that meets a full buffer waits.
  function Handled(cfg: Service.Config, hash: Vectors.Hash, s: State, env: Envelope): State {
    if env.channel == Scalar then
      if |s.service.queue| >= cfg.capacity then s
      else s.(service := Service.Accept(cfg, s.service, env), log := s.log + [env])
    else s.(lanes := Vectors.After(hash, s.lanes, Vectors.Handle(env)), log := s.log + [env])
  }

  // What reaches the service goes through Handle.
  ghost function Step(cfg: Service.Config, hash: Vectors.Hash, s: State, a: Action): (r: State)
    requires AllShaped(s.service.held)
    ensures AllShaped(r.service.held)
  {
    match a
    case Handle(env) => Handled(cfg, hash, s, env)
    case Work(step) => if step.Offer? then s else s.(service := Service.Step(cfg, s.service, step))
    case DrainV(key) =>
      s.(lanes := Vectors.After(hash, s.lanes, Vectors.DrainV(key)), drained := s.drained + Vectors.QueueOf(s.lanes, key))
  }

  ghost function Exec(cfg: Service.Config, hash: Vectors.Hash, s: State, acts: seq<Action>): (r: State)
    requires AllShaped(s.service.held)
    ensures AllShaped(r.service.held)
  {
    if |acts| == 0 then s else Step(cfg, hash, Exec(cfg, hash, s, acts[..|acts| - 1]), acts[|acts| - 1])
  }

  lemma One(cfg: Service.Config, hash: Vectors.Hash, s: State, a: Action)
    requires AllShaped(s.service.held)
    ensures Exec(cfg, hash, s, [a]) == Step(cfg, hash, s, a)
  {
    hide Step;
    assert [a][..0] == [];
  }

  // A vector envelope is the business of the vector lane alone.
  lemma VectorStep(cfg: Service.Config, hash: Vectors.Hash, s: State, env: Envelope)
    requires AllShaped(s.service.held) && env.channel == Vector
    ensures Exec(cfg, hash, s, [Handle(env)])
      == s.(lanes := Vectors.After(hash, s.lanes, Vectors.Handle(env)), log := s.log + [env])
  {
    One(cfg, hash, s, Handle(env));
  }

  // A scalar envelope is the business of the service alone.
  lemma ScalarStep(cfg: Service.Config, hash: Vectors.Hash, s: State, env: Envelope)
    requires AllShaped(s.service.held) && env.channel == Scalar
    ensures Exec(cfg, hash, s, [Handle(env)]) ==
      if |s.service.queue| >= cfg.capacity then s
      else s.(service := Service.Step(cfg, s.service, Service.Offer(env)), log := s.log + [env])
  {
    One(cfg, hash, s, Handle(env));
  }

  // A caller that finds the buffer full gets its place once the worker has received.
  lemma ReceiveThenHandle(cfg: Service.Config, hash: Vectors.Hash, s: State, env: Envelope)
    requires AllShaped(s.service.held) && env.channel == Scalar
    requires 0 < |s.service.queue| <= cfg.capacity && s.service.mode.Serving?
    ensures Exec(cfg, hash, s, [Work(Service.Receive), Handle(env)]) ==
      s.(service := Service.Step(cfg, Service.Exec(cfg, s.service, [Service.Receive]), Service.Offer(env)),
         log := s.log + [env])
  {
    hide Service.Take, AllShaped;
    assert [Work(Service.Receive), Handle(env)][..1] == [Work(Service.Receive)];
    One(cfg, hash, s, Work(Service.Receive));
    assert [Service.Receive][..0] == [];
  }

  function Idle(p: nat, order: nat): (s: State)
    requires p > 0
    ensures AllShaped(s.service.held)
  {
    State(Service.Idle(p, order), map[], [], [])
  }

  // What the service sees of a schedule.
  function Seen(acts: seq<Action>): seq<Service.Action> {
    if |acts| == 0 then []
    else
      var before := Seen(acts[..|acts| - 1]);
      match acts[|acts| - 1]
      case Handle(env) => before + [Service.Offer(env)]
      case Work(step) => if step.Offer? then before else before + [step]
      case DrainV(key) => before
  }

  // Scalar envelopes that are handled are of these cells.
  predicate Handles(acts: seq<Action>, cells: set<Cell>) {
    forall i :: 0 <= i < |acts| && acts[i].Handle? && acts[i].env.channel == Scalar ==>
      CellOf(AsBatch(acts[i].env)) in cells
  }

  lemma {:induction false} SeenOffers(acts: seq<Action>, cells: set<Cell>)
    requires Handles(acts, cells)
    ensures Service.Offers(Seen(acts), cells)
  {
    if |acts| > 0 {
      SeenOffers(acts[..|acts| - 1], cells);
    }
  }

  lemma ServiceStep(cfg: Service.Config, s: Service.Service, acts: seq<Service.Action>, a: Service.Action)
    requires AllShaped(s.held)
    ensures Service.Exec(cfg, s, acts + [a]) == Service.Step(cfg, Service.Exec(cfg, s, acts), a)
  {
    assert (acts + [a])[..|acts|] == acts;
  }

  lemma LaneMore(log: seq<Envelope>, env: Envelope)
    ensures forall ch :: Lane(log + [env], ch) == if env.channel == ch then Lane(log, ch) + [env] else Lane(log, ch)
  {
    assert (log + [env])[..|log|] == log;
  }

  // Only an offer adds to what was accepted.
  lemma WorkAccepts(cfg: Service.Config, s: Service.Service, a: Service.Action)
    requires AllShaped(s.held)
    ensures !a.Offer? ==> Service.Step(cfg, s, a).accepted == s.accepted
  {
    hide Service.Take, Service.Flush, Service.Hands;
  }

  // The service runs as it would alone, and has accepted the scalar envelopes of the log.
  lemma {:induction false} ServiceRuns(cfg: Service.Config, hash: Vectors.Hash, p: nat, order: nat, acts: seq<Action>)
    requires p > 0
    ensures var s := Exec(cfg, hash, Idle(p, order), acts);
      s.service == Service.Exec(cfg, Service.Idle(p, order), Seen(acts)) && s.service.accepted == Lane(s.log, Scalar)
  {
    hide Vectors.After, Vectors.QueueOf, FreshShards;
    if |acts| > 0 {
      var front, a := acts[..|acts| - 1], acts[|acts| - 1];
      var s := Exec(cfg, hash, Idle(p, order), front);
      ServiceRuns(cfg, hash, p, order, front);
      match a {
        case Handle(env) =>
          ServiceStep(cfg, Service.Idle(p, order), Seen(front), Service.Offer(env));
          LaneMore(s.log, env);
        case Work(step) =>
          ServiceStep(cfg, Service.Idle(p, order), Seen(front), step);
          WorkAccepts(cfg, s.service, step);
        case DrainV(key) =>
      }
    }
  }

  // Every queue is that of its key, and what was handled is drained or queued.
  ghost predicate Balanced(s: State, c: Cell) {
    && (forall k, e :: k in s.lanes && e in s.lanes[k] ==> e.footprint.keyId == k)
    && At(Total, AsBatches(s.drained), c) + At(Total, AsBatches(Vectors.QueueOf(s.lanes, c.0)), c)
       == At(Total, AsBatches(Lane(s.log, Vector)), c)
  }

  lemma OtherKey(envs: seq<Envelope>, key: uint64, c: Cell)
    requires (forall e :: e in envs ==> e.footprint.keyId == key) && c.0 != key
    ensures At(Total, AsBatches(envs), c) == 0
  {
    forall b | b in AsBatches(envs) ensures CellOf(b) != c {
      var i :| 0 <= i < |envs| && AsBatches(envs)[i] == b;
      assert envs[i] in envs;
    }
    Absent(Total, AsBatches(envs), c);
  }

  lemma QueueMore(queue: seq<Envelope>, env: Envelope, linked: Envelope, c: Cell)
    requires AsBatch(linked) == AsBatch(env)
    ensures At(Total, AsBatches(queue + [linked]), c) == At(Total, AsBatches(queue), c) + Weigh(Total, AsBatch(env), c)
  {
    AsBatchesAppend(queue, linked);
    Append(Total, AsBatches(queue), AsBatch(linked), c);
  }

  lemma OtherCell(env: Envelope, c: Cell)
    requires env.footprint.keyId != c.0
    ensures Weigh(Total, AsBatch(env), c) == 0
  {
  }

  lemma HandleBalanced(cfg: Service.Config, hash: Vectors.Hash, s: State, env: Envelope, c: Cell)
    requires Balanced(s, c)
    ensures Balanced(Handled(cfg, hash, s, env), c)
  {
    hide Service.Accept, At, Weigh, Lane;
    LaneMore(s.log, env);
    if env.channel == Vector {
      var key := env.footprint.keyId;
      QueueMore(Lane(s.log, Vector), env, env, c);
      QueueMore(Vectors.QueueOf(s.lanes, key), env, Vectors.Link(hash, env), c);
      if c.0 != key {
        assert Weigh(Total, AsBatch(env), c) == 0 by { OtherCell(env, c); }
      }
    }
  }

  lemma DrainBalanced(cfg: Service.Config, hash: Vectors.Hash, s: State, key: uint64, c: Cell)
    requires Balanced(s, c) && AllShaped(s.service.held)
    ensures Balanced(Step(cfg, hash, s, DrainV(key)), c)
  {
    hide At, Lane;
    var queue := Vectors.QueueOf(s.lanes, key);
    assert AsBatches(s.drained + queue) == AsBatches(s.drained) + AsBatches(queue);
    Concat(Total, AsBatches(s.drained), AsBatches(queue), c);
    if c.0 == key {
      assert At(Total, AsBatches([]), c) == 0 by { Absent(Total, AsBatches([]), c); }
    } else {
      OtherKey(queue, key, c);
    }
  }

  lemma {:induction false} RunBalanced(cfg: Service.Config, hash: Vectors.Hash, p: nat, order: nat, acts: seq<Action>,
                                       c: Cell)
    requires p > 0
    ensures Balanced(Exec(cfg, hash, Idle(p, order), acts), c)
  {
    hide Service.Step, Handled;
    if |acts| > 0 {
      var front, a := acts[..|acts| - 1], acts[|acts| - 1];
      RunBalanced(cfg, hash, p, order, front, c);
      match a {
        case Handle(env) => HandleBalanced(cfg, hash, Exec(cfg, hash, Idle(p, order), front), env, c);
        case Work(step) =>
        case DrainV(key) => DrainBalanced(cfg, hash, Exec(cfg, hash, Idle(p, order), front), key, c);
      }
    }
  }

  // The service has stopped with nothing left behind and every key is drained.
  ghost predicate Finished(s: State) {
    s.service.mode.Stopped? && s.service.queue == [] && forall key :: Vectors.QueueOf(s.lanes, key) == []
  }

  /** End to end: under every schedule of handling, ticks, flush requests and drains, once the service has
      stopped and every key is drained, the state rebuilt from the sink and the drains, in whatever order
      they arrive, reads at every cell as after the naive execution of everything that was handled. The
      ids of the scalar cells must be separated; how many there are does not matter, since a service
      that was wedged never stops. */
  lemma EndToEnd(cfg: Service.Config, hash: Vectors.Hash, p: nat, order: nat, cells: set<Cell>, acts: seq<Action>,
                 delivered: seq<SBatch>, vEnvs: seq<Envelope>, start: Cells, c: Cell)
    requires p > 0 && Separated(cells) && cfg.hasSink && Handles(acts, cells)
    ensures var s := Exec(cfg, hash, Idle(p, order), acts);
      Finished(s) && multiset(delivered) == multiset(s.service.sink) && multiset(vEnvs) == multiset(s.drained) ==>
      Read(Applied(start, delivered + AsBatches(vEnvs)), c) == Read(Applied(start, AsBatches(s.log)), c)
  {
    hide Exec, Service.Exec, At, Separated, Lane, Applied, Seen, FreshShards;
    var s := Exec(cfg, hash, Idle(p, order), acts);
    if Finished(s) && multiset(delivered) == multiset(s.service.sink) && multiset(vEnvs) == multiset(s.drained) {
      ServiceRuns(cfg, hash, p, order, acts);
      SeenOffers(acts, cells);
      Service.TotalWhole(cfg, Service.Idle(p, order), Seen(acts), c);
      Service.AfterStop(cfg, p, order, cells, Seen(acts), Total, c);
      assert s.service.accepted[..s.service.mode.mark] == s.service.accepted;
      RunBalanced(cfg, hash, p, order, acts, c);
      assert At(Total, AsBatches([]), c) == 0 by { Absent(Total, AsBatches([]), c); }
      Reorder(Total, delivered, s.service.sink, c);
      SameBatches(vEnvs, s.drained);
      Reorder(Total, AsBatches(vEnvs), AsBatches(s.drained), c);
      Concat(Total, delivered, AsBatches(vEnvs), c);
      LanesAddUp(Total, s.log, c);
      AppliedReads(start, delivered + AsBatches(vEnvs), c);
      AppliedReads(start, AsBatches(s.log), c);
    }
  }
}
