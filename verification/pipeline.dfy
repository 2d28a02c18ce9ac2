/** The pipeline that sends scalar envelopes to the service and vector envelopes to their actors. Its
    methods are steps of PipelineMachine. */
module Pipelines {
  import opened Packing
  import opened Envelopes
  import opened VectorLane
  import opened VActors
  import opened SServices
  import Accumulation
  import Machine = PipelineMachine
  import ServiceMachine

  class Pipeline {
    const s: SService
    const v: VRouter
    // What the callback for vector envelopes was given.
    var persisted: seq<Envelope>

    ghost var drained: seq<Envelope>
    ghost var log: seq<Envelope>

    ghost predicate Valid()
      reads this, s, s.acc, s.acc.Repr, v, v.Actors()
      ensures Valid() ==> s.Valid() && v.Valid() && s.acc.Valid()
    {
      && s.Valid() && v.Valid()
      && this !in s.acc.Repr && this !in v.Actors() && v !in s.acc.Repr && s !in v.Actors() && s.acc !in v.Actors()
      && s.acc.Repr !! v.Actors()
    }

    ghost function State(): (st: Machine.State)
      requires s.acc.Valid()
      reads this, s, s.acc, s.acc.Repr, v, v.Actors()
      ensures Accumulation.AllShaped(st.service.held)
    {
      Machine.State(s.State(), v.View(), drained, log)
    }

    constructor (s: SService, v: VRouter)
      requires s.Valid() && v.Valid() && v !in s.acc.Repr && s.acc.Repr !! v.Actors()
      ensures Valid() && this.s == s && this.v == v && persisted == []
      ensures State() == Machine.State(s.State(), v.View(), [], [])
    {
      this.s, this.v := s, v;
      persisted, drained, log := [], [], [];
      new;
      assert this !in s.acc.Repr;
    }

    // The history, and the callback if there is one.
    method Report(env: Envelope, persistV: bool)
      requires Valid()
      modifies this`persisted, this`log
      ensures Valid() && log == old(log) + [env] && v.View() == old(v.View()) && s.State() == old(s.State())
      ensures persisted == old(persisted) + (if persistV then [env] else [])
    {
      hide SService.Valid, SService.State, VRouter.View, VRouter.Valid, VRouter.Actors;
      log := log + [env];
      if persistV {
        persisted := persisted + [env];
      }
    }

    lemma QueueOfActor(keyID: uint64)
      requires v.Valid() && keyID in v.actors
      ensures keyID in v.View() && v.View()[keyID] == v.actors[keyID].queue
    {
    }

    method HandleVector(env: Envelope, persistV: bool)
      requires Valid() && env.channel == Vector
      modifies this`persisted, this`log, v, v.Actors()
      ensures Valid() && s.State() == old(s.State()) && drained == old(drained)
      ensures v.View() == VectorLane.After(v.hash, old(v.View()), VectorLane.Handle(env)) && log == old(log) + [env]
      ensures persisted == old(persisted) + (if persistV then [env] else [])
    {
      hide SService.Valid, SService.State, VRouter.View, VRouter.Valid;
      var key := env.footprint.keyId;
      var act := v.Route(key);
      QueueOfActor(key);
      label routed:
      act.Enqueue(env);
      v.OthersKept@routed(key);
      Report(env, persistV);
    }

    lemma WaitingRoom()
      requires s.Valid()
      ensures 0 < s.capacity && |s.State().queue| == |s.queue| <= s.capacity
      ensures s.CanReceive() ==> s.State().mode == ServiceMachine.Serving
    {
    }

    method HandleScalar(env: Envelope, served: bool) returns (done: bool)
      requires Valid() && env.channel == Scalar
      requires served ==> s.CanReceive()
      modifies this`log, s`queue, s`accepted, s`live, s.acc.Repr
      ensures Valid() && persisted == old(persisted)
      ensures done <==> |old(s.queue)| < s.capacity || served
      ensures State() == Machine.Exec(s.Cfg(), v.hash, old(State()),
        if |old(s.queue)| >= s.capacity && served
        then [Machine.Work(ServiceMachine.Receive), Machine.Handle(env)] else [Machine.Handle(env)])
    {
      hide SService.Valid, SService.State, ServiceMachine.Step, ServiceMachine.Exec, VRouter.View, VRouter.Valid,
        SService.CanReceive;
      WaitingRoom();
      Machine.ScalarStep(s.Cfg(), v.hash, State(), env);
      if |s.queue| >= s.capacity && served {
        Machine.ReceiveThenHandle(s.Cfg(), v.hash, State(), env);
      }
      done := s.TryIngest(env);
      if !done {
        done := s.Ingest(env, served);
      }
      if done {
        log := log + [env];
      }
    }

    /** A scalar envelope is put into the service, after the worker has received if there is no room and it
        comes round to it, and the vector lane is left alone; a vector envelope is linked, queued and
        reported as it came, and the service is left alone. */
    method Handle(env: Envelope, persistV: bool, served: bool) returns (done: bool)
      requires Valid()
      requires served ==> s.CanReceive()
      modifies this`persisted, this`log, s`queue, s`accepted, s`live, s.acc.Repr, v, v.Actors()
      ensures Valid()
      ensures done <==> env.channel == Vector || |old(s.queue)| < s.capacity || served
      ensures persisted == old(persisted) + (if env.channel == Vector && persistV then [env] else [])
      ensures State() == Machine.Exec(s.Cfg(), v.hash, old(State()),
        if env.channel == Scalar && |old(s.queue)| >= s.capacity && served
        then [Machine.Work(ServiceMachine.Receive), Machine.Handle(env)] else [Machine.Handle(env)])
    {
      hide SService.Valid, SService.State, Valid, VRouter.View, VRouter.Valid, VRouter.Actors, Machine.Step,
        SService.CanReceive, Machine.Exec, VectorLane.After;
      if env.channel == Scalar {
        done := HandleScalar(env, served);
      } else {
        Machine.VectorStep(s.Cfg(), v.hash, State(), env);
        HandleVector(env, persistV);
        done := true;
      }
    }

    method TakeQueue(keyID: uint64) returns (out: seq<Envelope>)
      requires Valid()
      modifies v, v.Actors()
      ensures Valid() && s.State() == old(s.State()) && log == old(log) && drained == old(drained)
      ensures out == QueueOf(old(v.View()), keyID)
      ensures v.View() == VectorLane.After(v.hash, old(v.View()), VectorLane.DrainV(keyID))
    {
      hide SService.Valid, SService.State, VRouter.View;
      var act := v.Route(keyID);
      QueueOfActor(keyID);
      label routed:
      out := act.Drain();
      v.OthersKept@routed(keyID);
    }

    method DrainV(keyID: uint64) returns (out: seq<Envelope>)
      requires Valid()
      modifies this`drained, v, v.Actors()
      ensures Valid() && out == QueueOf(old(v.View()), keyID)
      ensures State() == Machine.Step(s.Cfg(), v.hash, old(State()), Machine.DrainV(keyID))
    {
      hide SService.Valid, SService.State, VRouter.View, VRouter.Valid, VRouter.Actors;
      out := TakeQueue(keyID);
      drained := drained + out;
    }
  }
}
