/** The background service of the scalar lane. Each method is one or more steps of ServiceMachine, so
    whatever is proved there of all schedules holds of every order of calls here. What the methods ask
    for is that the probes they start end; ServiceMachine says what happens otherwise. */
module SServices {
  import opened Envelopes
  import opened Accumulation
  import opened Compression
  import opened LiveCells
  import opened Bits
  import opened SAccumulators
  import opened ServiceMachine

  // What select picked: an arrival is a caller's move, the rest are the worker's.
  datatype Event = Arrival(env: Envelope) | Input | Ticked | FlushRequested

  function QueueAfter(capacity: nat, queue: seq<Envelope>, env: Envelope): seq<Envelope> {
    if env.channel != Scalar || |queue| >= capacity then queue else queue + [env]
  }

  function HeldAfter(held: Shards, env: Envelope): Shards
    requires AllShaped(held)
  {
    if Finds(held, AsBatch(env)) then Accumulation.Ingested(held, AsBatch(env)) else held
  }

  // The probes the worker starts for this event end.
  ghost predicate Fine(held: Shards, queue: seq<Envelope>, event: Event)
    requires AllShaped(held)
  {
    match event
    case Arrival(env) => true
    case Input => |queue| > 0 ==> Accepts(held, AsBatch(queue[0]))
    case Ticked => true
    case FlushRequested => Files(held, AsBatches(queue))
  }

  function After(capacity: nat, held: Shards, queue: seq<Envelope>, event: Event): (r: (Shards, seq<Envelope>))
    requires AllShaped(held)
    ensures AllShaped(r.0)
  {
    match event
    case Arrival(env) => (held, QueueAfter(capacity, queue, env))
    case Input => if |queue| > 0 then (HeldAfter(held, queue[0]), queue[1..]) else (held, queue)
    case Ticked => (Flushed(held), queue)
    case FlushRequested => (Flushed(IngestedAll(held, AsBatches(queue))), [])
  }

  // The probes of a whole script, and of the drain at its end, end.
  ghost predicate Goes(capacity: nat, held: Shards, queue: seq<Envelope>, script: seq<Event>)
    requires AllShaped(held)
    decreases |script|
  {
    if |script| == 0 then Files(held, AsBatches(queue))
    else
      && Fine(held, queue, script[0])
      && var next := After(capacity, held, queue, script[0]);
         Goes(capacity, next.0, next.1, script[1..])
  }

  predicate InUse(env: Envelope, cells: set<Cell>) {
    env.channel == Scalar ==> CellOf(AsBatch(env)) in cells
  }

  lemma QueueWithin(capacity: nat, queue: seq<Envelope>, env: Envelope, cells: set<Cell>)
    requires Within(AsBatches(queue), cells) && InUse(env, cells)
    ensures Within(AsBatches(QueueAfter(capacity, queue, env)), cells)
  {
    AsBatchesAppend(queue, env);
  }

  lemma TakenWithin(queue: seq<Envelope>, cells: set<Cell>)
    requires |queue| > 0 && Within(AsBatches(queue), cells)
    ensures CellOf(AsBatch(queue[0])) in cells && Within([AsBatch(queue[0])], cells)
    ensures Within(AsBatches(queue[1..]), cells)
  {
    var bs := AsBatches(queue);
    assert bs[0] in bs && AsBatches(queue[1..]) == bs[1..];
  }

  lemma OneFiled(held: Shards, b: SBatch)
    requires AllShaped(held) && Files(held, [b])
    ensures Accepts(held, b)
    ensures IngestedAll(held, [b]) == if Finds(held, b) then Accumulation.Ingested(held, b) else held
  {
    hide Accepts, Finds, Accumulation.Ingested;
    OneIngested(held, b);
    assert [b][..0] == [];
  }

  lemma WithinMore(bs: seq<SBatch>, b: SBatch, cells: set<Cell>)
    requires Within(bs, cells) && CellOf(b) in cells
    ensures Within(bs + [b], cells)
  {
  }

  lemma WithinBoth(a: seq<SBatch>, b: seq<SBatch>, cells: set<Cell>)
    requires Within(a, cells) && Within(b, cells)
    ensures Within(a + b, cells)
  {
  }

  lemma NothingLive(s: Shards, cells: set<Cell>)
    requires AllShaped(s)
    ensures IngestedAll(s, []) == s && Within([], cells) && Within(AsBatches([]), cells)
  {
  }

  predicate ArrivalsIn(script: seq<Event>, cells: set<Cell>) {
    forall i :: 0 <= i < |script| && script[i].Arrival? ==> InUse(script[i].env, cells)
  }

  /** With room for the cells of every shard, every script goes through. */
  lemma {:induction false} GoesWhenFit(p: nat, order: nat, cells: set<Cell>, capacity: nat, live: seq<SBatch>,
                                       queue: seq<Envelope>, script: seq<Event>)
    requires p > 0 && Separated(cells) && Within(live, cells) && Within(AsBatches(queue), cells)
    requires forall j :: 0 <= j < p ==> |RoutedCells(cells, p, j)| <= Pow2(order)
    requires ArrivalsIn(script, cells)
    ensures Goes(capacity, IngestedAll(FreshShards(p, order), live), queue, script)
    decreases |script|
  {
    hide Separated, Files, IngestedAll, FreshShards, RoutedCells, Pow2, CellOf, Flushed, Accepts, Finds,
      Accumulation.Ingested, Within;
    var held := IngestedAll(FreshShards(p, order), live);
    MoreFit(p, order, cells, live, AsBatches(queue));
    if |script| > 0 {
      var event, rest := script[0], script[1..];
      match event {
        case Arrival(env) =>
          QueueWithin(capacity, queue, env, cells);
          GoesWhenFit(p, order, cells, capacity, live, QueueAfter(capacity, queue, env), rest);
        case Input =>
          if |queue| > 0 {
            TakenWithin(queue, cells);
            MoreFit(p, order, cells, live, [AsBatch(queue[0])]);
            OneFiled(held, AsBatch(queue[0]));
            WithinMore(live, AsBatch(queue[0]), cells);
            GoesWhenFit(p, order, cells, capacity, live + [AsBatch(queue[0])], queue[1..], rest);
          } else {
            GoesWhenFit(p, order, cells, capacity, live, queue, rest);
          }
        case Ticked =>
          FlushResets(p, order, cells, live);
          NothingLive(FreshShards(p, order), cells);
          GoesWhenFit(p, order, cells, capacity, [], queue, rest);
        case FlushRequested =>
          WithinBoth(live, AsBatches(queue), cells);
          FlushResets(p, order, cells, live + AsBatches(queue));
          NothingLive(FreshShards(p, order), cells);
          GoesWhenFit(p, order, cells, capacity, [], [], rest);
      }
    }
  }

  // The books are balanced at every cell.
  ghost predicate Balanced(s: Service, m: Measure)
    requires Fifo(Config(|s.queue|, false, false), s)
  {
    forall c :: Accounted(s, m, c)
  }

  // The sink has, at every cell, what was accepted.
  ghost predicate AllInSink(s: Service, m: Measure) {
    forall c :: At(m, s.sink, c) == At(m, AsBatches(s.accepted), c)
  }

  predicate OnlyOffers(acts: seq<Action>, event: Event) {
    forall i :: 0 <= i < |acts| && acts[i].Offer? ==> event == Arrival(acts[i].env)
  }

  lemma Ends(cfg: Config, start: Service, acts: seq<Action>, cells: set<Cell>, s: Service, m: Measure)
    requires AllShaped(start.held) && s == Exec(cfg, start, acts)
    requires m == Total || (m == Peak && !cfg.compresses)
    requires Fifo(cfg, start) && Marked(start) && s.queue == [] && EmitAll(s.held) == [] && !s.mode.Wedged?
    ensures cfg.hasSink && Balanced(start, m) && Ready(start, cells) && Offers(acts, cells) ==> AllInSink(s, m)
  {
    hide Sound, Separated, EmitAll, Exec, At, Within;
    if cfg.hasSink && Balanced(start, m) && Ready(start, cells) && Offers(acts, cells) {
      OffersWithin(cfg, start, acts, cells);
      forall c ensures At(m, s.sink, c) == At(m, AsBatches(s.accepted), c) {
        RunKeeps(cfg, start, acts, cells, m, c);
        assert s.accepted[..|s.accepted|] == s.accepted;
        Absent(m, [], c);
      }
    }
  }

  lemma NoActions(cfg: Config, s: Service)
    requires AllShaped(s.held)
    ensures Exec(cfg, s, []) == s
  {
  }

  ghost method Did(cfg: Config, s: Service, acts: seq<Action>, a: Action) returns (more: seq<Action>)
    requires AllShaped(s.held)
    ensures more == acts + [a]
    ensures Exec(cfg, s, more) == Step(cfg, Exec(cfg, s, acts), a)
  {
    more := acts + [a];
    assert more[..|acts|] == acts;
  }

  lemma NothingFiled(held: Shards)
    requires AllShaped(held)
    ensures IngestedAll(held, AsBatches([])) == held
  {
  }

  // The transformer works in place on the slice the accumulator returned.
  method Compacted(b: seq<SBatch>) returns (out: seq<SBatch>)
    ensures Compressed(b, out)
  {
    hide Compressed;
    var batches := new SBatch[|b|](i requires 0 <= i < |b| => b[i]);
    assert batches[..] == b;
    var n := Compress(batches);
    out := batches[..n];
  }

  class SService {
    const acc: SAccumulator
    // Whether a transformer and a sink are configured.
    const compresses: bool
    const hasSink: bool
    const capacity: nat
    var queue: seq<Envelope>
    var sink: seq<SBatch>

    ghost var mode: Mode
    ghost var accepted: seq<Envelope>
    ghost var live: seq<SBatch>

    ghost function Cfg(): Config {
      Config(capacity, compresses, hasSink)
    }

    ghost function State(): (s: Service)
      requires acc.Valid()
      reads this, acc, acc.Repr
      ensures AllShaped(s.held)
    {
      Service(queue, acc.Views(), live, sink, mode, accepted)
    }

    ghost predicate Valid()
      reads this, acc, acc.Repr
      ensures Valid() ==> this !in acc.Repr && acc.Valid() && Fifo(Cfg(), State())
    {
      && this !in acc.Repr && acc.Valid()
      && Fifo(Cfg(), State())
      && capacity > 0 && (forall i :: 0 <= i < |queue| ==> queue[i].channel == Scalar)
    }

    // The worker is in its loop, and the probe for the oldest envelope ends.
    ghost predicate CanReceive()
      requires Valid()
      reads this, acc, acc.Repr
    {
      mode == Serving && (|queue| > 0 ==> Accepts(State().held, AsBatch(queue[0])))
    }

    /** A buffer of 4096 unless a positive size is given. */
    constructor (acc: SAccumulator, compresses: bool, hasSink: bool, buffer: int)
      requires acc.Valid()
      ensures Valid() && this.acc == acc
      ensures State() == Service([], acc.Views(), [], [], Serving, [])
      ensures Cfg() == Config(if buffer <= 0 then 4096 else buffer, compresses, hasSink)
    {
      hide SAccumulator.Valid, SAccumulator.Views;
      this.acc := acc;
      this.compresses, this.hasSink := compresses, hasSink;
      capacity := if buffer <= 0 then 4096 else buffer;
      queue, sink, mode, accepted, live := [], [], Serving, [], [];
      new;
      assert this !in acc.Repr;
    }

    method TryIngest(env: Envelope) returns (ok: bool)
      requires Valid()
      modifies this`queue, this`accepted
      ensures Valid()
      ensures State() == Step(Cfg(), old(State()), Offer(env))
      ensures ok <==> env.channel != Scalar || |old(queue)| < capacity
      ensures accepted == if ok && env.channel == Scalar then old(accepted) + [env] else old(accepted)
      ensures !ok ==> State() == old(State()) && queue == old(queue) && CanReceive() == old(CanReceive())
    {
      hide SAccumulator.Valid, SAccumulator.Views;
      if env.channel != Scalar {
        return true;
      }
      if |queue| < capacity {
        queue := queue + [env];
        accepted := accepted + [env];
        return true;
      }
      return false;
    }

    // One envelope off the channel and into the accumulator.
    method TakeNext()
      requires Valid() && |queue| > 0 && Accepts(State().held, AsBatch(queue[0]))
      modifies this`queue, this`live, acc.Repr
      ensures Valid() && State() == Take(old(State())) == TakeOne(old(State()))
    {
      hide Accumulation.Ingested, Finds, Accepts, SAccumulator.Valid, SAccumulator.Views;
      ghost var start := State();
      AcceptsFinds(start.held, AsBatch(queue[0]));
      var env := queue[0];
      live := live + [AsBatch(env)];
      queue := queue[1..];
      if env.channel == Scalar {
        acc.Ingest(env);
      }
    }

    /** A full buffer blocks the caller until the worker has received: served says whether it comes round
        to that; if not, the call is still waiting and nothing has happened. */
    method Ingest(env: Envelope, served: bool) returns (done: bool)
      requires Valid()
      requires served ==> CanReceive()
      modifies this`queue, this`accepted, this`live, acc.Repr
      ensures Valid()
      ensures done <==> env.channel != Scalar || |old(queue)| < capacity || served
      ensures !done || env.channel != Scalar ==> State() == old(State())
      ensures done && env.channel == Scalar ==> accepted == old(accepted) + [env]
      ensures done && env.channel == Scalar ==> State() == Step(Cfg(), Exec(Cfg(), old(State()),
                if |old(queue)| < capacity then [] else [Receive]), Offer(env))
    {
      hide SAccumulator.Valid, SAccumulator.Views, Accepts, Take;
      if env.channel != Scalar {
        return true;
      }
      ghost var start := State();
      NoActions(Cfg(), start);
      if |queue| >= capacity {
        if !served {
          return false;
        }
        ghost var acts := Did(Cfg(), start, [], Receive);
        TakeNext();
      }
      var ok := TryIngest(env);
      return true;
    }

    method FlushNow() returns (ghost out: seq<SBatch>)
      requires Valid()
      modifies this`sink, this`live, acc.Repr
      ensures Valid()
      ensures Hands(Cfg(), old(State()).held, out) && State() == Flush(Cfg(), old(State()), out)
    {
      hide EmitAll, Flushed, Compressed, SAccumulator.Valid, SAccumulator.Views;
      var b := acc.FlushAll();
      live := [];
      out := [];
      if |b| == 0 {
        return;
      }
      if compresses {
        b := Compacted(b);
      }
      out := b;
      if |b| > 0 && hasSink {
        sink := sink + b;
      }
    }

    // The worker's place in the code moves on.
    ghost method Moves(next: Mode)
      requires Valid()
      modifies this`mode
      ensures Valid() && State() == old(State()).(mode := next)
    {
      hide SAccumulator.Valid, SAccumulator.Views;
      mode := next;
    }

    method Drain(ghost start: Service, ghost acts: seq<Action>, ghost request: Action)
      returns (ghost more: seq<Action>)
      requires Valid() && mode.Draining? && AllShaped(start.held) && State() == Exec(Cfg(), start, acts)
      requires Serves(acts, request) && Files(State().held, AsBatches(queue))
      modifies this`queue, this`live, acc.Repr
      ensures Valid() && State() == Exec(Cfg(), start, more) && Serves(more, request)
      ensures queue == [] && mode == old(mode) && accepted == old(accepted)
      ensures State().held == IngestedAll(old(State()).held, AsBatches(old(queue)))
    {
      hide SAccumulator.Valid, SAccumulator.Views, Take, TakeOne, Valid, Exec, Files, IngestedAll, Accepts;
      more := acts;
      ghost var final := IngestedAll(State().held, AsBatches(queue));
      while |queue| > 0
        invariant Valid() && mode == old(mode) && accepted == old(accepted)
        invariant State() == Exec(Cfg(), start, more) && Serves(more, request)
        invariant Files(State().held, AsBatches(queue)) && IngestedAll(State().held, AsBatches(queue)) == final
      {
        more := Did(Cfg(), start, more, DrainNext);
        FilesRest(State());
        TakeNext();
      }
      NothingFiled(State().held);
    }

    // Up to the moment the channel is found empty.
    method DrainPhase(ghost stop: bool) returns (ghost acts: seq<Action>)
      requires Valid() && mode == Serving && Files(State().held, AsBatches(queue))
      modifies this`queue, this`mode, this`live, acc.Repr
      ensures Valid() && State() == Exec(Cfg(), old(State()), acts)
      ensures Serves(acts, if stop then TakeStop else TakeFlush)
      ensures queue == [] && mode == Emitting(stop, |accepted|) && accepted == old(accepted)
      ensures State().held == IngestedAll(old(State()).held, AsBatches(old(queue)))
    {
      hide EmitAll, Hands, SAccumulator.Valid, SAccumulator.Views, Take, Exec, Valid, Files, IngestedAll;
      ghost var start := State();
      ghost var request: Action := if stop then TakeStop else TakeFlush;
      acts := Did(Cfg(), start, [], request);
      NoActions(Cfg(), start);
      Moves(Draining(stop, |accepted|));
      acts := Drain(start, acts, request);
      acts := Did(Cfg(), start, acts, DrainNext);
      Moves(Emitting(stop, |accepted|));
    }

    method DrainAndFlush(ghost stop: bool) returns (ghost acts: seq<Action>)
      requires Valid() && mode == Serving && Files(State().held, AsBatches(queue))
      modifies this`queue, this`sink, this`mode, this`live, acc.Repr
      ensures Valid() && State() == Exec(Cfg(), old(State()), acts)
      ensures Serves(acts, if stop then TakeStop else TakeFlush)
      ensures queue == [] && EmitAll(State().held) == [] && accepted == old(accepted)
      ensures State().held == Flushed(IngestedAll(old(State()).held, AsBatches(old(queue))))
      ensures mode == if stop then Stopped(|accepted|) else Serving
    {
      hide EmitAll, Hands, SAccumulator.Valid, SAccumulator.Views, Take, Exec, Flushed, Valid, Files, IngestedAll;
      ghost var start := State();
      acts := DrainPhase(stop);
      FlushedEmitsNothing(State().held);
      ghost var out := FlushNow();
      acts := Did(Cfg(), start, acts, Action.Emit(out));
      Moves(if stop then Stopped(|accepted|) else Serving);
    }

    // Drain what is queued, then flush, then report back to the caller.
    method ServeFlush() returns (ghost acts: seq<Action>)
      requires Valid() && mode == Serving && Files(State().held, AsBatches(queue))
      modifies this`queue, this`sink, this`mode, this`live, acc.Repr
      ensures Valid() && State() == Exec(Cfg(), old(State()), acts) && Serves(acts, TakeFlush)
      ensures queue == [] && EmitAll(State().held) == [] && mode == Serving && accepted == old(accepted)
      ensures State().held == Flushed(IngestedAll(old(State()).held, AsBatches(old(queue))))
    {
      acts := DrainAndFlush(false);
    }

    // The last thing the worker does.
    method ServeStop() returns (ghost acts: seq<Action>)
      requires Valid() && mode == Serving && Files(State().held, AsBatches(queue))
      modifies this`queue, this`sink, this`mode, this`live, acc.Repr
      ensures Valid() && State() == Exec(Cfg(), old(State()), acts) && Serves(acts, TakeStop)
      ensures queue == [] && EmitAll(State().held) == [] && mode == Stopped(|accepted|) && accepted == old(accepted)
    {
      acts := DrainAndFlush(true);
    }

    // One turn of the event loop, whichever of the ready cases was picked; an arrival is a caller's.
    method Serve(event: Event) returns (ghost acts: seq<Action>)
      requires Valid() && mode == Serving && Fine(State().held, queue, event)
      modifies this, acc.Repr
      ensures Valid() && mode == Serving && State() == Exec(Cfg(), old(State()), acts)
      ensures (State().held, queue) == After(capacity, old(State()).held, old(queue), event)
      ensures OnlyOffers(acts, event)
    {
      hide EmitAll, Hands, SAccumulator.Valid, SAccumulator.Views, Exec, Flushed, Valid, Files, Accepts, Finds,
        Accumulation.Ingested, IngestedAll;
      ghost var start := State();
      NoActions(Cfg(), start);
      acts := [];
      match event {
        case Arrival(env) =>
          acts := Did(Cfg(), start, [], Offer(env));
          var ok := TryIngest(env);
        case Input =>
          if |queue| > 0 {
            acts := Did(Cfg(), start, [], Receive);
            TakeNext();
          }
        case Ticked =>
          ghost var out := FlushNow();
          acts := Did(Cfg(), start, [], Tick(out));
        case FlushRequested =>
          acts := ServeFlush();
      }
    }

    /** The life of the worker. Whatever the events, if their probes end, it ends with an empty channel and
        an empty table; and if the ids of the cells in use are separated, the sink has, for every cell,
        exactly what was accepted, in total and without a transformer in greatest sequence number. */
    method Run(script: seq<Event>, ghost cells: set<Cell>)
      requires Valid() && mode == Serving && Goes(capacity, State().held, queue, script)
      modifies this, acc.Repr
      ensures Valid() && queue == [] && EmitAll(State().held) == [] && mode == Stopped(|accepted|)
      ensures forall m | m == Total || (m == Peak && !compresses) ::
        hasSink && old(Balanced(State(), m) && Ready(State(), cells)) && ArrivalsIn(script, cells) ==>
          AllInSink(State(), m)
    {
      hide EmitAll, SAccumulator.Valid, SAccumulator.Views, Exec, At, Accounted, Finds, Files, Fine, After, Ready,
        Valid, Balanced, AllInSink;
      ghost var start := State();
      NoActions(Cfg(), start);
      ghost var acts := [];
      for i := 0 to |script|
        invariant Valid() && mode == Serving && State() == Exec(Cfg(), start, acts)
        invariant Goes(capacity, State().held, queue, script[i..])
        invariant ArrivalsIn(script, cells) ==> Offers(acts, cells)
      {
        assert script[i..][0] == script[i] && script[i..][1..] == script[i + 1..];
        ghost var more := Serve(script[i]);
        ExecConcat(Cfg(), start, acts, more);
        acts := acts + more;
      }
      ghost var last := ServeStop();
      ExecConcat(Cfg(), start, acts, last);
      forall m | m == Total || (m == Peak && !compresses)
        ensures hasSink && Balanced(start, m) && Ready(start, cells) && ArrivalsIn(script, cells) ==>
          AllInSink(State(), m)
      {
        Ends(Cfg(), start, acts + last, cells, State(), m);
      }
    }
  }
}
