/** The scalar-lane service step by step: callers put envelopes into a bounded channel at any moment,
    the worker receives, flushes on its ticker, and drains on a flush request or on stop. A step that
    is not possible leaves the state as it is, so every sequence of actions is a schedule. A probe that
    does not end wedges the worker for good, with the envelope it has just taken in its hands. */
module ServiceMachine {
  import opened Bits
  import opened Envelopes
  import opened Accumulation
  import opened Compression
  import opened LiveCells

  // mark: how many envelopes had been accepted when the request was taken up.
  datatype Mode =
    | Serving
    | Draining(stop: bool, mark: nat)
    | Emitting(stop: bool, mark: nat)
    | Stopped(mark: nat)
    | Wedged(env: Envelope)

  datatype Config = Config(capacity: nat, compresses: bool, hasSink: bool)

  // accepted is the history of the channel, everything that was ever put into it; live is what has been
  // filed since the last flush.
  datatype Service = Service(
    queue: seq<Envelope>,
    held: Shards,
    live: seq<SBatch>,
    sink: seq<SBatch>,
    mode: Mode,
    accepted: seq<Envelope>)

  datatype Action =
    | Offer(env: Envelope)
    | Receive
    | Tick(out: seq<SBatch>)
    | TakeFlush
    | TakeStop
    | DrainNext
    | Emit(out: seq<SBatch>)

  // What one flush hands to the sink.
  ghost predicate Hands(cfg: Config, held: Shards, out: seq<SBatch>) {
    if EmitAll(held) == [] then out == []
    else if cfg.compresses then Compressed(EmitAll(held), out)
    else out == EmitAll(held)
  }

  function Accept(cfg: Config, s: Service, env: Envelope): (r: Service)
    ensures r.mode == s.mode && r.held == s.held
  {
    if env.channel != Scalar || |s.queue| >= cfg.capacity then s
    else s.(queue := s.queue + [env], accepted := s.accepted + [env])
  }

  function TakeOne(s: Service): (r: Service)
    requires AllShaped(s.held) && |s.queue| > 0
    ensures r.mode == s.mode && r.accepted == s.accepted && |r.queue| == |s.queue| - 1
  {
    var b := AsBatch(s.queue[0]);
    s.(queue := s.queue[1..], live := s.live + [b],
       held := if Finds(s.held, b) then Accumulation.Ingested(s.held, b) else s.held)
  }

  // The worker takes the oldest envelope and files it, or gets lost in the table.
  ghost function Take(s: Service): (r: Service)
    requires AllShaped(s.held) && |s.queue| > 0
    ensures r.accepted == s.accepted && |r.queue| == |s.queue| - 1
  {
    if Accepts(s.held, AsBatch(s.queue[0])) then TakeOne(s)
    else s.(queue := s.queue[1..], mode := Wedged(s.queue[0]))
  }

  // What is queued can be filed if and only if the first can be and then the rest.
  lemma FilesRest(s: Service)
    requires AllShaped(s.held) && |s.queue| > 0
    ensures var s' := TakeOne(s);
      && AllShaped(s'.held)
      && (Files(s.held, AsBatches(s.queue))
          <==> Accepts(s.held, AsBatch(s.queue[0])) && Files(s'.held, AsBatches(s'.queue)))
      && IngestedAll(s'.held, AsBatches(s'.queue)) == IngestedAll(s.held, AsBatches(s.queue))
  {
    hide Accepts, Finds, Accumulation.Ingested;
    var bs := AsBatches(s.queue);
    assert bs == [bs[0]] + bs[1..] && AsBatches(s.queue[1..]) == bs[1..];
    FilesSplit(s.held, [bs[0]], bs[1..]);
    OneIngested(s.held, bs[0]);
    assert bs[..0] == [];
  }

  // What the worker has taken and not filed.
  function InHand(s: Service): seq<SBatch> {
    if s.mode.Wedged? then [AsBatch(s.mode.env)] else []
  }

  function Flush(cfg: Config, s: Service, out: seq<SBatch>): (r: Service)
    ensures r.mode == s.mode && r.accepted == s.accepted && r.queue == s.queue
  {
    s.(held := Flushed(s.held), live := [], sink := if cfg.hasSink then s.sink + out else s.sink)
  }

  // How many of the accepted envelopes have left the channel.
  function Received(s: Service): nat {
    if |s.queue| <= |s.accepted| then |s.accepted| - |s.queue| else 0
  }

  ghost function Step(cfg: Config, s: Service, a: Action): (r: Service)
    requires AllShaped(s.held)
    ensures AllShaped(r.held)
  {
    match a
    case Offer(env) => Accept(cfg, s, env)
    case Receive => if s.mode.Serving? && |s.queue| > 0 then Take(s) else s
    case Tick(out) => if s.mode.Serving? && Hands(cfg, s.held, out) then Flush(cfg, s, out) else s
    case TakeFlush => if s.mode.Serving? then s.(mode := Draining(false, |s.accepted|)) else s
    case TakeStop => if s.mode.Serving? then s.(mode := Draining(true, |s.accepted|)) else s
    case DrainNext =>
      if !s.mode.Draining? then s
      else if |s.queue| > 0 then Take(s)
      else s.(mode := Emitting(s.mode.stop, s.mode.mark))
    case Emit(out) =>
      if s.mode.Emitting? && Hands(cfg, s.held, out) then
        Flush(cfg, s, out).(mode := if s.mode.stop then Stopped(Received(s)) else Serving)
      else s
  }

  ghost function Exec(cfg: Config, s: Service, acts: seq<Action>): (r: Service)
    requires AllShaped(s.held)
    ensures AllShaped(r.held)
  {
    if |acts| == 0 then s else Step(cfg, Exec(cfg, s, acts[..|acts| - 1]), acts[|acts| - 1])
  }

  // The worker takes up this request and serves it.
  predicate Serves(acts: seq<Action>, request: Action) {
    |acts| > 0 && acts[0] == request && forall j :: 1 <= j < |acts| ==> acts[j].DrainNext? || acts[j].Emit?
  }

  lemma {:induction false} ExecConcat(cfg: Config, s: Service, a: seq<Action>, b: seq<Action>)
    requires AllShaped(s.held)
    ensures Exec(cfg, s, a + b) == Exec(cfg, Exec(cfg, s, a), b)
  {
    hide Step, AllShaped;
    if |b| == 0 {
      assert a + b == a;
    } else {
      ExecConcat(cfg, s, a, b[..|b| - 1]);
      assert (a + b)[..|a + b| - 1] == a + b[..|b| - 1];
    }
  }

  function Idle(p: nat, order: nat): Service
    requires p > 0
  {
    Service([], FreshShards(p, order), [], [], Serving, [])
  }

  // The channel holds the newest of what was accepted.
  predicate Fifo(cfg: Config, s: Service) {
    && |s.queue| <= |s.accepted| && |s.queue| <= cfg.capacity
    && s.queue == s.accepted[Received(s)..]
  }

  ghost predicate Ready(s: Service, cells: set<Cell>) {
    Separated(cells) && Sound(s.held, cells) && Within(AsBatches(s.accepted), cells)
  }

  // What has left the channel is in the sink, in the table or in the worker's hands.
  ghost predicate Accounted(s: Service, m: Measure, c: Cell)
    requires |s.queue| <= |s.accepted|
  {
    Combine(m, Combine(m, At(m, s.sink, c), At(m, EmitAll(s.held), c)), At(m, InHand(s), c))
      == At(m, AsBatches(s.accepted[..Received(s)]), c)
  }

  // A flush now would lose nothing of the cell by this measure: the transformer drops what adds up to 0.
  predicate Whole(cfg: Config, s: Service, m: Measure, c: Cell) {
    m == Total || !cfg.compresses || At(Total, EmitAll(s.held), c) != 0 || At(Count, EmitAll(s.held), c) == 0
  }

  // The worker may flush in this step.
  predicate MayFlush(s: Service, a: Action) {
    (a.Tick? && s.mode.Serving?) || (a.Emit? && s.mode.Emitting?)
  }

  predicate Marked(s: Service) {
    match s.mode
    case Serving => true
    case Draining(stop, mark) => mark <= |s.accepted|
    case Emitting(stop, mark) => mark <= Received(s)
    case Stopped(mark) => mark == Received(s) && EmitAll(s.held) == []
    case Wedged(env) => true
  }

  ghost predicate Inv(cfg: Config, s: Service, cells: set<Cell>, m: Measure, c: Cell) {
    m != Count && Fifo(cfg, s) && Ready(s, cells) && (cfg.hasSink ==> Accounted(s, m, c)) && Marked(s)
  }

  lemma AcceptKeeps(cfg: Config, s: Service, env: Envelope, cells: set<Cell>, m: Measure, c: Cell)
    requires Inv(cfg, s, cells, m, c) && Within(AsBatches(Accept(cfg, s, env).accepted), cells)
    ensures Inv(cfg, Accept(cfg, s, env), cells, m, c)
  {
    hide Sound, Separated, EmitAll, At, Within;
    var s' := Accept(cfg, s, env);
    assert InHand(s') == InHand(s);
    assert s'.accepted[..Received(s)] == s.accepted[..Received(s)];
  }

  lemma AcceptedWithin(envs: seq<Envelope>, n: nat, cells: set<Cell>)
    requires n < |envs| && Within(AsBatches(envs), cells)
    ensures CellOf(AsBatch(envs[n])) in cells
  {
    assert AsBatches(envs)[n] in AsBatches(envs);
  }

  lemma TakeKeeps(cfg: Config, s: Service, cells: set<Cell>, m: Measure, c: Cell)
    requires Inv(cfg, s, cells, m, c) && AllShaped(s.held) && |s.queue| > 0 && !s.mode.Wedged?
    ensures Fifo(cfg, Take(s)) && Ready(Take(s), cells) && (cfg.hasSink ==> Accounted(Take(s), m, c))
    ensures Received(Take(s)) == Received(s) + 1
  {
    hide Sound, Separated, EmitAll, At, Within, Finds, Accumulation.Ingested, Weigh, Accepts, AllShaped;
    var (n, env) := (Received(s), s.queue[0]);
    var b := AsBatch(env);
    assert env == s.accepted[n] && s.accepted[..n + 1] == s.accepted[..n] + [env];
    AcceptedWithin(s.accepted, n, cells);
    if Accepts(s.held, b) {
      IngestSound(s.held, cells, b);
      IngestAdds(m, s.held, cells, b, c);
    }
    One(m, b, c);
    Absent(m, [], c);
    AsBatchesAppend(s.accepted[..n], env);
    Append(m, AsBatches(s.accepted[..n]), b, c);
  }

  lemma HandsAll(cfg: Config, s: Service, out: seq<SBatch>, m: Measure, c: Cell)
    requires m != Count && Hands(cfg, s.held, out) && Whole(cfg, s, m, c)
    ensures At(m, out, c) == At(m, EmitAll(s.held), c)
  {
    hide EmitAll, At;
    var all := EmitAll(s.held);
    if all != [] && cfg.compresses && m == Peak && At(Total, all, c) == 0 {
      NoneNothing(all, c);
      NoneNothing(out, c);
    }
  }

  lemma FlushKeeps(cfg: Config, s: Service, out: seq<SBatch>, cells: set<Cell>, m: Measure, c: Cell)
    requires Inv(cfg, s, cells, m, c) && Hands(cfg, s.held, out) && Whole(cfg, s, m, c)
    ensures var s' := Flush(cfg, s, out);
      && Fifo(cfg, s') && Ready(s', cells) && (cfg.hasSink ==> Accounted(s', m, c)) && Received(s') == Received(s)
      && EmitAll(s'.held) == []
  {
    hide Sound, Separated, EmitAll, Within, Flushed, At, Hands;
    FlushSound(s.held, cells);
    HandsAll(cfg, s, out, m, c);
    Concat(m, s.sink, out, c);
    Absent(m, [], c);
  }

  // The mode plays no part in the books.
  lemma ModeChanges(cfg: Config, s: Service, mode: Mode, cells: set<Cell>, m: Measure, c: Cell)
    requires Fifo(cfg, s) && Ready(s, cells) && (cfg.hasSink ==> Accounted(s, m, c)) && Marked(s.(mode := mode))
    requires m != Count && !s.mode.Wedged? && !mode.Wedged?
    ensures Inv(cfg, s.(mode := mode), cells, m, c)
  {
    hide At, EmitAll, Sound, Separated, Within;
    assert InHand(s.(mode := mode)) == InHand(s);
  }

  lemma TakeMarks(cfg: Config, s: Service)
    requires AllShaped(s.held) && |s.queue| > 0 && Marked(s) && (s.mode.Serving? || s.mode.Draining?)
    ensures Marked(Take(s))
  {
    hide Accepts, TakeOne;
  }

  lemma StepKeeps(cfg: Config, s: Service, a: Action, cells: set<Cell>, m: Measure, c: Cell)
    requires Inv(cfg, s, cells, m, c) && AllShaped(s.held)
    requires Within(AsBatches(Step(cfg, s, a).accepted), cells) && (MayFlush(s, a) ==> Whole(cfg, s, m, c))
    ensures Inv(cfg, Step(cfg, s, a), cells, m, c)
  {
    hide Sound, Separated, EmitAll, Within, Take, Flush, Accept, At, Hands, Accounted, Fifo, Ready, Whole;
    match a {
      case Offer(env) =>
        AcceptKeeps(cfg, s, env, cells, m, c);
      case Receive =>
        if s.mode.Serving? && |s.queue| > 0 {
          TakeKeeps(cfg, s, cells, m, c);
          TakeMarks(cfg, s);
        }
      case Tick(out) =>
        if s.mode.Serving? && Hands(cfg, s.held, out) {
          FlushKeeps(cfg, s, out, cells, m, c);
        }
      case TakeFlush =>
        if s.mode.Serving? {
          ModeChanges(cfg, s, Draining(false, |s.accepted|), cells, m, c);
        }
      case TakeStop =>
        if s.mode.Serving? {
          ModeChanges(cfg, s, Draining(true, |s.accepted|), cells, m, c);
        }
      case DrainNext =>
        if s.mode.Draining? && |s.queue| > 0 {
          TakeKeeps(cfg, s, cells, m, c);
          TakeMarks(cfg, s);
        } else if s.mode.Draining? {
          ModeChanges(cfg, s, Emitting(s.mode.stop, s.mode.mark), cells, m, c);
        }
      case Emit(out) =>
        if s.mode.Emitting? && Hands(cfg, s.held, out) {
          FlushKeeps(cfg, s, out, cells, m, c);
          ModeChanges(cfg, Flush(cfg, s, out), if s.mode.stop then Stopped(Received(s)) else Serving, cells, m, c);
        }
    }
  }

  lemma StepGrows(cfg: Config, s: Service, a: Action)
    requires AllShaped(s.held)
    ensures s.accepted <= Step(cfg, s, a).accepted
  {
    hide Hands, EmitAll, Take, AllShaped;
  }

  lemma {:induction false} AcceptedGrows(cfg: Config, s: Service, acts: seq<Action>)
    requires AllShaped(s.held)
    ensures s.accepted <= Exec(cfg, s, acts).accepted
  {
    if |acts| > 0 {
      AcceptedGrows(cfg, s, acts[..|acts| - 1]);
      StepGrows(cfg, Exec(cfg, s, acts[..|acts| - 1]), acts[|acts| - 1]);
    }
  }

  lemma PrefixWithin(a: seq<Envelope>, b: seq<Envelope>, cells: set<Cell>)
    requires a <= b && Within(AsBatches(b), cells)
    ensures Within(AsBatches(a), cells)
  {
    forall x | x in AsBatches(a) ensures CellOf(x) in cells {
      var i :| 0 <= i < |a| && AsBatches(a)[i] == x;
      assert AsBatches(b)[i] == x;
    }
  }

  // No flush of the run loses anything of the cell by this measure.
  ghost predicate WholeRun(cfg: Config, s: Service, acts: seq<Action>, m: Measure, c: Cell)
    requires AllShaped(s.held)
  {
    forall i :: 0 <= i < |acts| && MayFlush(Exec(cfg, s, acts[..i]), acts[i]) ==>
      Whole(cfg, Exec(cfg, s, acts[..i]), m, c)
  }

  // Totals are never lost.
  lemma TotalWhole(cfg: Config, s: Service, acts: seq<Action>, c: Cell)
    requires AllShaped(s.held)
    ensures WholeRun(cfg, s, acts, Total, c)
  {
    hide Exec, AllShaped;
  }

  lemma WholePrefix(cfg: Config, s: Service, acts: seq<Action>, m: Measure, c: Cell)
    requires AllShaped(s.held) && |acts| > 0 && WholeRun(cfg, s, acts, m, c)
    ensures var (front, last) := (acts[..|acts| - 1], acts[|acts| - 1]);
      && WholeRun(cfg, s, front, m, c)
      && (MayFlush(Exec(cfg, s, front), last) ==> Whole(cfg, Exec(cfg, s, front), m, c))
  {
    hide Exec, Whole, MayFlush, AllShaped;
    var front := acts[..|acts| - 1];
    assert forall i :: 0 <= i < |front| ==> front[..i] == acts[..i] && front[i] == acts[i];
  }

  lemma {:induction false} RunKeeps(cfg: Config, s: Service, acts: seq<Action>, cells: set<Cell>, m: Measure, c: Cell)
    requires Inv(cfg, s, cells, m, c) && AllShaped(s.held) && WholeRun(cfg, s, acts, m, c)
    requires Within(AsBatches(Exec(cfg, s, acts).accepted), cells)
    ensures Inv(cfg, Exec(cfg, s, acts), cells, m, c)
  {
    hide Inv, Step, Within, AllShaped, Whole, WholeRun;
    if |acts| > 0 {
      WholePrefix(cfg, s, acts, m, c);
      var front := acts[..|acts| - 1];
      var mid := Exec(cfg, s, front);
      StepGrows(cfg, mid, acts[|acts| - 1]);
      PrefixWithin(mid.accepted, Exec(cfg, s, acts).accepted, cells);
      RunKeeps(cfg, s, front, cells, m, c);
      StepKeeps(cfg, mid, acts[|acts| - 1], cells, m, c);
    }
  }

  // Callers offer scalar envelopes of these cells only.
  predicate Offers(acts: seq<Action>, cells: set<Cell>) {
    forall i :: 0 <= i < |acts| && acts[i].Offer? && acts[i].env.channel == Scalar ==>
      CellOf(AsBatch(acts[i].env)) in cells
  }

  lemma OfferWithin(cfg: Config, s: Service, a: Action, cells: set<Cell>)
    requires AllShaped(s.held) && Within(AsBatches(s.accepted), cells)
    requires a.Offer? && a.env.channel == Scalar ==> CellOf(AsBatch(a.env)) in cells
    ensures Within(AsBatches(Step(cfg, s, a).accepted), cells)
  {
    hide Take, Flush, Hands, AllShaped;
    if a.Offer? {
      AsBatchesAppend(s.accepted, a.env);
    }
  }

  lemma {:induction false} OffersWithin(cfg: Config, s: Service, acts: seq<Action>, cells: set<Cell>)
    requires AllShaped(s.held) && Offers(acts, cells) && Within(AsBatches(s.accepted), cells)
    ensures Within(AsBatches(Exec(cfg, s, acts).accepted), cells)
  {
    hide Step, AllShaped, Within;
    if |acts| > 0 {
      OffersWithin(cfg, s, acts[..|acts| - 1], cells);
      OfferWithin(cfg, Exec(cfg, s, acts[..|acts| - 1]), acts[|acts| - 1], cells);
    }
  }

  lemma IdleInv(cfg: Config, p: nat, order: nat, cells: set<Cell>, m: Measure, c: Cell)
    requires p > 0 && m != Count && Separated(cells)
    ensures Inv(cfg, Idle(p, order), cells, m, c)
  {
    hide Pow2, Separated, Sound;
    FreshSound(p, order, cells);
    assert Idle(p, order).accepted == [];
  }

  // Everything the channel ever took, split where the worker has got to.
  lemma ChannelSplit(cfg: Config, s: Service, m: Measure, c: Cell)
    requires Fifo(cfg, s)
    ensures At(m, AsBatches(s.accepted), c)
      == Combine(m, At(m, AsBatches(s.accepted[..Received(s)]), c), At(m, AsBatches(s.queue), c))
  {
    hide At;
    assert AsBatches(s.accepted) == AsBatches(s.accepted[..Received(s)]) + AsBatches(s.queue);
    Concat(m, AsBatches(s.accepted[..Received(s)]), AsBatches(s.queue), c);
  }

  lemma ScheduleInv(cfg: Config, p: nat, order: nat, cells: set<Cell>, acts: seq<Action>, m: Measure, c: Cell)
    requires p > 0 && m != Count && Separated(cells) && Offers(acts, cells)
    requires WholeRun(cfg, Idle(p, order), acts, m, c)
    ensures Inv(cfg, Exec(cfg, Idle(p, order), acts), cells, m, c)
  {
    hide Exec, Inv, WholeRun;
    IdleInv(cfg, p, order, cells, m, c);
    OffersWithin(cfg, Idle(p, order), acts, cells);
    RunKeeps(cfg, Idle(p, order), acts, cells, m, c);
  }

  /** Delivery: under every schedule of callers, ticks, flush requests and a stop, what was accepted for a
      cell is what is in the channel, the worker's hands, the table and the sink; the channel never
      exceeds its capacity. The worker has something in its hands only if it is wedged. It is so of
      totals, and of greatest sequence numbers too unless a transformer drops the cell from a flush. */
  lemma Delivery(cfg: Config, p: nat, order: nat, cells: set<Cell>, acts: seq<Action>, m: Measure, c: Cell)
    requires p > 0 && m != Count && Separated(cells) && cfg.hasSink && Offers(acts, cells)
    requires WholeRun(cfg, Idle(p, order), acts, m, c)
    ensures var s := Exec(cfg, Idle(p, order), acts);
      && |s.queue| <= cfg.capacity
      && At(m, AsBatches(s.accepted), c)
         == Combine(m, Combine(m, At(m, AsBatches(s.queue), c), At(m, InHand(s), c)),
                       Combine(m, At(m, EmitAll(s.held), c), At(m, s.sink, c)))
  {
    hide At, EmitAll, Pow2, Separated, Sound, Within, Step, Exec, WholeRun;
    ScheduleInv(cfg, p, order, cells, acts, m, c);
    ChannelSplit(cfg, Exec(cfg, Idle(p, order), acts), m, c);
  }

  /** When a flush request or a stop completes, the table is empty and the sink accounts exactly for a
      prefix of what was accepted, which contains everything accepted before the request was taken up,
      whatever callers added meanwhile. */
  lemma RequestCovers(cfg: Config, p: nat, order: nat, cells: set<Cell>, acts: seq<Action>, out: seq<SBatch>,
                      m: Measure, c: Cell)
    requires p > 0 && m != Count && Separated(cells) && cfg.hasSink && Offers(acts, cells)
    requires WholeRun(cfg, Idle(p, order), acts, m, c) && Whole(cfg, Exec(cfg, Idle(p, order), acts), m, c)
    ensures var s := Exec(cfg, Idle(p, order), acts); var s' := Step(cfg, s, Emit(out));
      s.mode.Emitting? && Hands(cfg, s.held, out) ==>
      && s.mode.mark <= Received(s') <= |s'.accepted| && s'.accepted == s.accepted
      && EmitAll(s'.held) == []
      && At(m, s'.sink, c) == At(m, AsBatches(s'.accepted[..Received(s')]), c)
  {
    hide At, EmitAll, Pow2, Separated, Sound, Within, Exec, Hands, Flush, WholeRun, Whole;
    ScheduleInv(cfg, p, order, cells, acts, m, c);
    var s := Exec(cfg, Idle(p, order), acts);
    if s.mode.Emitting? && Hands(cfg, s.held, out) {
      FlushKeeps(cfg, s, out, cells, m, c);
      Absent(m, [], c);
    }
  }

  /** After a stop the table stays empty and the sink holds exactly the first so many envelopes, each
      once; whatever callers add later stays in the channel for ever, and if they add nothing the
      channel is empty. */
  lemma AfterStop(cfg: Config, p: nat, order: nat, cells: set<Cell>, acts: seq<Action>, m: Measure, c: Cell)
    requires p > 0 && m != Count && Separated(cells) && cfg.hasSink && Offers(acts, cells)
    requires WholeRun(cfg, Idle(p, order), acts, m, c)
    ensures var s := Exec(cfg, Idle(p, order), acts); s.mode.Stopped? ==>
      && s.mode.mark <= |s.accepted| && EmitAll(s.held) == []
      && s.queue == s.accepted[s.mode.mark..]
      && At(m, s.sink, c) == At(m, AsBatches(s.accepted[..s.mode.mark]), c)
  {
    hide At, EmitAll, Pow2, Separated, Sound, Within, Step, Exec, WholeRun;
    ScheduleInv(cfg, p, order, cells, acts, m, c);
    Absent(m, [], c);
  }

  /** What a stopped service leaves in the sink, read off the envelopes themselves: for each cell the sum of
      the deltas of those that were taken, and the greatest of their sequence numbers unless a transformer
      dropped the cell from a flush. */
  lemma StoppedSink(cfg: Config, p: nat, order: nat, cells: set<Cell>, acts: seq<Action>, c: Cell)
    requires p > 0 && Separated(cells) && cfg.hasSink && Offers(acts, cells)
    ensures var s := Exec(cfg, Idle(p, order), acts); s.mode.Stopped? ==>
      && s.mode.mark <= |s.accepted|
      && At(Total, s.sink, c) == Deltas(s.accepted[..s.mode.mark], c)
      && (!cfg.compresses || WholeRun(cfg, Idle(p, order), acts, Peak, c) ==>
            At(Peak, s.sink, c) == Latest(s.accepted[..s.mode.mark], c))
  {
    hide At, EmitAll, Pow2, Separated, Sound, Within, Exec;
    var s := Exec(cfg, Idle(p, order), acts);
    TotalWhole(cfg, Idle(p, order), acts, c);
    AfterStop(cfg, p, order, cells, acts, Total, c);
    if s.mode.Stopped? {
      EnvelopesRead(s.accepted[..s.mode.mark], c);
    }
    if !cfg.compresses || WholeRun(cfg, Idle(p, order), acts, Peak, c) {
      AfterStop(cfg, p, order, cells, acts, Peak, c);
    }
  }

  // The table is what filing the live batches into empty shards gives.
  ghost predicate Grown(p: nat, order: nat, s: Service, cells: set<Cell>)
    requires p > 0
  {
    && Files(FreshShards(p, order), s.live) && s.held == IngestedAll(FreshShards(p, order), s.live)
    && Within(s.live, cells)
  }

  lemma TakeGrows(p: nat, order: nat, s: Service, cells: set<Cell>)
    requires p > 0 && AllShaped(s.held) && |s.queue| > 0
    requires Grown(p, order, s, cells) && CellOf(AsBatch(s.queue[0])) in cells
    ensures Grown(p, order, Take(s), cells)
  {
    hide Files, IngestedAll, Accepts, Finds, Accumulation.Ingested, FreshShards, CellOf;
    if Accepts(s.held, AsBatch(s.queue[0])) {
      FilesMore(FreshShards(p, order), s.live, AsBatch(s.queue[0]));
    }
  }

  lemma FlushGrows(cfg: Config, p: nat, order: nat, s: Service, out: seq<SBatch>, cells: set<Cell>)
    requires p > 0 && Grown(p, order, s, cells) && Sound(s.held, cells)
    ensures Grown(p, order, Flush(cfg, s, out), cells)
  {
    hide Sound, Flushed, Pow2;
    forall j | 0 <= j < p ensures |s.held[j]| == Pow2(order) {
      SlotsKept(p, order, s.live, j);
    }
    FlushedIsFresh(p, order, cells, s.held);
  }

  // The action makes the worker take an envelope.
  predicate Takes(s: Service, a: Action) {
    |s.queue| > 0 && ((a.Receive? && s.mode.Serving?) || (a.DrainNext? && s.mode.Draining?))
  }

  lemma StepGrown(cfg: Config, p: nat, order: nat, s: Service, a: Action, cells: set<Cell>)
    requires p > 0 && AllShaped(s.held) && Grown(p, order, s, cells)
    requires Fifo(cfg, s) && Ready(s, cells)
    ensures Grown(p, order, Step(cfg, s, a), cells)
  {
    hide Sound, Separated, Within, Take, Flush, Hands, Files, IngestedAll, FreshShards;
    if Takes(s, a) {
      AcceptedWithin(s.accepted, Received(s), cells);
      TakeGrows(p, order, s, cells);
    } else {
      match a {
        case Tick(out) => FlushGrows(cfg, p, order, s, out, cells);
        case Emit(out) => FlushGrows(cfg, p, order, s, out, cells);
        case _ =>
      }
    }
  }

  lemma IdleGrown(p: nat, order: nat, cells: set<Cell>)
    requires p > 0
    ensures Grown(p, order, Idle(p, order), cells)
  {
    hide Accepts, FreshShards;
  }

  lemma {:induction false} RunGrown(cfg: Config, p: nat, order: nat, cells: set<Cell>, acts: seq<Action>)
    requires p > 0 && Separated(cells) && Offers(acts, cells)
    ensures var s := Exec(cfg, Idle(p, order), acts);
      Grown(p, order, s, cells) && Fifo(cfg, s) && Ready(s, cells)
  {
    hide Step, Within, AllShaped, Separated, Sound, Files, IngestedAll, FreshShards, At, EmitAll, WholeRun, Accounted;
    TotalWhole(cfg, Idle(p, order), acts, (0, 0));
    ScheduleInv(cfg, p, order, cells, acts, Total, (0, 0));
    if |acts| == 0 {
      IdleGrown(p, order, cells);
    } else {
      var front := acts[..|acts| - 1];
      RunGrown(cfg, p, order, cells, front);
      StepGrown(cfg, p, order, Exec(cfg, Idle(p, order), front), acts[|acts| - 1], cells);
    }
  }

  // What the table emits is what was filed since the last flush, one batch for each cell.
  lemma LiveEmits(p: nat, order: nat, s: Service, cells: set<Cell>, c: Cell)
    requires p > 0 && Separated(cells) && Grown(p, order, s, cells)
    ensures var all := EmitAll(s.held);
      && At(Total, all, c) == At(Total, s.live, c) && At(Peak, all, c) == At(Peak, s.live, c)
      && At(Count, all, c) == if c in CellsOf(s.live) then 1 else 0
  {
    hide Sound, EmitAll, Files, IngestedAll, At, Separated;
    FreshSound(p, order, cells);
    FlushAllCoalesces(FreshShards(p, order), cells, s.live, c);
    CountIsPresence(s.live, c);
  }

  // What a flush hands over at one cell.
  lemma HandsLive(cfg: Config, p: nat, order: nat, s: Service, cells: set<Cell>, out: seq<SBatch>, c: Cell)
    requires p > 0 && Separated(cells) && Grown(p, order, s, cells) && Hands(cfg, s.held, out)
    ensures var sent := c in CellsOf(s.live) && (!cfg.compresses || At(Total, s.live, c) != 0);
      && At(Count, out, c) == (if sent then 1 else 0)
      && At(Total, out, c) == (if sent then At(Total, s.live, c) else 0)
      && At(Peak, out, c) == (if sent then At(Peak, s.live, c) else 0)
  {
    hide Sound, EmitAll, Files, IngestedAll, At, Separated, CellsOf, Grown, FreshShards;
    LiveEmits(p, order, s, cells, c);
    NoneNothing(out, c);
    NoneNothing(EmitAll(s.held), c);
  }

  lemma NothingToHand(cfg: Config, p: nat, order: nat, s: Service, cells: set<Cell>, out: seq<SBatch>)
    requires p > 0 && Grown(p, order, s, cells) && Hands(cfg, s.held, out)
    ensures s.live == [] ==> out == []
  {
    hide EmitAll, FreshShards;
    FreshSound(p, order, cells);
  }

  /** What reaches the sink. Under every schedule a step leaves the sink alone, or it is a flush: then it
      adds, for each cell filed since the last flush, exactly one batch with the sum of its deltas and its
      greatest sequence number, except that a transformer drops the cells whose sum is 0; it adds nothing
      for other cells, and nothing is held any more. */
  lemma FlushSends(cfg: Config, p: nat, order: nat, cells: set<Cell>, acts: seq<Action>, a: Action, c: Cell)
    requires p > 0 && Separated(cells) && cfg.hasSink && Offers(acts, cells)
    ensures var s := Exec(cfg, Idle(p, order), acts);
      var s' := Step(cfg, s, a);
      && s.sink <= s'.sink
      && (s.live == [] || s'.live != [] ==> s'.sink == s.sink)
      && (s.live != [] && s'.live == [] ==>
            var (out, sum) := (s'.sink[|s.sink|..], At(Total, s.live, c));
            var sent := c in CellsOf(s.live) && (!cfg.compresses || sum != 0);
            && At(Count, out, c) == (if sent then 1 else 0)
            && At(Total, out, c) == (if sent then sum else 0)
            && At(Peak, out, c) == (if sent then At(Peak, s.live, c) else 0)
            && EmitAll(s'.held) == [])
  {
    hide Exec, Separated, Sound, Within, Files, IngestedAll, FreshShards, Accepts, At, Hands, Flushed, CellsOf,
      AllShaped, EmitAll;
    RunGrown(cfg, p, order, cells, acts);
    var s := Exec(cfg, Idle(p, order), acts);
    var s' := Step(cfg, s, a);
    if MayFlush(s, a) && Hands(cfg, s.held, a.out) {
      HandsLive(cfg, p, order, s, cells, a.out, c);
      assert s'.sink[|s.sink|..] == a.out;
      FlushSound(s.held, cells);
      NothingToHand(cfg, p, order, s, cells, a.out);
    }
  }

  /** When the worker gets lost: taking an envelope wedges it if and only if the distinct cells filed in
      that shard since the last flush, the new one included, outnumber the shard's slots. */
  lemma WedgesIff(cfg: Config, p: nat, order: nat, cells: set<Cell>, acts: seq<Action>, a: Action)
    requires p > 0 && Separated(cells) && Offers(acts, cells)
    requires Takes(Exec(cfg, Idle(p, order), acts), a)
    ensures var s := Exec(cfg, Idle(p, order), acts);
      Step(cfg, s, a).mode.Wedged? <==> Crowd(p, s.live, AsBatch(s.queue[0])) > Pow2(order)
  {
    hide Exec, Separated, Sound, Within, Files, IngestedAll, FreshShards, Accepts, Crowd, Pow2, CellOf, TakeOne, EmitAll;
    RunGrown(cfg, p, order, cells, acts);
    var s := Exec(cfg, Idle(p, order), acts);
    AcceptedWithin(s.accepted, Received(s), cells);
    AcceptsIffFits(p, order, cells, s.live, AsBatch(s.queue[0]));
  }

  /** It never happens when no shard is the one of more cells than it has slots. */
  lemma {:induction false} NeverWedges(cfg: Config, p: nat, order: nat, cells: set<Cell>, acts: seq<Action>)
    requires p > 0 && Separated(cells) && Offers(acts, cells)
    requires forall j :: 0 <= j < p ==> |RoutedCells(cells, p, j)| <= Pow2(order)
    ensures !Exec(cfg, Idle(p, order), acts).mode.Wedged?
  {
    hide Separated, Sound, Within, Files, IngestedAll, FreshShards, Crowd, Pow2, CellOf, RoutedCells, Take, EmitAll;
    if |acts| > 0 {
      var front, a := acts[..|acts| - 1], acts[|acts| - 1];
      var s := Exec(cfg, Idle(p, order), front);
      NeverWedges(cfg, p, order, cells, front);
      if Takes(s, a) {
        RunGrown(cfg, p, order, cells, front);
        AcceptedWithin(s.accepted, Received(s), cells);
        WedgesIff(cfg, p, order, cells, front, a);
        CrowdBound(p, cells, s.live, AsBatch(s.queue[0]));
      }
    }
  }
}
