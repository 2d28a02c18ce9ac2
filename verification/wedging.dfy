/** Which workloads can lose the worker of the scalar lane in its table. */
module Wedging {
  import opened Bits
  import opened Packing
  import opened Envelopes
  import opened Accumulation
  import opened LiveCells
  import opened ServiceMachine
  import TwoLanes

  // A unit of work for a cell.
  function Unit(c: Cell): (e: Envelope)
    ensures e.channel == Scalar && CellOf(AsBatch(e)) == c
  {
    Envelope(Scalar, Footprint(c.0, TimeFootprint(c.1, false), Scalar), 1, 0, [])
  }

  lemma OfferThenReceive(cfg: Config, s: Service, env: Envelope)
    requires AllShaped(s.held) && s.mode.Serving? && s.queue == [] && cfg.capacity > 0 && env.channel == Scalar
    ensures var s1 := Step(cfg, s, Offer(env)); var s2 := Step(cfg, s1, Receive);
      && s1.live == s.live && s1.queue == [env] && Takes(s1, Receive)
      && (s2.mode.Wedged? || (s2.mode.Serving? && s2.queue == [] && s2.live == s.live + [AsBatch(env)]))
  {
    hide Accepts, Finds, Accumulation.Ingested;
  }

  lemma ExecMore(cfg: Config, s: Service, acts: seq<Action>, a: Action)
    requires AllShaped(s.held)
    ensures Exec(cfg, s, acts + [a]) == Step(cfg, Exec(cfg, s, acts), a)
  {
    assert (acts + [a])[..|acts|] == acts;
  }

  lemma RoutedHas(cells: set<Cell>, p: nat, j: nat, c: Cell)
    requires p > 0 && c in RoutedCells(cells, p, j)
    ensures c in cells
  {
  }

  lemma CrowdOf(bs: seq<SBatch>, b: SBatch, cells: set<Cell>, p: nat, j: nat, fed: set<Cell>)
    requires p > 0 && CellsOf(bs) == fed <= RoutedCells(cells, p, j) && CellOf(b) in RoutedCells(cells, p, j)
    ensures CellsOf(bs + [b]) == fed + {CellOf(b)}
    ensures Crowd(p, bs, b) == |fed + {CellOf(b)}|
  {
    hide Pack;
    assert CellsOf(bs + [b]) == CellsOf(bs) + {CellOf(b)};
    assert IdOf(b) == Pack(CellOf(b).0, CellOf(b).1);
    assert RoutedCells(fed + {CellOf(b)}, p, j) == fed + {CellOf(b)};
  }

  // One more cell of shard j, offered and received, wedges the worker or is filed with the others.
  lemma FeedOne(cfg: Config, p: nat, order: nat, cells: set<Cell>, j: nat, fed: set<Cell>, acts: seq<Action>, c: Cell)
    returns (more: seq<Action>)
    requires p > 0 && Separated(cells) && cfg.capacity > 0 && Offers(acts, cells)
    requires fed <= RoutedCells(cells, p, j) && c in RoutedCells(cells, p, j)
    requires var s := Exec(cfg, Idle(p, order), acts); s.mode.Serving? && s.queue == [] && CellsOf(s.live) == fed
    ensures Offers(more, cells)
    ensures var s := Exec(cfg, Idle(p, order), more);
      s.mode.Wedged? ||
      (s.mode.Serving? && s.queue == [] && CellsOf(s.live) == fed + {c} && |fed + {c}| <= Pow2(order))
  {
    hide Exec, Step, Crowd, CellsOf, RoutedCells, Separated, Pow2, Takes;
    var (s, env) := (Exec(cfg, Idle(p, order), acts), Unit(c));
    var offered := acts + [Offer(env)];
    more := offered + [Receive];
    ExecMore(cfg, Idle(p, order), acts, Offer(env));
    ExecMore(cfg, Idle(p, order), offered, Receive);
    OfferThenReceive(cfg, s, env);
    RoutedHas(cells, p, j, c);
    WedgesIff(cfg, p, order, cells, offered, Receive);
    CrowdOf(s.live, AsBatch(env), cells, p, j, fed);
  }

  lemma NothingFed(cfg: Config, p: nat, order: nat)
    requires p > 0
    ensures Exec(cfg, Idle(p, order), []) == Idle(p, order) && CellsOf(Idle(p, order).live) == {}
  {
  }

  lemma {:induction false} Feed(cfg: Config, p: nat, order: nat, cells: set<Cell>, j: nat, fed: set<Cell>)
    returns (acts: seq<Action>)
    requires p > 0 && Separated(cells) && cfg.capacity > 0 && fed <= RoutedCells(cells, p, j)
    ensures Offers(acts, cells)
    ensures var s := Exec(cfg, Idle(p, order), acts);
      s.mode.Wedged? || (s.mode.Serving? && s.queue == [] && CellsOf(s.live) == fed && |fed| <= Pow2(order))
    decreases |fed|
  {
    hide Exec, Step, RoutedCells, Separated, CellsOf;
    if fed == {} {
      acts := [];
      NothingFed(cfg, p, order);
    } else {
      var c :| c in fed;
      acts := Feed(cfg, p, order, cells, j, fed - {c});
      if !Exec(cfg, Idle(p, order), acts).mode.Wedged? {
        acts := FeedOne(cfg, p, order, cells, j, fed - {c}, acts, c);
        assert fed - {c} + {c} == fed;
      }
    }
  }

  /** Some schedule of these cells wedges the worker if and only if some shard is the one of more of them
      than it has slots. */
  lemma CanWedgeIff(cfg: Config, p: nat, order: nat, cells: set<Cell>)
    requires p > 0 && Separated(cells) && cfg.capacity > 0
    ensures (exists acts :: Offers(acts, cells) && Exec(cfg, Idle(p, order), acts).mode.Wedged?)
      <==> exists j :: 0 <= j < p && |RoutedCells(cells, p, j)| > Pow2(order)
  {
    hide Exec, RoutedCells, Separated, Pow2;
    if j :| 0 <= j < p && |RoutedCells(cells, p, j)| > Pow2(order) {
      var acts := Feed(cfg, p, order, cells, j, RoutedCells(cells, p, j));
      assert Exec(cfg, Idle(p, order), acts).mode.Wedged?;
    } else {
      forall acts | Offers(acts, cells) ensures !Exec(cfg, Idle(p, order), acts).mode.Wedged? {
        NeverWedges(cfg, p, order, cells, acts);
      }
    }
  }

  // The first n odd keys, in bucket 0.
  function OddCells(n: nat): set<Cell>
    requires 2 * n < WORD
  {
    set i | 0 <= i < n :: (2 * i + 1, 0)
  }

  lemma {:induction false} OddCellsSize(n: nat)
    requires 2 * n < WORD
    ensures |OddCells(n)| == n
  {
    if n > 0 {
      OddCellsSize(n - 1);
      assert OddCells(n) == OddCells(n - 1) + {(2 * n - 1, 0)};
    }
  }

  /** Such workloads exist for every table that the keys can outnumber, though their ids are separated: one
      shard and one odd key more than it has slots. */
  lemma OddKeysWedge(cfg: Config, order: nat)
    requires cfg.capacity > 0 && 2 * (Pow2(order) + 1) < WORD
    ensures var cells := OddCells(Pow2(order) + 1);
      && Separated(cells)
      && exists acts :: Offers(acts, cells) && Exec(cfg, Idle(1, order), acts).mode.Wedged?
  {
    hide Exec, Pow2, Separated;
    var cells := OddCells(Pow2(order) + 1);
    forall c | c in cells ensures MixedKey(c.0) != 2 * (0 % HALF_WORD) {
      MixedKeyParity(c.0);
    }
    TwoLanes.OneBucketSeparated(0, cells);
    OddCellsSize(Pow2(order) + 1);
    assert RoutedCells(cells, 1, 0) == cells;
    CanWedgeIff(cfg, 1, order, cells);
  }
}
