/** The vector lane: one queue for each key, in order. */
module VectorLane {
  import opened Packing
  import opened Envelopes

  // The digest is an uninterpreted function of the key and the sequence number.
  type Hash = (uint64, uint64) -> Digest

  function Link(hash: Hash, env: Envelope): Envelope {
    env.(hashPrev := hash(env.footprint.keyId, env.seqEnd))
  }

  type Lanes = map<uint64, seq<Envelope>>

  function QueueOf(lanes: Lanes, key: uint64): seq<Envelope> {
    if key in lanes then lanes[key] else []
  }

  datatype Op = Handle(env: Envelope) | DrainV(key: uint64)

  function After(hash: Hash, lanes: Lanes, op: Op): Lanes {
    match op
    case Handle(env) =>
      if env.channel != Vector then lanes
      else lanes[env.footprint.keyId := QueueOf(lanes, env.footprint.keyId) + [Link(hash, env)]]
    case DrainV(key) => lanes[key := []]
  }

  function Run(hash: Hash, ops: seq<Op>): Lanes {
    if |ops| == 0 then map[] else After(hash, Run(hash, ops[..|ops| - 1]), ops[|ops| - 1])
  }

  // Everything the drains of this key returned, one after the other.
  function Drained(hash: Hash, ops: seq<Op>, key: uint64): seq<Envelope> {
    if |ops| == 0 then []
    else
      var before := Drained(hash, ops[..|ops| - 1], key);
      if ops[|ops| - 1] == DrainV(key) then before + QueueOf(Run(hash, ops[..|ops| - 1]), key) else before
  }

  // The vector envelopes handled for this key, in order.
  function Handled(ops: seq<Op>, key: uint64): seq<Envelope> {
    if |ops| == 0 then []
    else
      var (before, op) := (Handled(ops[..|ops| - 1], key), ops[|ops| - 1]);
      if op.Handle? && op.env.channel == Vector && op.env.footprint.keyId == key then before + [op.env] else before
  }

  function Unlinked(env: Envelope): Envelope {
    env.(hashPrev := [])
  }

  /** Per-key order: the drains of a key, followed by what is still queued, are exactly the vector
      envelopes handled for it, in order, each with its own link and nothing else changed. */
  lemma {:induction false} PerKeyOrder(hash: Hash, ops: seq<Op>, key: uint64)
    ensures var seen := Drained(hash, ops, key) + QueueOf(Run(hash, ops), key);
      && |seen| == |Handled(ops, key)|
      && forall i :: 0 <= i < |seen| ==>
           && Unlinked(seen[i]) == Unlinked(Handled(ops, key)[i])
           && seen[i].hashPrev == hash(key, seen[i].seqEnd)
           && seen[i].footprint.keyId == key && seen[i].channel == Vector
  {
    if |ops| > 0 {
      var (front, op) := (ops[..|ops| - 1], ops[|ops| - 1]);
      PerKeyOrder(hash, front, key);
      var before := Drained(hash, front, key) + QueueOf(Run(hash, front), key);
      var seen := Drained(hash, ops, key) + QueueOf(Run(hash, ops), key);
      if op.Handle? && op.env.channel == Vector && op.env.footprint.keyId == key {
        assert seen == before + [Link(hash, op.env)];
      } else {
        assert seen == before;
      }
    }
  }
}

/** Actors and the router that finds the actor of a key. */
module VActors {
  import opened Packing
  import opened Envelopes
  import opened VectorLane

  class VActor {
    const keyID: uint64
    const hash: Hash
    var prev: Digest
    var queue: seq<Envelope>

    constructor (keyID: uint64, hash: Hash)
      ensures this.keyID == keyID && this.hash == hash && queue == []
    {
      this.keyID, this.hash := keyID, hash;
      prev, queue := [], [];
    }

    method Enqueue(env: Envelope)
      modifies this
      ensures env.channel != Vector ==> queue == old(queue) && prev == old(prev)
      ensures env.channel == Vector ==>
        prev == hash(keyID, env.seqEnd) && queue == old(queue) + [env.(hashPrev := prev)]
    {
      if env.channel != Vector {
        return;
      }
      prev := hash(keyID, env.seqEnd);
      queue := queue + [env.(hashPrev := prev)];
    }

    /** Everything queued, in order; the queue is left empty. */
    method Drain() returns (out: seq<Envelope>)
      modifies this`queue
      ensures out == old(queue) && queue == []
    {
      out := [];
      for i := 0 to |queue|
        invariant out == queue[..i]
      {
        out := out + [queue[i]];
      }
      queue := [];
    }
  }

  class VRouter {
    const hash: Hash
    var actors: map<uint64, VActor>

    // Each actor is that of its key, so no two keys share one.
    ghost predicate Valid()
      reads this
    {
      forall k :: k in actors ==> actors[k].keyID == k && actors[k].hash == hash
    }

    ghost function Actors(): set<object>
      reads this
    {
      set k | k in actors :: actors[k]
    }

    ghost function View(): Lanes
      reads this, Actors()
    {
      map k | k in actors :: actors[k].queue
    }

    constructor (hash: Hash)
      ensures Valid() && View() == map[] && Actors() == {} && this.hash == hash
    {
      this.hash := hash;
      actors := map[];
    }

    // Work on the actor of one key leaves the queues of the others as they were.
    twostate lemma OthersKept(keyID: uint64)
      requires old(Valid()) && unchanged(this) && keyID in actors
      requires forall k :: k in actors && k != keyID ==> unchanged(actors[k])
      ensures Valid() && Actors() == old(Actors())
      ensures View() == old(View())[keyID := actors[keyID].queue]
    {
    }

    /** The actor of the key, created on first use with an empty queue. */
    method Route(keyID: uint64) returns (act: VActor)
      requires Valid()
      modifies this
      ensures Valid() && keyID in actors && act == actors[keyID] && (act in old(Actors()) || fresh(act))
      ensures actors == old(actors)[keyID := act]
      ensures View() == old(View())[keyID := QueueOf(old(View()), keyID)]
      ensures Actors() == old(Actors()) + {act}
    {
      if keyID in actors {
        act := actors[keyID];
      } else {
        act := new VActor(keyID, hash);
        actors := actors[keyID := act];
      }
      assert actors[keyID] in Actors();
      assert forall k :: k in old(actors) ==> actors[k] == old(actors[k]) && actors[k] in Actors();
    }
  }
}
