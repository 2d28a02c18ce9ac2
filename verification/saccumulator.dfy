/** The sharded accumulator over its shards. */
module SAccumulators {
  import opened Bits
  import opened Packing
  import opened Envelopes
  import opened Tables
  import opened SShards
  import opened Accumulation
  import ShardRuns

  // Shards of 2^order slots each that share no memory.
  method MakeShards(count: nat, order: nat) returns (made: seq<SShard>, ghost repr: set<object>)
    ensures |made| == count && fresh(repr)
    ensures forall j :: 0 <= j < count ==>
      made[j].Repr <= repr && made[j].Valid() && made[j].View() == ShardRuns.Vacant(order)
    ensures forall j, k :: 0 <= j < k < count ==> made[j].Repr !! made[k].Repr
  {
    hide Pow2, PowerOfTwo, Occupied, SShard.View, SShard.Valid;
    made, repr := [], {};
    for i := 0 to count
      invariant |made| == i && fresh(repr)
      invariant forall j :: 0 <= j < i ==> made[j].Repr <= repr && made[j].Valid()
      invariant forall j :: 0 <= j < i ==> made[j].View() == ShardRuns.Vacant(order)
      invariant forall j, k :: 0 <= j < k < i ==> made[j].Repr !! made[k].Repr
    {
      var shard := new SShard(order);
      assert shard.View() == ShardRuns.Vacant(order);
      made := made + [shard];
      repr := repr + shard.Repr;
    }
  }

  class SAccumulator {
    const shards: seq<SShard>

    ghost const Repr: set<object>

    ghost predicate Valid()
      reads Repr
    {
      && |shards| > 0
      && (forall j :: 0 <= j < |shards| ==> shards[j].Repr <= Repr && shards[j].Valid())
      && (forall i, j :: 0 <= i < j < |shards| ==> shards[i].Repr !! shards[j].Repr)
    }

    ghost function Views(): (s: Shards)
      requires Valid()
      reads Repr
      ensures |s| == |shards| && AllShaped(s)
      ensures forall j :: 0 <= j < |s| ==> s[j] == shards[j].View()
    {
      seq(|shards|, j requires 0 <= j < |shards| && Valid() reads Repr => shards[j].View())
    }

    /** At least one shard, and 256 slots each unless another power of two is asked for. */
    constructor (p: int, orderPow2: int)
      ensures Valid() && fresh(Repr)
      ensures |shards| == if p <= 0 then 1 else p
      ensures forall j :: 0 <= j < |Views()| ==>
        Views()[j] == ShardRuns.Vacant(if orderPow2 <= 0 then 8 else orderPow2)
    {
      hide Pow2, PowerOfTwo, Occupied, SShard.View, SShard.Valid;
      var made, repr := MakeShards(if p <= 0 then 1 else p, if orderPow2 <= 0 then 8 else orderPow2);
      shards := made;
      Repr := repr;
    }

    /** Vector envelopes are ignored; a scalar one goes to the shard its id selects. */
    method Ingest(env: Envelope)
      requires Valid()
      requires env.channel == Scalar ==> Accepts(Views(), AsBatch(env))
      modifies Repr
      ensures Valid()
      ensures env.channel == Vector ==> Views() == old(Views())
      ensures env.channel == Scalar ==>
        && Finds(old(Views()), AsBatch(env))
        && Views() == Accumulation.Ingested(old(Views()), AsBatch(env))
    {
      hide Pack, Index, Stops, Occupied, PowerOfTwo, SShard.View, SShard.Valid;
      if env.channel != Scalar {
        return;
      }
      ghost var before := Views();
      var k := Pack(env.footprint.keyId, env.footprint.time.bucketId);
      var i := k % |shards|;
      assert i == Routed(before, AsBatch(env));
      shards[i].Ingest(env);
      assert forall j :: 0 <= j < |shards| && j != i ==> shards[j].View() == before[j];
      assert Views() == Accumulation.Ingested(before, AsBatch(env));
    }

    method FlushShard(i: nat, out: seq<SBatch>) returns (more: seq<SBatch>)
      requires Valid() && i < |shards|
      modifies Repr
      ensures Valid()
      ensures Views() == old(Views())[i := Kept(old(Views())[i], {}, true)]
      ensures more == out + Emit(old(Views())[i])
    {
      hide Occupied, PowerOfTwo, Kept, Taken, Emit, SShard.View, SShard.Valid;
      ghost var before := Views();
      FlushAllEmits(before[i]);
      more := shards[i].Flush(out);
      assert forall j :: 0 <= j < |shards| && j != i ==> shards[j].View() == before[j];
      assert Views() == before[i := Kept(before[i], {}, true)];
    }

    /** Drains every shard into one slice and leaves all of them empty. */
    method FlushAll() returns (out: seq<SBatch>)
      requires Valid()
      modifies Repr
      ensures Valid()
      ensures out == EmitAll(old(Views()))
      ensures Views() == Flushed(old(Views()))
    {
      hide Occupied, PowerOfTwo, Kept, Emit, Valid, Views;
      ghost var before := Views();
      out := [];
      for i := 0 to |shards|
        invariant Valid()
        invariant forall j :: 0 <= j < |shards| ==>
          Views()[j] == if j < i then Kept(before[j], {}, true) else before[j]
        invariant out == EmitAll(before[..i])
      {
        assert before[..i + 1][..i] == before[..i];
        out := FlushShard(i, out);
      }
      assert Views() == Flushed(before);
      assert before[..|shards|] == before;
    }
  }
}
