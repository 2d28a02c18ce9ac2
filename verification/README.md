# VSA verification

A Dafny model of the vector-scalar accumulator (VSA) and the services built on it, with proofs of
what they promise. `dafny verify dfyconfig.toml` checks all of it.

A VSA splits a counter into a durable scalar S and a volatile, striped net V. What is available is
S - |V|; a commit moves part of V into S without changing what is available. Four systems are
modelled, each against a simple specification:

- **The counter and its gate.** `Vsa` is the sequential class with its arrays, group sums and scan
  loops; `CounterSpec` is the pair (S, V) it stands for, and `Limiter` / `AtomicLimiters` the plain
  limiter it replaces. `GateMachine` is the concurrent gate, one step per atomic load, add, lock and
  unlock, with a scan that is not atomic; `LockedGate`, `FastPath` and `GuardExact` prove what holds of
  every schedule, and `SoloCall` ties one uninterrupted call back to `CounterSpec`.
- **The two lanes.** `Probing`, `Tables`, `SShards`, `ShardRuns` are the open-addressed shard,
  `Accumulation` / `SAccumulators` the sharded accumulator, `LiveCells` when its probes end, `Compression`
  the in-place compressor, `ServiceMachine` / `SServices` the background service, `FlushCallers` those who
  wait for its flushes, `Wedging` the workloads that can lose it, `VectorLane` / `VActors` the vector lane,
  `PipelineMachine` / `Pipelines` the routing. `Reconstruction`, `TwoLanes` and `PipelineMachine` compare
  all of it with one ordered log.
- **The commit worker.** `WorkerSpec` is what a cycle, the final flush and the two looks of an eviction do
  to one key; `Hysteresis` proves what the watermarks buy over runs; `Stores` and `Workers` are the classes
  with their scans over the whole store, `WorkerBatches` what the scans do to all keys at once.
- **The idempotent Redis commit.** `Redis` has the key layout, the script as one atomic transition, and
  the batch loop that may fail at any entry.

Counters are mathematical integers. docs/invariants.md:37-38 makes staying within 64 bits the user's
obligation; ids, buckets, sequence numbers and the packed id are 64-bit words with wrap-around
written out.

## What the proofs show about the code

Where the code and its documentation disagree, the model follows the code.

- The guard of the lock-free path does not prevent oversubscription (docs/invariants.md, "Fast path").
  With T callers asking for at most M units, V stays within S + (T - 1) * M, that bound is reached, and
  V stays within S in every schedule if and only if there is a single caller or the guard is at least
  the scalar (`FastPath.OvershootBound`, `GuardExact.OvershootReached`, `GuardExact.GuardSafeIff`).
- The cached gate has no exact fallback and the grouped gate has one only when its estimate denies, so a
  slack of at least 0 does not make them safe (docs/invariants.md:85 and 89). Between two refreshes the
  cached gate stays within the scalar only if it admits nothing, or while no more than the slack has been
  admitted (`Shortcuts.CachedSafeIff`, `Shortcuts.CachedSafeWhile`). The grouped gate is safe if and only
  if the slack is at least the scalar, and then it is the exact gate (`Shortcuts.GroupedSafeIff`,
  `Shortcuts.SlackMakesExact`); with any smaller slack a new counter can be taken one unit below zero
  (`Vsa.GroupedOverAdmits`). With the same load on every stripe the estimate is exact
  (`Shortcuts.EvenLoadExact`).
- A packed id can be 0 and two cells can share an id; then a flush loses or misplaces data. Separated
  ids are necessary as well as sufficient (`TwoLanes.SeparationExact`). Every even key has such a
  bucket (`Packing.ZeroIdIff`).
- `countThreshold` does not make room: nothing flushes a table that fills up, and the probe of one cell
  too many never ends and wedges the service, with the envelope in its hands. That happens exactly when
  the distinct cells of one shard since the last flush outnumber its slots (`ServiceMachine.WedgesIff`), and
  a set of cells has a schedule in which it does exactly when it gives some shard more cells than slots
  (`Wedging.CanWedgeIff`).
- `Flush` returns exactly when its request is taken up before the worker stops and that drain does not
  wedge; a request still in its channel when the worker stops waits for ever (`FlushCallers.ReturnsIff`).
- Flushing one key in the middle of a probe chain can leave a cell in two slots: it is then emitted twice,
  and a later probe can run for ever although there is a slot for every cell (`ShardRuns.FlushKeyCanHang`).
  A run goes through exactly when each probe finds a free slot or its id (`ShardRuns.CompletesIff`), and
  keeps every entry where its probe ends exactly when no such flush clears a slot that the probe for an
  entry of another key passes (`ShardRuns.RunCanonicalIff`); then each cell is held once and fits.
- With hysteresis on, a failed batch disarms its keys like a persisted one. Unless max-age says so it is
  retried exactly when the vector has reached the threshold and some cycle has seen it at or below the low
  watermark since (`Hysteresis.RetriedIff`).
- The durable record is right throughout a run exactly when, in each commit, nobody shrank or turned the
  vector between its read and the commit, and nothing reached an instance after its last read before
  eviction (`WorkerSpec.RunRecordedIff`, `WorkerSpec.EvictionLoses`).
- Commit markers collide exactly when one key is the other plus a colon and the beginning of the
  other's id (`Redis.MarkersCollideIff`); ids without colons exclude that.

## Model

| member | source | states |
|---|---|---|
| Limiter.BudgetHolds | benchmarks/atomic_limiter.go:13-34 | over every log of answers the plain limiter could give, what is left is the budget less admissions plus refunds, and never negative |
| AtomicLimiters.AtomicLimiter.TryConsume | benchmarks/atomic_limiter.go:13-26 | whatever rivals do between a load and its swap, the compare-and-swap loop ends with the limiter's own answer at the load that decided, after the rivals of all earlier turns |
| AtomicLimiters.AtomicLimiter.Refund | benchmarks/atomic_limiter.go:28-32 | a positive refund is added, others are ignored |
| CounterSpec.CommitKeepsAvailable | vsa.go:283-318 | a commit of any argument leaves S - abs(V) as it was |
| CounterSpec.CommitMoves | vsa.go:294-316 | a commit takes the lesser of abs(argument) and abs(V) off the magnitude of V and off S, keeping the sign of V whatever the sign of the argument |
| CounterSpec.CommitExactIff | vsa.go:294-316 | a commit takes exactly its argument off V iff V has kept its sign and not shrunk since it was read |
| CounterSpec.StepRefines | vsa.go:283-418 | each operation answers as the limiter would and leaves both with the same amount |
| CounterSpec.RefinesLimiter | vsa.go:283-418 | for every sequence of consumes, refunds and commits the answers are those of the plain limiter, V is never negative, and availability is the limiter's |
| Bits.NextPow2 | vsa.go:472-486 | the shift-and-or cascade returns the least power of two at least x, for x up to 2^62 |
| Bits.LeastPower | vsa.go:472-486 | the power after the highest bit of x - 1 is the least power of two at least x |
| Bits.MaskBelow | vsa.go:381-381 | masking with a power of two less one is the remainder, so a masked index is in range |
| Groups.StrideLeast | vsa.go:171-174 | the stride is the least one for which that many groups cover all stripes |
| Groups.IndexInGroup | vsa.go:335-338 | the group of a stripe exists, and that stripe lies in it and in no other |
| Groups.UpdateTotals | vsa.go:210-214 | a change of one stripe changes the total of its own group by the same amount and no other total |
| Groups.HierarchyAgrees | vsa.go:421-434 | the group sums add up to the sum of the stripes, for every stride that covers them |
| Vsa.StripeCount | vsa.go:142-150 | 8, 16, 32 or 64 stripes: at least the number asked for, or of processors, unless that exceeds 64, and less than twice it, unless that is below 8 |
| Vsa.VSA.constructor | vsa.go:142-198 | all stripes are 0 and V = 0; the stripes are as many as above, groups are off unless more than one is asked for and never more than the stripes, and stride, slack and guard are what the options ask for |
| Vsa.VSA.Update | vsa.go:208-217 | V grows by the value, which lands on the stripe the chooser says modulo the number of stripes, with stripes, group sums and approximate net still in agreement |
| Vsa.VSA.CurrentVector | vsa.go:421-434 | flat scan, hierarchical scan and approximate net all give V |
| Vsa.VSA.Available | vsa.go:221-225 | S - abs(V) |
| Vsa.VSA.CheckCommit | vsa.go:272-278 | a commit is due exactly when abs(V) has reached the threshold, and then V is returned |
| Vsa.VSA.Commit | vsa.go:283-318 | moves the clamped amount from V to S, from the net read again, whatever the argument |
| Vsa.VSA.TryConsume | vsa.go:323-391 | n > 0 is taken iff the guard is on and n plus the guard is available, or the configured gate admits: the cached net less the slack, the group estimate or exact net, or the exact net; with the exact gate iff n is available; and which stripe and cursor move |
| Vsa.VSA.FastPath | vsa.go:327-342 | the lock-free path admits iff the guard is on and n plus the guard is available, on the stripe of the next chooser value modulo the number of stripes |
| Vsa.VSA.SlowPath | vsa.go:343-389 | the path under the mutex admits as the configured gate does and reserves on the stripe whose turn it is |
| Vsa.VSA.GroupedGate | vsa.go:352-373 | admits iff the estimate of the group whose turn it is less the slack, or the exact check, allows it, and passes the turn on |
| Vsa.VSA.TryRefund | vsa.go:396-418 | gives back the smaller of n and a positive V, and says whether anything was given back |
| Vsa.VSA.RefreshCache | vsa.go:443-456 | the cached net becomes V |
| Shortcuts.GuessSoundIff | vsa.go:347-373 | for one decision: admitting on a guess never exceeds what is available iff it admits nothing or the slack covers the shortfall of the guess |
| Shortcuts.CachedSafeIff | vsa.go:347-351 | between two refreshes of the cached net, every sequence of consumes stays within the scalar iff the gate admits nothing |
| Shortcuts.CachedSafeWhile | vsa.go:347-351 | a call stays within the scalar while no more than the slack was admitted between the refresh and the call |
| Shortcuts.EstimateAdmits | vsa.go:352-373 | the grouped gate admits n > 0 iff it is at most S less the slack less abs(q - offset), or exactly available; q is the sum of the stripes from turn times stride modulo s, at most a stride and not past the end, times s over their number, with the fraction dropped |
| Shortcuts.EvenLoadExact | vsa.go:352-373 | with the same load on every stripe and a slack of at least 0 the grouped gate admits exactly what is available, whatever the turn |
| Shortcuts.SlackMakesExact | vsa.go:352-373 | with a slack of at least the scalar the grouped gate decides and changes the counter as the exact one, in every state |
| Shortcuts.GroupedSafeIff | vsa.go:352-373 | every sequence of consumes from a fresh counter stays within the scalar iff the slack is at least the scalar, for every number of groups above one |
| Shortcuts.GroupedExactIff | vsa.go:352-373 | in every state of a counter of that scalar the grouped gate admits only what is available iff the slack is at least the scalar |
| Vsa.GroupedOverAdmits | vsa.go:323-391 | for every slack below the scalar, a new counter of the class that is asked for all of its scalar and one unit more admits both and ends at -1 |
| GateMachine.MutexStep | vsa.go:293-345 | the mutex has at most one holder after every step |
| SoloCall.RefinesCounter | vsa.go:283-418 | a call alone, whatever the guard and by either path, ends at rest with the counter's value and answer |
| LockedGate.Linearizable | vsa.go:283-418 | under every schedule of consumers, refunders and committers with stale arguments the answers are the limiter's in decision order, V is never negative, and with the mutex free S - V is the budget less net admissions |
| LockedGate.NeverOversubscribed | vsa.go:343-391 | no schedule admits more than the initial scalar net of refunds, and S - V is never negative with the mutex free |
| FastPath.OvershootBound | vsa.go:327-391 | with T callers of at most M units and the guard on, no schedule drives V below 0 or S - V below -(T - 1) * M |
| GuardExact.OvershootReached | vsa.go:327-342 | that bound is reached by some schedule whenever one request can pass the guard |
| GuardExact.GuardSafeIff | vsa.go:327-342 | every schedule keeps V within S iff there is one caller or the guard is at least the scalar |
| Packing.PackBits | plugin/tfd/saccumulator.go:25-27 | bit for bit, the id is twice the bucket exclusive or the key times 0x9e3779b97f4a7c15, both in 64 bits |
| Packing.KeysSeparate | plugin/tfd/saccumulator.go:25-27 | two keys have the same packed id in a bucket iff they are the same key |
| Packing.BucketsSeparate | plugin/tfd/saccumulator.go:25-27 | two buckets of a key share a packed id iff they agree in their low 63 bits |
| Packing.ZeroIdIff | plugin/tfd/saccumulator.go:25-27 | some bucket of a key packs to 0, the mark of a free slot, iff the key is even |
| Probing.StopsIff | plugin/tfd/saccumulator.go:60-70 | a probe ends iff some slot is free or holds the id, and then at such a slot |
| Probing.PathKept | plugin/tfd/saccumulator.go:60-81 | filing an id where its probe ends moves nobody else's probe |
| Probing.Fits | plugin/tfd/saccumulator.go:60-70 | without duplicates, probes end while no more ids are in use than there are slots |
| Tables.ProbeIs | plugin/tfd/saccumulator.go:60-70 | a probe ends at the first slot that is free or holds the id, from the id modulo the number of slots upwards and around the end |
| Tables.StopsIffRoom | plugin/tfd/saccumulator.go:60-70 | a probe ends iff the table is not full or already has the id |
| Tables.IngestConserves | plugin/tfd/saccumulator.go:73-85 | filing a batch adds its delta, raises the greatest sequence number and adds at most one entry at its own cell, and nothing elsewhere |
| Tables.ZeroIdIsLost | plugin/tfd/saccumulator.go:73-85 | a batch whose id is 0 is never emitted |
| Tables.FlushConserves | plugin/tfd/saccumulator.go:100-149 | a flush of one key or of all splits what was held into what is emitted and what stays |
| Tables.FlushKeyTakes | plugin/tfd/saccumulator.go:126-149 | a flush of one key emits all that is held for its cells and nothing for others, and leaves the rest |
| Tables.IngestCanonical | plugin/tfd/saccumulator.go:60-85 | filing keeps every entry where a probe for its id ends |
| Tables.EmitsOnce | plugin/tfd/saccumulator.go:100-123 | a table without duplicates emits one batch for each cell it holds and none for others |
| Tables.CellsFit | plugin/tfd/saccumulator.go:60-81 | with a slot for every cell in use and every entry where its probe ends, every probe ends |
| Tables.KeptCanonicalIff | plugin/tfd/saccumulator.go:126-149 | a flush of some keys leaves every entry that stays where its probe ends iff no such probe passes a cleared slot |
| SShards.SShard.Probe | plugin/tfd/saccumulator.go:60-70 | the loop ends, at the first slot from home that is free or holds the id |
| SShards.SShard.Ingest | plugin/tfd/saccumulator.go:73-85 | the arrays afterwards hold the envelope merged at that slot and are otherwise unchanged; used stays the number of entries unless the id is 0 |
| SShards.SShard.Flush | plugin/tfd/saccumulator.go:100-123 | emits every entry in slot order and leaves the table empty |
| SShards.SShard.FlushKey | plugin/tfd/saccumulator.go:126-149 | emits the entries of one key in slot order, clears those alone, and keeps used the number of entries |
| ShardRuns.RunConserves | plugin/tfd/saccumulator.go:60-149 | over every run whose probes end, each cell's filed total and greatest sequence number are those of emitted plus held entries |
| ShardRuns.CompletesIff | plugin/tfd/saccumulator.go:60-149 | a run goes through iff each filing finds a free slot or its id; it always does with no more filings than free slots |
| ShardRuns.RunCanonicalIff | plugin/tfd/saccumulator.go:60-149 | over a run whose probes end, every entry is at all times where its probe ends iff no flush of a key clears a slot that the probe for an entry of another key passes |
| ShardRuns.FlushKeyCanHang | plugin/tfd/saccumulator.go:126-149 | a run of four steps over two cells with odd keys in two slots ends with one cell held and emitted twice and a probe for the other that never ends |
| Accumulation.FlushAllCoalesces | plugin/tfd/saccumulator_wrap.go:43-65 | after any filings whose probes end, the flush of all shards has exactly one batch for each cell filed, with its sum and greatest sequence number |
| Accumulation.AcceptsIffRoom | plugin/tfd/saccumulator_wrap.go:43-56 | the probe for a batch ends iff its shard has a free slot or an entry of that id |
| LiveCells.SameShardIff | plugin/tfd/saccumulator_wrap.go:43-47 | two batches go to the same shard iff their ids agree modulo the number of shards |
| LiveCells.SpreadFiles | plugin/tfd/saccumulator_wrap.go:43-56 | batches whose ids are pairwise different modulo p can always be filed in p shards of one slot each |
| LiveCells.AcceptsIffFits | plugin/tfd/saccumulator_wrap.go:43-65 | after any filings since the shards were empty, the next probe ends iff the distinct cells of its shard, its own included, are no more than its slots |
| LiveCells.FilesIff | plugin/tfd/saccumulator_wrap.go:43-65 | a sequence can be filed iff that holds at each batch; it always can when no shard is the one of more cells than it has slots |
| Accumulation.EmitAllConcat | plugin/tfd/saccumulator_wrap.go:59-65 | the flush of shards side by side is the flush of the first followed by that of the rest |
| Accumulation.FlushSound | plugin/tfd/saccumulator_wrap.go:59-65 | afterwards every shard is empty and in order |
| Accumulation.IngestAdds | plugin/tfd/saccumulator_wrap.go:43-56 | filing in one shard, if the probe ends, adds the batch to what all shards hold together |
| SAccumulators.SAccumulator.constructor | plugin/tfd/saccumulator_wrap.go:29-41 | at least one shard, each an empty table of the size asked for or 256 |
| SAccumulators.SAccumulator.Ingest | plugin/tfd/saccumulator_wrap.go:50-56 | a scalar envelope is filed in the shard its id selects, a vector one ignored |
| SAccumulators.SAccumulator.FlushAll | plugin/tfd/saccumulator_wrap.go:59-65 | returns every shard's entries in order and empties all of them |
| Compression.Compress | plugin/tfd/vsa_integration.go:36-107 | in place, leaves one entry per cell with a nonzero total, with that total and the greatest sequence number, no others, and no more entries than before |
| Compression.CompressionUnique | plugin/tfd/vsa_integration.go:36-107 | any two such results are the same multiset, so both algorithms agree |
| Compression.ProbeEnds | plugin/tfd/vsa_integration.go:57-71 | while the table has more slots than cells, every probe ends, at the cell or a free slot |
| Compression.StoreKept | plugin/tfd/vsa_integration.go:55-72 | writing the merged entry there makes the table store the updated map |
| Envelopes.DisjointIff | plugin/tfd/types.go:48-59 | two footprints are disjoint iff both are scalar and no cell is covered by both |
| Envelopes.EnvelopesRead | plugin/tfd/reconstruct.go:28-37 | envelopes taken as batches have, at every cell, the sum of their deltas and their greatest sequence number |
| Envelopes.Reorder | plugin/tfd/reconstruct.go:39-43 | the order of batches does not change totals, greatest sequence numbers or counts |
| Envelopes.LanesAddUp | plugin/tfd/reconstruct.go:56-67 | a mixed log weighs what its two lanes weigh together |
| Reconstruction.AppliedReads | plugin/tfd/reconstruct.go:28-37 | applying batches adds their total at each cell, absent reading as 0, and creates exactly the cells touched |
| Reconstruction.State.Reconstruct | plugin/tfd/reconstruct.go:40-54 | applies the batches, sorts the vector envelopes in place so that keys and, within a key, sequence numbers do not fall, and applies them in that order |
| Reconstruction.State.BaselineApply | plugin/tfd/reconstruct.go:58-67 | applies a mixed log in arrival order |
| TwoLanes.NothingLost | plugin/tfd/sservice.go:122-181 | in every run whose probes end, with flushes anywhere, compressed or not, what was filed for a cell is what was sent plus what is held |
| TwoLanes.Equivalence | plugin/tfd/reconstruct.go:40-67 | for every log, shard count and size, every run whose probes end, every compression of flushes and order of delivery, the rebuilt state reads the same at every cell as the naive execution |
| TwoLanes.CompletesIff | plugin/tfd/saccumulator_wrap.go:43-65 | the probes of a run end iff at each filing the distinct cells of its shard since the last flush are no more than its slots |
| TwoLanes.FlushEach | plugin/tfd/saccumulator_wrap.go:50-65 | every log has such a run, however small the shards: flush after each envelope |
| TwoLanes.SeparationExact | plugin/tfd/saccumulator.go:25-31 | every sequence of batches that can be filed comes out right iff packed ids are nonzero and distinct, for every number and size of shards |
| TwoLanes.OneKeySeparated | plugin/tfd/saccumulator.go:25-27 | the cells of one key satisfy that iff their buckets differ in the low 63 bits and none doubles to the mixed key, which never happens for an odd key |
| TwoLanes.OneBucketSeparated | plugin/tfd/saccumulator.go:25-27 | one bucket satisfies it iff no key in use mixes to twice the bucket |
| ServiceMachine.Delivery | plugin/tfd/sservice.go:102-181 | under every schedule, what was accepted for a cell, in total and in greatest sequence number unless a transformer drops the cell, is in the channel, the hands of a wedged worker, the table and the sink; the channel never exceeds its capacity |
| ServiceMachine.FlushSends | plugin/tfd/sservice.go:126-137 | under every schedule a flush adds to the sink, for each cell filed since the last one, exactly one batch with its sum and greatest sequence number, except the cells whose sum is 0 if there is a transformer, and nothing for other cells; no other step touches the sink |
| ServiceMachine.StoppedSink | plugin/tfd/sservice.go:166-178 | after a stop the sink has, for each cell, the sum of the deltas of the envelopes taken and, if no transformer dropped the cell, the greatest of their sequence numbers |
| ServiceMachine.WedgesIff | plugin/tfd/sservice.go:138-181 | taking an envelope wedges the worker in an endless probe iff the distinct cells of the shard since the last flush outnumber its slots |
| ServiceMachine.NeverWedges | plugin/tfd/sservice.go:138-181 | no schedule wedges it when no shard is the one of more cells than it has slots |
| Wedging.CanWedgeIff | plugin/tfd/sservice.go:138-181 | some schedule of these cells wedges the worker iff some shard is the one of more of them than it has slots |
| Wedging.OddKeysWedge | plugin/tfd/sservice.go:138-181 | such cells exist though their ids are separated: one shard and one odd key more than it has slots |
| ServiceMachine.RequestCovers | plugin/tfd/sservice.go:93-98 | when a flush or stop completes the table is empty and the sink accounts exactly, in total and in greatest sequence number, for a prefix of what was accepted that contains everything accepted before the request was taken up |
| ServiceMachine.AfterStop | plugin/tfd/sservice.go:166-178 | after a stop the sink holds exactly a prefix, each envelope once, and what was put in the channel later stays there |
| FlushCallers.ReturnsIff | plugin/tfd/sservice.go:90-98 | once the worker has stopped or is wedged, whatever happens next, a caller of Flush has returned iff its request was taken up before and that drain was not the one that wedged; after a stop, iff it was taken up |
| FlushCallers.ServedIff | plugin/tfd/sservice.go:149-165 | a request being drained for is answered by the end of its flush iff what is queued can be filed; otherwise its caller never returns |
| FlushCallers.AnsweredBy | plugin/tfd/sservice.go:149-165 | any run of the service that takes up a waiting request and comes back to its loop, as ServeFlush does, lets that caller return |
| SServices.SService.constructor | plugin/tfd/sservice.go:58-75 | a buffer of 4096 unless a positive one is asked for; nothing queued, held or sent |
| SServices.SService.TryIngest | plugin/tfd/sservice.go:110-120 | an offer step of the machine; refused exactly when a scalar envelope meets a full buffer |
| SServices.SService.Ingest | plugin/tfd/sservice.go:102-107 | a scalar envelope is accepted at once, or after the worker has received, or the call is still waiting and nothing has changed; a vector one changes nothing |
| SServices.SService.FlushNow | plugin/tfd/sservice.go:126-137 | the held batches, compressed if configured, reach the sink and the table is empty |
| SServices.SService.ServeFlush | plugin/tfd/sservice.go:149-165 | a run of machine steps that takes a flush request up, drains and flushes, and ends with channel and table empty and the worker serving |
| SServices.SService.ServeStop | plugin/tfd/sservice.go:166-178 | the same for a stop, which ends with the worker stopped |
| SServices.SService.Run | plugin/tfd/sservice.go:122-181 | whatever the events, if their probes end, the worker ends with nothing queued or held and, if ids are separated, the sink has at every cell what was accepted, without a transformer in greatest sequence number too |
| SServices.GoesWhenFit | plugin/tfd/sservice.go:122-181 | every script's probes end when no shard is the one of more cells than it has slots |
| VectorLane.PerKeyOrder | plugin/tfd/pipeline.go:84-100 | the drains of a key followed by its queue are the vector envelopes handled for it, in order, with only the link rewritten |
| VActors.VActor.Enqueue | plugin/tfd/vactors.go:35-43 | a vector envelope is queued last with its link; others are ignored |
| VActors.VActor.Drain | plugin/tfd/vactors.go:46-53 | returns the queue in order and empties it |
| VActors.VRouter.Route | plugin/tfd/vactors.go:64-71 | one actor for each key, created empty on first use, no queue disturbed |
| PipelineMachine.EndToEnd | plugin/tfd/pipeline.go:84-100 | under every schedule, once the service has stopped and every key is drained, the state rebuilt from sink and drains reads at every cell as after the naive execution of all that was handled |
| Pipelines.Pipeline.Handle | plugin/tfd/pipeline.go:84-96 | a step of that machine, after a receive if the buffer is full; vector envelopes are reported as they came |
| Pipelines.Pipeline.DrainV | plugin/tfd/pipeline.go:98-100 | a step of that machine: returns and empties the queue of one key |
| WorkerSpec.SettledExactIff | internal/ratelimiter/core/worker.go:178-181 | a commit after a change takes exactly the vector that was read iff the change only pushed it further |
| WorkerSpec.DurablyConserved | internal/ratelimiter/core/worker.go:115-272 | over every calm run with any persister failures, deltas are rows plus vector, a live scalar has paid for the rows of its life, and rows and vector never outweigh the deltas |
| WorkerSpec.StepRecordedIff | internal/ratelimiter/core/worker.go:115-272 | a cycle, the final flush, a listing, an eviction turn, an access or a change keeps the record iff it is calm |
| WorkerSpec.RunRecordedIff | internal/ratelimiter/core/worker.go:115-272 | the record holds at every moment of a run iff every event is calm when it happens |
| WorkerSpec.CycleConservesIff | internal/ratelimiter/core/worker.go:121-181 | a persisted cycle keeps the record iff nobody shrank or turned the vector meanwhile |
| WorkerSpec.EvictionLoses | internal/ratelimiter/core/worker.go:252-270 | an eviction loses exactly what arrives after the vector was read |
| WorkerSpec.TurnDropsIff | internal/ratelimiter/core/worker.go:235-272 | whatever happens to a key between its listing and its turn, the turn drops it iff it was old when listed, is old by its last access since, and has nothing unsaved, and writes its vector, if any, as a row; otherwise it stays as it is, with its vector |
| WorkerSpec.WriteBound | internal/ratelimiter/core/worker.go:121-181 | with max-age off, rows of commit cycles times the threshold never exceed the sum of abs(delta) |
| Hysteresis.CommitsIff | internal/ratelimiter/core/worker.go:121-181 | after any run that leaves the key in the store, a cycle batches it iff abs(V) has reached the threshold and hysteresis is off or it is armed, or max-age is on, V is not 0 and the last access is at least that long ago; persisted, it is one row, V, and undisturbed leaves no vector |
| Hysteresis.OldRemainderSettles | internal/ratelimiter/core/worker.go:130-148 | with max-age on, a persisted undisturbed cycle leaves no vector on a key last accessed at least that long ago |
| Hysteresis.FirstBatchIff | internal/ratelimiter/core/worker.go:134-148 | a new key is first batched iff abs(V) has reached the threshold, low watermark or not, or max-age has passed since its last access with V not 0 |
| Hysteresis.HysteresisHolds | internal/ratelimiter/core/worker.go:134-155 | between two cycles that batch the same live key some cycle saw its vector at or below the low watermark |
| Hysteresis.RearmedIff | internal/ratelimiter/core/worker.go:134-145 | a disarmed key that is neither batched nor evicted is armed at the end of a run iff some cycle saw its vector at or below the low watermark |
| Hysteresis.RetriedIff | internal/ratelimiter/core/worker.go:134-170 | after a batch, persisted or failed, and a run without another, a cycle batches the key iff abs(V) has reached the threshold and some cycle in between saw it low, or max-age has passed since its last access with V not 0 |
| Hysteresis.FailedNotRetried | internal/ratelimiter/core/worker.go:153-170 | a failed batch is not tried again while the key stays high |
| Hysteresis.BelowThresholdIff | internal/ratelimiter/core/worker.go:121-181 | a persisted cycle leaves abs(V) below the threshold iff it was below, or hysteresis was off, or the key was armed, or max-age had passed since its last access |
| Hysteresis.FinalFlushSettles | internal/ratelimiter/core/worker.go:190-216 | the final flush writes one row, V, iff V is not 0 and it is persisted, and then leaves no vector |
| Stores.Store.GetOrCreate | internal/ratelimiter/core/store.go:79-102 | returns the key's instance with its access time set; a new one has the full scalar and is armed; no other key changes |
| Stores.Store.Delete | internal/ratelimiter/core/store.go:113-119 | drops that key alone |
| Workers.Worker.RunCommitCycle | internal/ratelimiter/core/worker.go:115-182 | every key does its own cycle step and the persister gets one row for each key selected, or none if it fails |
| Workers.Worker.RunFinalFlush | internal/ratelimiter/core/worker.go:185-217 | every nonzero vector is persisted and taken off, or none is if the persister fails |
| Workers.Worker.RunEvictionCycle | internal/ratelimiter/core/worker.go:235-272 | with accesses to the listed keys before their turns, exactly the keys old at both looks whose remainder was saved are dropped, and the remainder is a row; a key touched in between keeps all it was given; all else is unchanged |
| Workers.CycleIsStep | internal/ratelimiter/core/worker.go:115-182 | a commit cycle is, for every key, the step whose runs are proved about |
| Workers.TouchIsStep | internal/ratelimiter/core/store.go:79-102 | so is an access, which creates a missing key |
| Workers.FinalFlushIsStep | internal/ratelimiter/core/worker.go:185-217 | so is the final flush |
| Workers.EvictionIsStep | internal/ratelimiter/core/worker.go:235-272 | an eviction cycle is, for every key, its listing, the accesses to it and its turn |
| Redis.MarkerIsNotCounter | internal/ratelimiter/persistence/redis.go:73-77 | no commit marker equals any counter key |
| Redis.MarkersCollideIff | internal/ratelimiter/persistence/redis.go:75-77 | two commits share a marker iff they are the same or one key is the other plus a colon and the beginning of its id |
| Redis.MarkerUniqueIff | internal/ratelimiter/persistence/redis.go:75-77 | a commit has its marker to itself iff neither its key nor its id contains a colon |
| Redis.ColonFreeIdsSeparate | internal/ratelimiter/persistence/shim.go:59-65 | ids without colons keep the markers of all commits apart, whatever the keys |
| Redis.RedisPersister.CommitBatch | internal/ratelimiter/persistence/redis.go:81-96 | applies exactly the entries up to the first without an id or whose call failed, and returns its error |
| Redis.SuccessIff | internal/ratelimiter/persistence/redis.go:81-96 | there is no error iff every entry has an id and every call is answered, and then all of it is applied |
| Redis.StopMeaning | internal/ratelimiter/persistence/redis.go:81-96 | otherwise the error is that of the entry at which the batch stops, which is applied all the same if only its answer was lost |
| Redis.RetriesCollapse | internal/ratelimiter/persistence/redis.go:53-96 | any attempts at a batch, each cut short anywhere, leave what one application up to the furthest point leaves |
| Redis.OnlyTheSetMatters | internal/ratelimiter/persistence/redis.go:53-71 | logs of the same consistent entries leave the same markers and counters, however ordered, interleaved and repeated |
| Redis.EachAppliedOnce | internal/ratelimiter/persistence/redis.go:53-71 | fresh commits with colon-free ids take exactly their vectors off the scalars of their keys |

## Left out

- SShards.SShard.Ingest: requires that the probe ends; otherwise the source loops for ever. `maybeFlush` and its clock are not modelled, since its result is ignored.
- SServices.SService.Ingest: a call on a full buffer waits for at most one receive; that the worker comes round to it is a parameter.
- SServices.SService.Run: asks that the probes of the script end; ServiceMachine has the schedules in which one does not.
- ServiceMachine.Delivery: sums and greatest sequence numbers are stated for a service with a sink; without one, flushed batches are dropped.
- FlushCallers.ReturnsIff: the callers are beside the service and not fields of the class; FlushCallers.AnsweredBy joins them to its runs.
- Pipelines.Pipeline.Handle: construction, start, stop and flush only pass calls on to the service and are not repeated.
- Vsa.VSA.TryConsume: the group cursor is unbounded and stripe choosers are arbitrary values that are masked.
- Shortcuts.GuessSoundIff: about a single decision; Shortcuts.CachedSafeIff and Shortcuts.GroupedSafeIff are about runs.
- Shortcuts.GroupedSafeIff: runs of consumes; refunds, commits and updates between them are not part of these runs.
- FastPath.OvershootBound: stated between commits, because the lock-free path loads the scalar and the approximate net separately; without `Update`, group sums, the cached or the grouped gate.
- LockedGate.Linearizable: flat stripe scan only; `Update`, group sums, the cached and the grouped gate are not part of the concurrent machine.
- Workers.Worker.RunCommitCycle: cycles run one at a time and alone; interference between the read of a vector and its commit is in WorkerSpec (drift) and not in the class. The commit and the eviction loop do not overlap.
- Workers.Worker.RunEvictionCycle: what callers do to a listed key happens just before its turn; clock and persister answers are functions of the key; telemetry and printing are not modelled.
- Reconstruction.State.Reconstruct: sort.Slice is modelled by its contract, an ordered permutation in place.
- VActors.VActor.Enqueue: the digest is an uninterpreted function of key and sequence number.
- Redis.RedisPersister.CommitBatch: marker expiry, the context, Lua number precision and fencing tokens are not modelled; a failed call either never arrived or lost its answer.
- Fresh ids on each call of the shim, so exactly-once from worker to Redis, are not claimed.
- Publication races of the store (LoadOrStore), the aggregator goroutine's lifetime and `Close`.
- 64-bit overflow of counters, whose headroom is the user's obligation.
- The Postgres and Kafka adapters, HTTP, the classifier, hashing, benchmarks, telemetry and command-line tools.
