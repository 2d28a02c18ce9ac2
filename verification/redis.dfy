/** Idempotent commits: a marker key for each commit and one atomic script per entry. */
module Redis {
  import opened Sums
  import opened Wrappers

  datatype CommitEntry = CommitEntry(key: string, vector: int, commitID: string)

  function CounterKey(key: string): string {
    "counter:" + key
  }

  function MarkerKey(key: string, commitID: string): string {
    "commit:" + key + ":" + commitID
  }

  predicate NoColon(s: string) {
    ':' !in s
  }

  /** A marker is never mistaken for a counter. */
  lemma MarkerIsNotCounter(key: string, id: string, other: string)
    ensures MarkerKey(key, id) != CounterKey(other)
  {
    assert MarkerKey(key, id)[2] == 'm';
    assert CounterKey(other)[2] == 'u';
  }

  // The longer of two keys that share a marker has swallowed a piece of the shorter one's id.
  ghost predicate Straddles(key: string, id: string, key': string, id': string) {
    exists s: string :: key' == key + ":" + s && id == s + ":" + id'
  }

  lemma MarkerTail(key: string, id: string)
    ensures MarkerKey(key, id)[..7] == "commit:" && MarkerKey(key, id)[7..] == key + ":" + id
  {
    assert MarkerKey(key, id) == "commit:" + (key + ":" + id);
  }

  lemma SplitAt(key: string, id: string, key': string, id': string)
    requires key + ":" + id == key' + ":" + id'
    ensures |key| == |key'| ==> key == key' && id == id'
    ensures |key| < |key'| ==> Straddles(key, id, key', id')
  {
    var whole := key + ":" + id;
    assert whole[..|key|] == key && whole[..|key'|] == key';
    assert whole[|key| + 1..] == id && whole[|key'| + 1..] == id';
    assert whole[|key|] == ':';
    if |key| < |key'| {
      var s := key'[|key| + 1..];
      assert key' == key + ":" + s;
      assert whole[|key'|] == ':';
      assert id == s + ":" + id';
    }
  }

  lemma Straddled(key: string, id: string, key': string, id': string)
    requires Straddles(key, id, key', id')
    ensures MarkerKey(key, id) == MarkerKey(key', id')
  {
    var s :| key' == key + ":" + s && id == s + ":" + id';
    assert key + ":" + (s + ":" + id') == key + ":" + s + ":" + id';
  }

  /** Exactly when two commits share a marker: they are the same commit, or one key is the other followed
      by a colon and the beginning of the other's id. */
  lemma MarkersCollideIff(key: string, id: string, key': string, id': string)
    ensures MarkerKey(key, id) == MarkerKey(key', id') <==>
      || (key == key' && id == id') || Straddles(key, id, key', id') || Straddles(key', id', key, id)
  {
    MarkerTail(key, id);
    MarkerTail(key', id');
    if MarkerKey(key, id) == MarkerKey(key', id') {
      SplitAt(key, id, key', id');
      SplitAt(key', id', key, id);
    } else if Straddles(key, id, key', id') {
      Straddled(key, id, key', id');
    } else if Straddles(key', id', key, id) {
      Straddled(key', id', key, id);
    }
  }

  lemma StraddlingIdHasColon(key: string, id: string, key': string, id': string)
    requires Straddles(key, id, key', id')
    ensures !NoColon(id)
  {
    var s :| key' == key + ":" + s && id == s + ":" + id';
    assert id[|s|] == ':';
  }

  /** Ids without a colon, as the shim's hexadecimal ones are, keep all markers apart, whatever the keys. */
  lemma ColonFreeIdsSeparate(key: string, id: string, key': string, id': string)
    requires NoColon(id) && NoColon(id') && MarkerKey(key, id) == MarkerKey(key', id')
    ensures key == key' && id == id'
  {
    MarkersCollideIff(key, id, key', id');
    if Straddles(key, id, key', id') {
      StraddlingIdHasColon(key, id, key', id');
    } else if Straddles(key', id', key, id) {
      StraddlingIdHasColon(key', id', key, id);
    }
  }

  lemma StraddlingKeyHasColon(key: string, id: string, key': string, id': string)
    requires Straddles(key, id, key', id')
    ensures !NoColon(key')
  {
    var s :| key' == key + ":" + s && id == s + ":" + id';
    assert key'[|key|] == ':';
  }

  // Cutting at another colon gives another commit with the same marker.
  lemma Rival(key: string, id: string) returns (key': string, id': string)
    requires !NoColon(key) || !NoColon(id)
    ensures MarkerKey(key, id) == MarkerKey(key', id') && (key, id) != (key', id')
  {
    if !NoColon(id) {
      var i :| 0 <= i < |id| && id[i] == ':';
      key', id' := key + ":" + id[..i], id[i + 1..];
      assert id == id[..i] + ":" + id';
      assert Straddles(key, id, key', id');
      Straddled(key, id, key', id');
    } else {
      var i :| 0 <= i < |key| && key[i] == ':';
      key', id' := key[..i], key[i + 1..] + ":" + id;
      assert key == key' + ":" + key[i + 1..];
      assert Straddles(key', id', key, id);
      Straddled(key', id', key, id);
    }
  }

  /** A commit has its marker to itself if and only if neither its key nor its id contains a colon. */
  lemma MarkerUniqueIff(key: string, id: string)
    ensures (forall key', id' :: MarkerKey(key, id) == MarkerKey(key', id') ==> key == key' && id == id')
      <==> NoColon(key) && NoColon(id)
  {
    hide MarkerKey;
    if NoColon(key) && NoColon(id) {
      forall key', id' | MarkerKey(key, id) == MarkerKey(key', id') ensures key == key' && id == id' {
        MarkersCollideIff(key, id, key', id');
        if Straddles(key, id, key', id') {
          StraddlingIdHasColon(key, id, key', id');
        } else if Straddles(key', id', key, id) {
          StraddlingKeyHasColon(key', id', key, id);
        }
      }
    } else {
      var key', id' := Rival(key, id);
    }
  }

  // The keyspace: markers that are set, and the scalar field of each counter.
  datatype Db = Db(markers: set<string>, counters: map<string, int>)

  function ScalarOf(db: Db, counterKey: string): int {
    if counterKey in db.counters then db.counters[counterKey] else 0
  }

  // The script, which the server runs atomically: 1 if applied, 0 if it had been.
  function Script(db: Db, counterKey: string, markerKey: string, vector: int): (int, Db) {
    if markerKey in db.markers then (0, db)
    else (1, Db(db.markers + {markerKey}, db.counters[counterKey := ScalarOf(db, counterKey) - vector]))
  }

  function MarkerOf(e: CommitEntry): string {
    MarkerKey(e.key, e.commitID)
  }

  function Apply(db: Db, e: CommitEntry): Db {
    Script(db, CounterKey(e.key), MarkerOf(e), e.vector).1
  }

  function ApplyAll(db: Db, es: seq<CommitEntry>): Db {
    if |es| == 0 then db else Apply(ApplyAll(db, es[..|es| - 1]), es[|es| - 1])
  }

  lemma {:induction false} ApplyConcat(db: Db, a: seq<CommitEntry>, b: seq<CommitEntry>)
    ensures ApplyAll(db, a + b) == ApplyAll(ApplyAll(db, a), b)
  {
    if |b| == 0 {
      assert a + b == a;
    } else {
      ApplyConcat(db, a, b[..|b| - 1]);
      assert (a + b)[..|a + b| - 1] == a + b[..|b| - 1];
    }
  }

  lemma {:induction false} MarkersSet(db: Db, es: seq<CommitEntry>)
    ensures db.markers <= ApplyAll(db, es).markers
    ensures forall e :: e in es ==> MarkerOf(e) in ApplyAll(db, es).markers
  {
    hide MarkerOf;
    if |es| > 0 {
      MarkersSet(db, es[..|es| - 1]);
      assert es == es[..|es| - 1] + [es[|es| - 1]];
    }
  }

  lemma {:induction false} AlreadyApplied(db: Db, es: seq<CommitEntry>)
    requires forall e :: e in es ==> MarkerOf(e) in db.markers
    ensures ApplyAll(db, es) == db
  {
    hide MarkerOf;
    if |es| > 0 {
      AlreadyApplied(db, es[..|es| - 1]);
    }
  }

  // Attempts at one batch, each of which got through some prefix of it.
  function Attempts(db: Db, es: seq<CommitEntry>, reached: seq<nat>): Db
    requires forall i :: 0 <= i < |reached| ==> reached[i] <= |es|
  {
    if |reached| == 0 then db
    else ApplyAll(Attempts(db, es, reached[..|reached| - 1]), es[..reached[|reached| - 1]])
  }

  function Furthest(reached: seq<nat>): nat {
    if |reached| == 0 then 0 else Max(Furthest(reached[..|reached| - 1]), reached[|reached| - 1])
  }

  lemma RetryPrefix(db: Db, es: seq<CommitEntry>, done: nat, n: nat)
    requires done <= |es| && n <= |es|
    ensures ApplyAll(ApplyAll(db, es[..done]), es[..n]) == ApplyAll(db, es[..Max(done, n)])
  {
    hide Apply, MarkerOf;
    var both := if n <= done then n else done;
    MarkersSet(db, es[..done]);
    AlreadyApplied(ApplyAll(db, es[..done]), es[..both]);
    if n > done {
      assert es[..n] == es[..done] + es[done..n];
      ApplyConcat(ApplyAll(db, es[..done]), es[..done], es[done..n]);
      ApplyConcat(db, es[..done], es[done..n]);
    }
  }

  lemma {:induction false} FurthestIsMax(reached: seq<nat>)
    ensures forall i :: 0 <= i < |reached| ==> reached[i] <= Furthest(reached)
  {
    if |reached| > 0 {
      FurthestIsMax(reached[..|reached| - 1]);
      forall i | 0 <= i < |reached| ensures reached[i] <= Furthest(reached) {
        assert i < |reached| - 1 ==> reached[..|reached| - 1][i] == reached[i];
      }
    }
  }

  /** Exactly once under retry: any number of attempts, each failing at any entry, leave what one
      application up to the furthest point leaves; once an attempt has got through, the whole batch is
      applied once, and further attempts change nothing. */
  lemma {:induction false} RetriesCollapse(db: Db, es: seq<CommitEntry>, reached: seq<nat>)
    requires forall i :: 0 <= i < |reached| ==> reached[i] <= |es|
    ensures Furthest(reached) <= |es|
    ensures Attempts(db, es, reached) == ApplyAll(db, es[..Furthest(reached)])
    ensures |es| in reached ==> Attempts(db, es, reached) == ApplyAll(db, es)
  {
    if |reached| > 0 {
      var front, last := reached[..|reached| - 1], reached[|reached| - 1];
      RetriesCollapse(db, es, front);
      RetryPrefix(db, es, Furthest(front), last);
      FurthestIsMax(reached);
    } else {
      assert es[..0] == [];
    }
    assert es[..|es|] == es;
  }

  // Entries that share a marker say the same thing.
  predicate Agree(e: CommitEntry, f: CommitEntry) {
    MarkerOf(e) == MarkerOf(f) ==> CounterKey(e.key) == CounterKey(f.key) && e.vector == f.vector
  }

  ghost predicate Consistent(es: seq<CommitEntry>) {
    forall e, f :: e in es && f in es ==> Agree(e, f)
  }

  lemma ApplyTwice(db: Db, e: CommitEntry)
    ensures Apply(Apply(db, e), e) == Apply(db, e)
  {
  }

  lemma ApplyCommutes(db: Db, e: CommitEntry, f: CommitEntry)
    requires Agree(e, f)
    ensures Apply(Apply(db, e), f) == Apply(Apply(db, f), e)
  {
    hide MarkerKey, CounterKey;
    var (ef, fe) := (Apply(Apply(db, e), f), Apply(Apply(db, f), e));
    assert ef.markers == fe.markers;
    assert ef.counters == fe.counters;
  }

  function Drop(es: seq<CommitEntry>, x: CommitEntry): (r: seq<CommitEntry>)
    ensures forall e :: e in r <==> e in es && e != x
  {
    if |es| == 0 then []
    else
      var front := Drop(es[..|es| - 1], x);
      if es[|es| - 1] == x then front else front + [es[|es| - 1]]
  }

  lemma {:induction false} DropNothing(es: seq<CommitEntry>, x: CommitEntry)
    requires x !in es
    ensures Drop(es, x) == es
  {
    if |es| > 0 {
      DropNothing(es[..|es| - 1], x);
    }
  }

  // However often and wherever an entry occurs, it may as well come once, last.
  lemma {:induction false} MoveLast(db: Db, es: seq<CommitEntry>, x: CommitEntry)
    requires Consistent(es) && x in es
    ensures ApplyAll(db, es) == Apply(ApplyAll(db, Drop(es, x)), x)
  {
    hide Apply, Agree;
    var front, last := es[..|es| - 1], es[|es| - 1];
    assert es == front + [last];
    if x in front {
      MoveLast(db, front, x);
      if last == x {
        ApplyTwice(ApplyAll(db, Drop(front, x)), x);
      } else {
        ApplyCommutes(ApplyAll(db, Drop(front, x)), x, last);
        assert (Drop(front, x) + [last])[..|Drop(front, x)|] == Drop(front, x);
      }
    } else {
      DropNothing(front, x);
    }
  }

  lemma SetAlready(db: Db, es: seq<CommitEntry>, x: CommitEntry)
    requires x in es
    ensures Apply(ApplyAll(db, es), x) == ApplyAll(db, es)
  {
    MarkersSet(db, es);
  }

  /** Order and repetition do not matter: two logs of the same consistent entries, however interleaved
      and repeated, leave the same markers and counters. */
  lemma {:induction false} OnlyTheSetMatters(db: Db, a: seq<CommitEntry>, b: seq<CommitEntry>)
    requires Consistent(a) && forall e :: e in a <==> e in b
    ensures ApplyAll(db, a) == ApplyAll(db, b)
  {
    hide Apply, Agree, Drop;
    if |b| > 0 {
      assert b[0] in b;
    }
    if |a| > 0 {
      var front, x := a[..|a| - 1], a[|a| - 1];
      assert a == front + [x];
      if x in front {
        OnlyTheSetMatters(db, front, b);
        MarkersSet(db, front);
        SetAlready(db, front, x);
      } else {
        OnlyTheSetMatters(db, front, Drop(b, x));
        MoveLast(db, b, x);
      }
    }
  }

  function VectorsOf(es: seq<CommitEntry>, key: string): seq<int> {
    if |es| == 0 then []
    else VectorsOf(es[..|es| - 1], key) + (if es[|es| - 1].key == key then [es[|es| - 1].vector] else [])
  }

  function MarkersOf(es: seq<CommitEntry>): set<string> {
    set e | e in es :: MarkerOf(e)
  }

  // The markers that are set are those that were and those of the entries.
  lemma {:induction false} MarkersExactly(db: Db, es: seq<CommitEntry>)
    ensures ApplyAll(db, es).markers == db.markers + MarkersOf(es)
  {
    hide MarkerOf, CounterKey;
    if |es| > 0 {
      var front, last := es[..|es| - 1], es[|es| - 1];
      MarkersExactly(db, front);
      assert es == front + [last];
      assert MarkersOf(es) == MarkersOf(front) + {MarkerOf(last)};
    }
  }

  // Ids without colons that differ have markers that differ.
  lemma NewMarker(es: seq<CommitEntry>)
    requires |es| > 0 && forall i :: 0 <= i < |es| ==> NoColon(es[i].commitID)
    requires forall i, j :: 0 <= i < j < |es| ==> (es[i].key, es[i].commitID) != (es[j].key, es[j].commitID)
    ensures MarkerOf(es[|es| - 1]) !in MarkersOf(es[..|es| - 1])
  {
    hide MarkerKey;
    var front, last := es[..|es| - 1], es[|es| - 1];
    forall i | 0 <= i < |front| ensures MarkerOf(front[i]) != MarkerOf(last) {
      if MarkerOf(front[i]) == MarkerOf(last) {
        ColonFreeIdsSeparate(es[i].key, es[i].commitID, last.key, last.commitID);
      }
    }
  }

  lemma CounterKeyInjective(key: string, other: string)
    ensures CounterKey(key)[..8] == "counter:"
    ensures CounterKey(key) == CounterKey(other) <==> key == other
  {
    assert CounterKey(key)[8..] == key && CounterKey(other)[8..] == other;
  }

  lemma ScalarMoves(db: Db, e: CommitEntry, key: string)
    requires MarkerOf(e) !in db.markers
    ensures ScalarOf(Apply(db, e), CounterKey(key)) == ScalarOf(db, CounterKey(key)) - (if e.key == key then e.vector else 0)
  {
    hide MarkerKey, CounterKey;
    CounterKeyInjective(key, e.key);
  }

  /** Commits with ids of their own, without colons and not used before, take exactly their vectors off
      the scalars of their keys. */
  lemma {:induction false} EachAppliedOnce(db: Db, es: seq<CommitEntry>, key: string)
    requires forall i :: 0 <= i < |es| ==> NoColon(es[i].commitID) && MarkerOf(es[i]) !in db.markers
    requires forall i, j :: 0 <= i < j < |es| ==> (es[i].key, es[i].commitID) != (es[j].key, es[j].commitID)
    ensures ScalarOf(ApplyAll(db, es), CounterKey(key)) == ScalarOf(db, CounterKey(key)) - Sum(VectorsOf(es, key))
    ensures ApplyAll(db, es).markers == db.markers + MarkersOf(es)
  {
    hide MarkerOf, MarkersOf, CounterKey, Apply, ScalarOf, Sum;
    MarkersExactly(db, es);
    if |es| == 0 {
      NoSum();
    } else {
      var front, last := es[..|es| - 1], es[|es| - 1];
      EachAppliedOnce(db, front, key);
      NewMarker(es);
      ScalarMoves(ApplyAll(db, front), last, key);
      SumAppend(VectorsOf(front, key), last.vector);
      assert VectorsOf(front, key) + [] == VectorsOf(front, key);
    }
  }

  datatype Error = MissingCommitID | EvalFailed(key: string, commitID: string)

  // What became of a call to the server: answered, never arrived, or run but the answer was lost.
  datatype Reply = Answered | Undelivered | AnswerLost

  // How far a batch gets, from entry i on.
  function Reached(es: seq<CommitEntry>, replies: nat -> Reply, i: nat): nat
    requires i <= |es|
    ensures i <= Reached(es, replies, i) <= |es|
    decreases |es| - i
  {
    if i == |es| || es[i].commitID == "" || replies(i) == Undelivered then i
    else if replies(i) == AnswerLost then i + 1
    else Reached(es, replies, i + 1)
  }

  // The error the batch stops with, from entry i on, if any.
  function Failure(es: seq<CommitEntry>, replies: nat -> Reply, i: nat): Option<Error>
    requires i <= |es|
    decreases |es| - i
  {
    if i == |es| then None
    else if es[i].commitID == "" then Some(MissingCommitID)
    else if replies(i) != Answered then Some(EvalFailed(es[i].key, es[i].commitID))
    else Failure(es, replies, i + 1)
  }

  predicate Succeeds(es: seq<CommitEntry>, replies: nat -> Reply) {
    forall i :: 0 <= i < |es| ==> es[i].commitID != "" && replies(i) == Answered
  }

  // The entry at which everything before had gone well.
  predicate StopsAt(es: seq<CommitEntry>, replies: nat -> Reply, i: nat) {
    i < |es| && Succeeds(es[..i], replies) && (es[i].commitID == "" || replies(i) != Answered)
  }

  lemma {:induction false} GoesTo(es: seq<CommitEntry>, replies: nat -> Reply, i: nat) returns (k: nat)
    requires i <= |es| && Succeeds(es[..i], replies)
    ensures i <= k <= |es| && (k < |es| ==> StopsAt(es, replies, k))
    ensures k == |es| ==> Succeeds(es, replies) && Failure(es, replies, i) == None && Reached(es, replies, i) == |es|
    decreases |es| - i
  {
    k := i;
    if i == |es| {
      assert es[..i] == es;
    } else if es[i].commitID != "" && replies(i) == Answered {
      assert es[..i + 1] == es[..i] + [es[i]];
      k := GoesTo(es, replies, i + 1);
    }
  }

  /** The error is that of the entry at which the batch stops, and what is applied are the entries before
      it, and that entry too if it was its answer that got lost. */
  lemma {:induction false} StopMeaning(es: seq<CommitEntry>, replies: nat -> Reply, i: nat, k: nat)
    requires i <= k && StopsAt(es, replies, k)
    ensures Failure(es, replies, i) ==
      Some(if es[k].commitID == "" then MissingCommitID else EvalFailed(es[k].key, es[k].commitID))
    ensures Reached(es, replies, i) == if es[k].commitID != "" && replies(k) == AnswerLost then k + 1 else k
    decreases k - i
  {
    if i < k {
      assert es[..k][i] == es[i];
      StopMeaning(es, replies, i + 1, k);
    }
  }

  /** A batch succeeds exactly when every entry has an id and every call is answered, and then all of it is
      applied; otherwise there is one entry at which it stops. */
  lemma SuccessIff(es: seq<CommitEntry>, replies: nat -> Reply)
    ensures Failure(es, replies, 0) == None <==> Succeeds(es, replies)
    ensures Succeeds(es, replies) ==> Reached(es, replies, 0) == |es|
    ensures !Succeeds(es, replies) ==> exists k: nat :: StopsAt(es, replies, k)
  {
    assert es[..0] == [];
    var k := GoesTo(es, replies, 0);
    if k < |es| {
      StopMeaning(es, replies, 0, k);
    }
  }

  class RedisPersister {
    // The server's data, behind the client.
    var db: Db

    constructor (db: Db)
      ensures this.db == db
    {
      this.db := db;
    }

    method Eval(counterKey: string, markerKey: string, vector: int, reply: Reply) returns (ok: bool)
      modifies this
      ensures db == if reply == Undelivered then old(db) else Script(old(db), counterKey, markerKey, vector).1
      ensures ok <==> reply == Answered
    {
      if reply != Undelivered {
        db := Script(db, counterKey, markerKey, vector).1;
      }
      ok := reply == Answered;
    }

    /** Applies the entries in order until one has no id or a call to the server fails. */
    method CommitBatch(entries: seq<CommitEntry>, replies: nat -> Reply) returns (err: Option<Error>)
      modifies this
      ensures db == ApplyAll(old(db), entries[..Reached(entries, replies, 0)])
      ensures err == Failure(entries, replies, 0)
      ensures err == None ==> db == ApplyAll(old(db), entries)
    {
      hide Script, MarkerKey, CounterKey;
      ghost var start := db;
      assert entries[..0] == [];
      for i := 0 to |entries|
        invariant db == ApplyAll(start, entries[..i])
        invariant Reached(entries, replies, 0) == Reached(entries, replies, i)
        invariant Failure(entries, replies, 0) == Failure(entries, replies, i)
      {
        var e := entries[i];
        assert entries[..i + 1][..i] == entries[..i];
        if e.commitID == "" {
          return Some(MissingCommitID);
        }
        var ok := Eval(CounterKey(e.key), MarkerKey(e.key, e.commitID), e.vector, replies(i));
        if !ok {
          return Some(EvalFailed(e.key, e.commitID));
        }
      }
      assert entries[..|entries|] == entries;
      return None;
    }
  }
}
