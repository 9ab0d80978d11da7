/** The history of one durable log, in every interleaving of its transactions. */
module DurableLogHistory {
  import opened Prelude
  import opened Collections
  import opened MerkleHashing
  import opened MerkleTree
  import opened MerkleProofs
  import opened DurableLog
  import opened DurableLogProofs

  ghost predicate Reaches(h: MerkleHasher, actions: seq<Action>, db: Db) {
    Run(h, EMPTY_DB, actions) == Some(db)
  }

  lemma {:induction false} RunKeeps(h: MerkleHasher, actions: seq<Action>, db: Db)
    requires Reaches(h, actions, db)
    ensures Inv(h, db)
  {
    if actions == [] {
    } else {
      var before := Run(h, EMPTY_DB, actions[..|actions| - 1]).value;
      RunKeeps(h, actions[..|actions| - 1], before);
      StepKeeps(h, before, actions[|actions| - 1]);
    }
  }

  /** Committed leaf indices are exactly 0..n-1, whatever the appenders and savers do, and a load reads leaf i at i. */
  lemma CommittedIndicesAreContiguous(h: MerkleHasher, actions: seq<Action>, db: Db)
    requires Reaches(h, actions, db)
    ensures forall i: nat :: i in db.leaves <==> i < |Loaded(db.leaves)|
    ensures forall i: nat :: i < |Loaded(db.leaves)| ==> Loaded(db.leaves)[i] == db.leaves[i]
  {
    RunKeeps(h, actions, db);
    GaplessLoads(db.leaves);
  }

  // ---- The log only grows ----

  /** Nothing committed, and nothing reported, is lost or altered. */
  ghost predicate Retains(later: Db, db: Db) {
    && Loaded(db.leaves) <= Loaded(later.leaves)
    && (forall size :: size in db.checkpoints ==>
          size in later.checkpoints && later.checkpoints[size] == db.checkpoints[size])
    && db.issued <= later.issued
  }

  lemma ExtendsLoads(rows: LeafRows, more: LeafRows)
    requires Gapless(rows) && Gapless(more) && Extends(more, rows)
    ensures Loaded(rows) <= Loaded(more)
  {
    GaplessLoads(rows);
    GaplessLoads(more);
    SubsetSize(rows.Keys, more.Keys);
    assert |rows| <= |more|;
  }

  lemma CommitRetains(h: MerkleHasher, db: Db, tx: TxId, acknowledged: bool)
    requires Inv(h, db) && tx in db.open && Finished(db.open[tx])
    ensures Retains(Committed(h, db, tx, acknowledged), db)
  {
    PublishedGrows(h, db, tx);
    ExtendsLoads(db.leaves, Published(db, tx).leaves);
    assert TxInv(h, db.leaves, db.checkpoints, db.open[tx]);
  }

  lemma StepRetains(h: MerkleHasher, db: Db, a: Action)
    requires Inv(h, db) && Step(h, db, a).Some?
    ensures Retains(Step(h, db, a).value, db)
  {
    if a.Commit? {
      CommitRetains(h, db, a.tx, a.acknowledged);
    } else {
      OnlyCommitsPublish(h, db, a);
    }
  }

  lemma OnlyCommitsPublish(h: MerkleHasher, db: Db, a: Action)
    requires Step(h, db, a).Some? && !a.Commit?
    ensures var next := Step(h, db, a).value;
            next.leaves == db.leaves && next.checkpoints == db.checkpoints && next.issued == db.issued
  {
  }

  /** Append-only over whole runs: later states extend earlier ones, and the first checkpoint of a size stays. */
  lemma {:induction false} HistoryOnlyGrows(h: MerkleHasher, actions: seq<Action>, more: seq<Action>, db: Db, later: Db)
    requires Reaches(h, actions, db) && Reaches(h, actions + more, later)
    ensures Retains(later, db)
    decreases |more|
  {
    var all := actions + more;
    if more == [] {
      assert all == actions;
    } else {
      var front := more[..|more| - 1];
      assert all[..|all| - 1] == actions + front;
      var before := Run(h, EMPTY_DB, actions + front).value;
      HistoryOnlyGrows(h, actions, front, db, before);
      RunKeeps(h, actions + front, before);
      StepRetains(h, before, all[|all| - 1]);
    }
  }

  /** The same from any state that satisfies the invariant. */
  lemma {:induction false} RunFromRetains(h: MerkleHasher, db: Db, actions: seq<Action>, later: Db)
    requires Inv(h, db) && Run(h, db, actions) == Some(later)
    ensures Inv(h, later) && Retains(later, db)
    decreases |actions|
  {
    if actions == [] {
    } else {
      var before := Run(h, db, actions[..|actions| - 1]).value;
      RunFromRetains(h, db, actions[..|actions| - 1], before);
      StepKeeps(h, before, actions[|actions| - 1]);
      StepRetains(h, before, actions[|actions| - 1]);
    }
  }

  // ---- Checkpoints ----

  /** A head that was anchored, or reported to a caller. */
  ghost predicate Attested(db: Db, head: Head) {
    (head.size in db.checkpoints && db.checkpoints[head.size] == head) || head in db.issued
  }

  lemma AttestedDescribes(h: MerkleHasher, db: Db, head: Head)
    requires Inv(h, db) && Attested(db, head)
    ensures head.size <= |Loaded(db.leaves)| && head.root == Root(h, Loaded(db.leaves)[..head.size])
  {
    assert Describes(h, head, db.leaves);
    GaplessLoads(db.leaves);
    CoveredSize(db.leaves, head.size);
    assert Prefix(db.leaves, head.size) == Loaded(db.leaves)[..head.size];
  }

  lemma CoveredSize(rows: LeafRows, n: nat)
    requires Gapless(rows) && Covers(rows, n)
    ensures n <= |rows|
  {
    assert n > 0 ==> n - 1 in rows;
  }

  /** Every head of size s, whenever it was attested, carries the tree hash of the first s leaves of the final log. */
  lemma CheckpointsMatchFinalLog(h: MerkleHasher, actions: seq<Action>, more: seq<Action>, db: Db, final: Db,
                                 head: Head)
    requires Reaches(h, actions, db) && Reaches(h, actions + more, final) && Attested(db, head)
    ensures Attested(final, head)
    ensures head.size <= |Loaded(final.leaves)| && head.root == Root(h, Loaded(final.leaves)[..head.size])
  {
    HistoryOnlyGrows(h, actions, more, db, final);
    RunKeeps(h, actions + more, final);
    AttestedDescribes(h, final, head);
  }

  /** Any two attested heads, the first not empty, are linked by a proof generated from the log that verifies. */
  lemma CheckpointsAreLinked(h: MerkleHasher, actions: seq<Action>, db: Db, first: Head, second: Head)
    requires Reaches(h, actions, db) && Attested(db, first) && Attested(db, second)
    requires 0 < first.size <= second.size
    ensures second.size <= |Loaded(db.leaves)|
    ensures var proof := Consistency(h, Loaded(db.leaves)[..second.size], first.size);
            proof.Some? && VerifyConsistency(h, proof.value, first.root, second.root)
  {
    RunKeeps(h, actions, db);
    AttestedDescribes(h, db, first);
    AttestedDescribes(h, db, second);
    PrefixesAreLinked(h, Loaded(db.leaves), first.size, second.size);
  }

  lemma PrefixesAreLinked(h: MerkleHasher, log: seq<Digest>, m: nat, n: nat)
    requires 0 < m <= n <= |log|
    ensures var proof := Consistency(h, log[..n], m);
            proof.Some? && VerifyConsistency(h, proof.value, Root(h, log[..m]), Root(h, log[..n]))
  {
    assert log[..n][..m] == log[..m];
    ConsistencyComplete(h, log[..n], m);
  }

  /** The size a scheduler remembers is anchored, so an issue it would skip as idle leaves no hole. */
  lemma IdleSkipLeavesNoHole(h: MerkleHasher, actions: seq<Action>, db: Db)
    requires Reaches(h, actions, db)
    ensures forall scheduler :: scheduler in db.lastSize ==> db.lastSize[scheduler] in db.checkpoints
    ensures forall tx :: tx in db.open && IdleSkip(db.open[tx].job) && db.open[tx].job.scheduler.Some? ==>
              |db.open[tx].job.loaded.value| in db.checkpoints
  {
    RunKeeps(h, actions, db);
    forall tx | tx in db.open && IdleSkip(db.open[tx].job) && db.open[tx].job.scheduler.Some?
      ensures |db.open[tx].job.loaded.value| in db.checkpoints
    {
      assert TxInv(h, db.leaves, db.checkpoints, db.open[tx]);
    }
  }

  // ---- Writers ----

  /** What a load reads once rows that continue the log are visible. */
  lemma JoinedLoads(committed: LeafRows, rows: LeafRows, tail: seq<Digest>)
    requires Gapless(committed) && Continues(rows, committed)
    requires |tail| == |rows| && forall i :: i in rows ==> rows[i] == tail[i - |committed|]
    ensures Loaded(committed + rows) == Loaded(committed) + tail
  {
    JoinedSize(committed, rows);
    GaplessLoads(committed);
    GaplessLoads(committed + rows);
    JoinedPrefix(committed, rows, Loaded(committed), tail);
    PrefixIs(Loaded(committed) + tail, committed + rows);
  }

  lemma JoinedPrefix(committed: LeafRows, rows: LeafRows, front: seq<Digest>, tail: seq<Digest>)
    requires Continues(rows, committed) && |tail| == |rows| && |front| == |committed| && IsPrefixOf(front, committed)
    requires forall i :: i in rows ==> rows[i] == tail[i - |committed|]
    ensures IsPrefixOf(front + tail, committed + rows)
  {
    forall i | 0 <= i < |front + tail| ensures i in committed + rows && (committed + rows)[i] == (front + tail)[i] {
      JoinedAt(committed, rows, front, tail, i);
    }
  }

  lemma JoinedAt(committed: LeafRows, rows: LeafRows, front: seq<Digest>, tail: seq<Digest>, i: nat)
    requires Continues(rows, committed) && |tail| == |rows| && |front| == |committed| && IsPrefixOf(front, committed)
    requires i < |front + tail| && (i in rows ==> rows[i] == tail[i - |committed|])
    ensures i in committed + rows && (committed + rows)[i] == (front + tail)[i]
  {
    if i < |front| {
      assert committed[i] == front[i] && i !in rows;
    } else {
      var j := i - |front|;
      assert i in rows;
      assert (front + tail)[i] == tail[j];
    }
  }

  /** A row under the one key an append read must be the next one, and the only one. */
  lemma SingleRow(committed: LeafRows, i: nat, leaf: Digest)
    requires Gapless(committed) && Continues(map[i := leaf], committed)
    ensures i == |committed|
    ensures Loaded(committed + map[i := leaf]) == Loaded(committed) + [leaf]
  {
    assert |map[i := leaf]| == 1 by {
      OneMoreSize(map[], i, leaf);
    }
    assert i in map[i := leaf];
    JoinedLoads(committed, map[i := leaf], [leaf]);
  }

  lemma AppendCommits(h: MerkleHasher, db: Db, tx: TxId, acknowledged: bool)
    requires Inv(h, db) && tx in db.open && db.open[tx].job.Append? && Finished(db.open[tx])
    ensures db.open[tx].job.next == Some(|Loaded(db.leaves)|)
    ensures Loaded(Committed(h, db, tx, acknowledged).leaves) == Loaded(db.leaves) + [Leaf(h, db.open[tx].job.record)]
  {
    var t := db.open[tx];
    assert TxInv(h, db.leaves, db.checkpoints, t);
    SingleRow(db.leaves, t.job.next.value, Leaf(h, t.job.record));
    GaplessLoads(db.leaves);
  }

  /**
   A fast append that commits, among any other transactions: the log then loads as the log before it with
   the record appended to the aggregate, and the index it reports is the aggregate's.
   */
  lemma FastAppendRefinesAggregate(h: MerkleHasher, actions: seq<Action>, db: Db, tx: TxId, acknowledged: bool)
    requires Reaches(h, actions, db) && tx in db.open && db.open[tx].job.Append? && Finished(db.open[tx])
    ensures db.open[tx].job.next == Some(|Loaded(db.leaves)|)
    ensures Loaded(Committed(h, db, tx, acknowledged).leaves) == Loaded(db.leaves) + [Leaf(h, db.open[tx].job.record)]
  {
    RunKeeps(h, actions, db);
    AppendCommits(h, db, tx, acknowledged);
  }

  /** How much a finished save adds. */
  lemma SavedAll(committed: LeafRows, rows: LeafRows, leaves: seq<Digest>)
    requires Gapless(committed) && Continues(rows, committed)
    requires forall k: nat :: k < |leaves| ==> k in committed || k in rows
    requires forall i :: i in rows ==> i < |leaves|
    ensures |committed| + |rows| == if |committed| < |leaves| then |leaves| else |committed|
  {
    assert |leaves| > 0 ==> |leaves| - 1 in committed || |leaves| - 1 in rows;
    assert |rows| > 0 ==> |committed| + |rows| - 1 in rows;
  }

  lemma SavedRows(committed: LeafRows, rows: LeafRows, leaves: seq<Digest>)
    requires Gapless(committed) && Continues(rows, committed)
    requires forall k: nat :: k < |leaves| ==> k in committed || k in rows
    requires forall i :: i in rows ==> i < |leaves| && rows[i] == leaves[i]
    ensures |Loaded(committed)| == |committed|
    ensures Loaded(committed + rows)
         == Loaded(committed) + if |committed| < |leaves| then leaves[|committed|..] else []
  {
    SavedAll(committed, rows, leaves);
    GaplessLoads(committed);
    var tail := if |committed| < |leaves| then leaves[|committed|..] else [];
    JoinedLoads(committed, rows, tail);
  }

  /**
   Saving an aggregate, however stale: the committed log is kept, and only leaves the aggregate has beyond it
   are added.
   */
  lemma StaleSaveOnlyExtends(h: MerkleHasher, actions: seq<Action>, db: Db, tx: TxId, acknowledged: bool)
    requires Reaches(h, actions, db) && tx in db.open && db.open[tx].job.Save? && Finished(db.open[tx])
    ensures var before, leaves := Loaded(db.leaves), db.open[tx].job.leaves;
      Loaded(Committed(h, db, tx, acknowledged).leaves)
      == before + if |before| < |leaves| then leaves[|before|..] else []
  {
    RunKeeps(h, actions, db);
    var t := db.open[tx];
    assert TxInv(h, db.leaves, db.checkpoints, t);
    SavedRows(db.leaves, t.leafRows, t.job.leaves);
  }

  /**
   From the write to the proof: once an append has committed, whatever happens next, every head attested over
   a log that reaches its index has an inclusion proof for the record that verifies.
   */
  lemma AppendedRecordIsProvable(h: MerkleHasher, actions: seq<Action>, more: seq<Action>, db: Db, final: Db,
                                 tx: TxId, acknowledged: bool, head: Head)
    requires Reaches(h, actions, db) && tx in db.open && db.open[tx].job.Append? && Finished(db.open[tx])
    requires Reaches(h, actions + [Commit(tx, acknowledged)] + more, final)
    requires db.open[tx].job.next.Some? && db.open[tx].job.next.value < head.size && Attested(final, head)
    ensures head.size <= |Loaded(final.leaves)|
    ensures var proof := Inclusion(h, Loaded(final.leaves)[..head.size], db.open[tx].job.next.value);
            proof.Some? && VerifyInclusion(h, proof.value, Leaf(h, db.open[tx].job.record), head.root)
  {
    var i := db.open[tx].job.next.value;
    var committed := Committed(h, db, tx, acknowledged);
    CommitStep(h, actions, db, tx, acknowledged);
    FastAppendRefinesAggregate(h, actions, db, tx, acknowledged);
    HistoryOnlyGrows(h, actions + [Commit(tx, acknowledged)], more, committed, final);
    RunKeeps(h, actions + [Commit(tx, acknowledged)] + more, final);
    AttestedDescribes(h, final, head);
    LeafIsProvable(h, final, head, i);
    assert Loaded(final.leaves)[i] == Loaded(committed.leaves)[i] == Leaf(h, db.open[tx].job.record);
  }

  /** Every leaf an attested head reaches has a generated inclusion proof that verifies. */
  lemma LeafIsProvable(h: MerkleHasher, db: Db, head: Head, i: nat)
    requires Inv(h, db) && Attested(db, head) && i < head.size
    ensures head.size <= |Loaded(db.leaves)|
    ensures var proof := Inclusion(h, Loaded(db.leaves)[..head.size], i);
            proof.Some? && VerifyInclusion(h, proof.value, Loaded(db.leaves)[i], head.root)
  {
    AttestedDescribes(h, db, head);
    InclusionComplete(h, Loaded(db.leaves)[..head.size], i);
  }

  lemma CommitStep(h: MerkleHasher, actions: seq<Action>, db: Db, tx: TxId, acknowledged: bool)
    requires Reaches(h, actions, db) && tx in db.open && Finished(db.open[tx])
    ensures Reaches(h, actions + [Commit(tx, acknowledged)], Committed(h, db, tx, acknowledged))
  {
    var all := actions + [Commit(tx, acknowledged)];
    assert all[..|all| - 1] == actions;
  }

  lemma RunOneMore(h: MerkleHasher, db: Db, actions: seq<Action>, now: Db, a: Action)
    requires Run(h, db, actions) == Some(now)
    ensures Run(h, db, actions + [a]) == Step(h, now, a)
  {
    assert (actions + [a])[..|actions|] == actions;
  }

  /** The statements of a fast append, with nothing between them and the next index free, do commit the leaf. */
  lemma UndisturbedAppendCommits(h: MerkleHasher, db: Db, tx: TxId, record: Bytes)
    requires db.created && tx !in db.open && !LeafLocked(db, tx, NextIndex(db.leaves))
    ensures Run(h, db, [BeginAppend(tx, record), ReadNext(tx)] + [InsertLeaf(tx)] + [Commit(tx, true)])
         == Some(db.(leaves := db.leaves + map[NextIndex(db.leaves) := Leaf(h, record)]))
  {
    var n := NextIndex(db.leaves);
    var read := Update(db, tx, Tx(Append(record, Some(n)), map[], map[]));
    var inserted := Update(db, tx, Tx(Append(record, Some(n)), map[n := Leaf(h, record)], map[]));
    var actions := [BeginAppend(tx, record), ReadNext(tx)];
    ReadsWhenBegun(h, db, tx, record);
    InsertsWhenFree(h, db, tx, record, n);
    RunOneMore(h, db, actions, read, InsertLeaf(tx));
    RunOneMore(h, db, actions + [InsertLeaf(tx)], inserted, Commit(tx, true));
    CommitsWhenInserted(h, db, tx, record, n);
  }

  lemma ReadsWhenBegun(h: MerkleHasher, db: Db, tx: TxId, record: Bytes)
    requires db.created && tx !in db.open
    ensures Run(h, db, [BeginAppend(tx, record), ReadNext(tx)])
         == Some(Update(db, tx, Tx(Append(record, Some(NextIndex(db.leaves))), map[], map[])))
  {
    var begun := Update(db, tx, Tx(Append(record, None), map[], map[]));
    RunOneMore(h, db, [], db, BeginAppend(tx, record));
    assert [] + [BeginAppend(tx, record)] == [BeginAppend(tx, record)];
    RunOneMore(h, db, [BeginAppend(tx, record)], begun, ReadNext(tx));
    assert [BeginAppend(tx, record)] + [ReadNext(tx)] == [BeginAppend(tx, record), ReadNext(tx)];
    var read := Tx(Append(record, Some(NextIndex(db.leaves))), map[], map[]);
    assert Update(begun, tx, read) == Update(db, tx, read);
  }

  lemma CommitsWhenInserted(h: MerkleHasher, db: Db, tx: TxId, record: Bytes, n: nat)
    requires tx !in db.open
    ensures Step(h, Update(db, tx, Tx(Append(record, Some(n)), map[n := Leaf(h, record)], map[])), Commit(tx, true))
         == Some(db.(leaves := db.leaves + map[n := Leaf(h, record)]))
  {
    var t := Tx(Append(record, Some(n)), map[n := Leaf(h, record)], map[]);
    assert n in t.leafRows;
    assert db.open[tx := t] - {tx} == db.open;
    assert db.checkpoints + map[] == db.checkpoints;
  }

  lemma InsertsWhenFree(h: MerkleHasher, db: Db, tx: TxId, record: Bytes, n: nat)
    requires n !in db.leaves && !LeafLocked(db, tx, n)
    ensures var read := Update(db, tx, Tx(Append(record, Some(n)), map[], map[]));
            Step(h, read, InsertLeaf(tx))
            == Some(Update(db, tx, Tx(Append(record, Some(n)), map[n := Leaf(h, record)], map[])))
  {
    var read := Update(db, tx, Tx(Append(record, Some(n)), map[], map[]));
    var inserted := Tx(Append(record, Some(n)), map[n := Leaf(h, record)], map[]);
    assert !LeafLocked(read, tx, n) by {
      assert forall other :: other in read.open && other != tx ==>
          other in db.open && read.open[other] == db.open[other];
    }
    assert Update(read, tx, inserted) == Update(db, tx, inserted);
  }
}
