/** What every step of the database keeps, and what follows for every run. */
module DurableLogProofs {
  import opened Prelude
  import opened Collections
  import opened MerkleHashing
  import opened MerkleTree
  import opened DurableLog

  // ---- Facts about row tables ----

  lemma {:induction false} PrefixStable(rows: LeafRows, more: LeafRows, n: nat)
    requires Covers(rows, n)
    requires forall i: nat :: i < n ==> i in more && more[i] == rows[i]
    ensures Covers(more, n) && Prefix(more, n) == Prefix(rows, n)
  {
  }

  lemma PrefixIs(log: seq<Digest>, rows: LeafRows)
    requires IsPrefixOf(log, rows)
    ensures Covers(rows, |log|) && Prefix(rows, |log|) == log
  {
  }

  lemma GaplessNext(rows: LeafRows)
    requires Gapless(rows)
    ensures NextIndex(rows) == |rows|
  {
    var n := NextIndex(rows);
    assert |rows| > 0 ==> |rows| - 1 in rows;
  }

  lemma {:induction false} InOrderIsPrefix(rows: LeafRows, n: nat)
    requires Covers(rows, n)
    ensures InOrder(rows, n) == Prefix(rows, n)
  {
    if n == 0 {
    } else {
      InOrderIsPrefix(rows, n - 1);
    }
  }

  /** A table without gaps is loaded whole, each leaf at its index. */
  lemma GaplessLoads(rows: LeafRows)
    requires Gapless(rows)
    ensures Covers(rows, |rows|) && Loaded(rows) == Prefix(rows, |rows|)
  {
    GaplessNext(rows);
    InOrderIsPrefix(rows, |rows|);
  }

  /** Every row of the first table is in the second, unchanged. */
  ghost predicate Extends(more: LeafRows, rows: LeafRows) {
    forall i :: i in rows ==> i in more && more[i] == rows[i]
  }

  lemma DescribesStable(h: MerkleHasher, head: Head, rows: LeafRows, more: LeafRows)
    requires Describes(h, head, rows) && Extends(more, rows)
    ensures Describes(h, head, more)
  {
    PrefixStable(rows, more, head.size);
  }

  lemma OneMoreSize(rows: LeafRows, i: nat, leaf: Digest)
    requires i !in rows
    ensures |rows[i := leaf]| == |rows| + 1
  {
    assert rows[i := leaf].Keys == rows.Keys + {i};
  }

  lemma OneMore(rows: LeafRows, committed: LeafRows, leaf: Digest)
    requires Continues(rows, committed)
    ensures Continues(rows[|committed| + |rows| := leaf], committed)
  {
    OneMoreSize(rows, |committed| + |rows|, leaf);
  }

  lemma JoinedSize(committed: LeafRows, rows: LeafRows)
    requires Gapless(committed) && Continues(rows, committed)
    ensures |committed + rows| == |committed| + |rows| && Gapless(committed + rows) &&
        Extends(committed + rows, committed)
  {
    var all := committed + rows;
    assert all.Keys == committed.Keys + rows.Keys;
    assert committed.Keys !! rows.Keys;
    assert |all| == |all.Keys| && |rows| == |rows.Keys| && |committed| == |committed.Keys|;
  }

  // ---- Steps that touch only one open transaction ----

  ghost predicate OthersHoldNoLeaf(db: Db, tx: TxId) {
    forall other :: other in db.open && other != tx ==> db.open[other].leafRows == map[]
  }

  ghost predicate OthersHoldNone(db: Db, tx: TxId, sizes: set<nat>) {
    forall other :: other in db.open && other != tx ==> sizes !! db.open[other].checkpointRows.Keys
  }

  /** A key just past the committed log that nobody holds: nobody else holds any leaf. */
  lemma FreeMeansAlone(h: MerkleHasher, db: Db, tx: TxId)
    requires Inv(h, db) && !LeafLocked(db, tx, |db.leaves|)
    ensures OthersHoldNoLeaf(db, tx)
  {
    forall other | other in db.open && other != tx
      ensures db.open[other].leafRows == map[]
    {
      if db.open[other].leafRows != map[] {
        HolderLocks(h, db, tx, other);
        assert false;
      }
    }
  }

  lemma HolderLocks(h: MerkleHasher, db: Db, tx: TxId, other: TxId)
    requires Inv(h, db) && other in db.open && other != tx && db.open[other].leafRows != map[]
    ensures LeafLocked(db, tx, |db.leaves|)
  {
    assert TxInv(h, db.leaves, db.checkpoints, db.open[other]);
    assert |db.open[other].leafRows| > 0;
  }

  lemma UpdateKeeps(h: MerkleHasher, db: Db, tx: TxId, t: Tx)
    requires Inv(h, db) && TxInv(h, db.leaves, db.checkpoints, t)
    requires t.leafRows == map[] || OthersHoldNoLeaf(db, tx)
    requires OthersHoldNone(db, tx, t.checkpointRows.Keys)
    ensures Inv(h, Update(db, tx, t))
  {
    var open := Update(db, tx, t).open;
    forall a, b | a in open && b in open && a != b
      ensures open[a].leafRows == map[] || open[b].leafRows == map[]
      ensures open[a].checkpointRows.Keys !! open[b].checkpointRows.Keys
    {
      if a == tx { assert open[b] == db.open[b]; }
      if b == tx { assert open[a] == db.open[a]; }
    }
  }

  lemma CloseKeeps(h: MerkleHasher, db: Db, tx: TxId)
    requires Inv(h, db)
    ensures Inv(h, Close(db, tx))
  {
  }

  lemma BeginKeeps(h: MerkleHasher, db: Db, tx: TxId, job: Job)
    requires Inv(h, db)
    requires SavedCount(job) == 0 && (job.Append? ==> job.next.None?)
    requires job.Issue? ==> job.loaded.None? && job.head.None?
    requires job.Issue? && job.scheduler.Some? && job.previous.Some? ==> job.previous.value in db.checkpoints
    ensures Inv(h, Update(db, tx, Tx(job, map[], map[])))
  {
    UpdateKeeps(h, db, tx, Tx(job, map[], map[]));
  }

  lemma ReadNextKeeps(h: MerkleHasher, db: Db, tx: TxId)
    requires Inv(h, db) && tx in db.open && db.open[tx].job.Append? && db.open[tx].job.next.None?
    ensures Inv(h, Update(db, tx, db.open[tx].(job := db.open[tx].job.(next := Some(NextIndex(db.leaves))))))
  {
    var t := db.open[tx];
    assert TxInv(h, db.leaves, db.checkpoints, t);
    GaplessNext(db.leaves);
    UpdateKeeps(h, db, tx, t.(job := t.job.(next := Some(NextIndex(db.leaves)))));
  }

  lemma InsertLeafKeeps(h: MerkleHasher, db: Db, tx: TxId)
    requires Inv(h, db) && InsertLeafStep(h, db, tx).Some?
    ensures Inv(h, InsertLeafStep(h, db, tx).value)
  {
    var t := db.open[tx];
    assert TxInv(h, db.leaves, db.checkpoints, t);
    var i := t.job.next.value;
    if i in db.leaves {
      CloseKeeps(h, db, tx);
    } else {
      FreeMeansAlone(h, db, tx);
      OneMore(t.leafRows, db.leaves, Leaf(h, t.job.record));
      UpdateKeeps(h, db, tx, t.(leafRows := t.leafRows[i := Leaf(h, t.job.record)]));
    }
  }

  lemma LoadKeeps(h: MerkleHasher, db: Db, tx: TxId)
    requires Inv(h, db) && tx in db.open && db.open[tx].job.Issue? && db.open[tx].job.loaded.None?
    ensures Inv(h, Update(db, tx, db.open[tx].(job := db.open[tx].job.(loaded := Some(Loaded(db.leaves))))))
  {
    var t := db.open[tx];
    assert TxInv(h, db.leaves, db.checkpoints, t);
    GaplessLoads(db.leaves);
    UpdateKeeps(h, db, tx, t.(job := t.job.(loaded := Some(Loaded(db.leaves)))));
  }

  lemma AnchorKeeps(h: MerkleHasher, db: Db, tx: TxId)
    requires Inv(h, db) && AnchorStep(h, db, tx).Some?
    ensures Inv(h, AnchorStep(h, db, tx).value)
  {
    var t := db.open[tx];
    assert TxInv(h, db.leaves, db.checkpoints, t);
    var head := IssuedHead(h, t.job);
    PrefixIs(t.job.loaded.value, db.leaves);
    assert Describes(h, head, db.leaves);
    var rows := if head.size in db.checkpoints then t.checkpointRows else t.checkpointRows[head.size := head];
    UpdateKeeps(h, db, tx, t.(job := t.job.(head := Some(head)), checkpointRows := rows));
  }

  lemma NoGapBefore(rows: LeafRows, committed: LeafRows, i: nat)
    requires Gapless(committed) && Continues(rows, committed)
    requires i !in committed && i !in rows
    requires forall k: nat :: k < i ==> k in committed || k in rows
    ensures i == |committed| + |rows|
  {
    var k := |committed| + |rows|;
    assert k < i ==> k in committed || k in rows;
  }

  ghost predicate Saving(h: MerkleHasher, committed: LeafRows, checkpoints: map<nat, Head>, t: Tx) {
    TxInv(h, committed, checkpoints, t) && !t.job.Append? && SavedCount(t.job) < |SavedLog(t.job)|
  }

  lemma SkippedTx(h: MerkleHasher, committed: LeafRows, checkpoints: map<nat, Head>, t: Tx)
    requires Saving(h, committed, checkpoints, t)
    requires SavedCount(t.job) in committed || SavedCount(t.job) in t.leafRows
    ensures TxInv(h, committed, checkpoints, Advanced(t, t.leafRows))
  {
    assert SavedLog(Advanced(t, t.leafRows).job) == SavedLog(t.job);
  }

  lemma InsertedTx(h: MerkleHasher, committed: LeafRows, checkpoints: map<nat, Head>, t: Tx)
    requires Saving(h, committed, checkpoints, t) && Gapless(committed)
    requires SavedCount(t.job) !in committed && SavedCount(t.job) !in t.leafRows
    ensures SavedCount(t.job) == |committed| + |t.leafRows|
    ensures TxInv(h, committed, checkpoints,
                  Advanced(t, t.leafRows[SavedCount(t.job) := SavedLog(t.job)[SavedCount(t.job)]]))
  {
    var i := SavedCount(t.job);
    NoGapBefore(t.leafRows, committed, i);
    OneMore(t.leafRows, committed, SavedLog(t.job)[i]);
    assert t.job.Save? && t.checkpointRows == map[];
    assert Advanced(t, t.leafRows[i := t.job.leaves[i]]).job == Save(t.job.leaves, i + 1);
  }

  lemma SaveRowKeeps(h: MerkleHasher, db: Db, tx: TxId)
    requires Inv(h, db) && SaveRowStep(db, tx).Some?
    ensures Inv(h, SaveRowStep(db, tx).value)
  {
    var t, i := db.open[tx], SavedCount(db.open[tx].job);
    assert Saving(h, db.leaves, db.checkpoints, t);
    if i in db.leaves || i in t.leafRows {
      SkippedTx(h, db.leaves, db.checkpoints, t);
      AdvancedKeeps(h, db, tx, t, t.leafRows);
    } else {
      InsertedTx(h, db.leaves, db.checkpoints, t);
      AdvancedKeeps(h, db, tx, t, t.leafRows[i := SavedLog(t.job)[i]]);
    }
  }

  /** A transaction that holds a row, or finds the next one free, is alone in holding leaves. */
  lemma AdvancedKeeps(h: MerkleHasher, db: Db, tx: TxId, t: Tx, rows: LeafRows)
    requires Inv(h, db) && tx in db.open && t == db.open[tx] && !t.job.Append?
    requires rows == t.leafRows || !LeafLocked(db, tx, |db.leaves| + |t.leafRows|)
    requires TxInv(h, db.leaves, db.checkpoints, Advanced(t, rows))
    ensures Inv(h, Update(db, tx, Advanced(t, rows)))
  {
    assert t.leafRows != map[] ==> OthersHoldNoLeaf(db, tx);
    if t.leafRows == map[] && rows != map[] {
      FreeMeansAlone(h, db, tx);
    }
    assert OthersHoldNone(db, tx, t.checkpointRows.Keys);
    UpdateKeeps(h, db, tx, Advanced(t, rows));
  }

  // ---- Commit ----

  /** What is known of a transaction stays known when the log and the checkpoints grow. */
  lemma GrowthKeepsTx(h: MerkleHasher, db: Db, more: Db, t: Tx)
    requires TxInv(h, db.leaves, db.checkpoints, t) && Gapless(db.leaves) && Gapless(more.leaves)
    requires Extends(more.leaves, db.leaves) && db.checkpoints.Keys <= more.checkpoints.Keys
    requires more.leaves == db.leaves || t.leafRows == map[]
    requires t.checkpointRows.Keys !! more.checkpoints.Keys
    ensures TxInv(h, more.leaves, more.checkpoints, t)
  {
    assert |db.leaves| <= |more.leaves| by {
      assert db.leaves.Keys <= more.leaves.Keys;
      SubsetSize(db.leaves.Keys, more.leaves.Keys);
    }
    forall size | size in t.checkpointRows
      ensures Describes(h, t.checkpointRows[size], more.leaves)
    {
      DescribesStable(h, t.checkpointRows[size], db.leaves, more.leaves);
    }
  }

  /** The database once the rows of a transaction are visible. */
  function Published(db: Db, tx: TxId): Db
    requires tx in db.open
  {
    Close(db, tx).(leaves := db.leaves + db.open[tx].leafRows,
                   checkpoints := db.checkpoints + db.open[tx].checkpointRows)
  }

  lemma PublishedGrows(h: MerkleHasher, db: Db, tx: TxId)
    requires Inv(h, db) && tx in db.open
    ensures Gapless(Published(db, tx).leaves) && Extends(Published(db, tx).leaves, db.leaves)
    ensures db.checkpoints.Keys <= Published(db, tx).checkpoints.Keys
    ensures db.open[tx].leafRows == map[] ==> Published(db, tx).leaves == db.leaves
  {
    OpenContinues(h, db, tx);
    JoinedSize(db.leaves, db.open[tx].leafRows);
    NothingJoined(db.leaves, db.open[tx].leafRows);
  }

  lemma OpenContinues(h: MerkleHasher, db: Db, tx: TxId)
    requires Inv(h, db) && tx in db.open
    ensures Gapless(db.leaves) && Continues(db.open[tx].leafRows, db.leaves)
  {
    assert TxInv(h, db.leaves, db.checkpoints, db.open[tx]);
  }

  lemma NothingJoined(committed: LeafRows, rows: LeafRows)
    ensures rows == map[] ==> committed + rows == committed
  {
  }

  lemma PublishedOpen(h: MerkleHasher, db: Db, tx: TxId, other: TxId)
    requires Inv(h, db) && tx in db.open && other in db.open && other != tx
    ensures TxInv(h, Published(db, tx).leaves, Published(db, tx).checkpoints, db.open[other])
  {
    PublishedGrows(h, db, tx);
    assert TxInv(h, db.leaves, db.checkpoints, db.open[other]);
    assert db.open[tx].leafRows == map[] || db.open[other].leafRows == map[];
    GrowthKeepsTx(h, db, Published(db, tx), db.open[other]);
  }

  lemma PublishedCheckpoint(h: MerkleHasher, db: Db, tx: TxId, size: nat)
    requires Inv(h, db) && tx in db.open && size in Published(db, tx).checkpoints
    ensures Published(db, tx).checkpoints[size].size == size
    ensures Describes(h, Published(db, tx).checkpoints[size], Published(db, tx).leaves)
  {
    PublishedGrows(h, db, tx);
    assert TxInv(h, db.leaves, db.checkpoints, db.open[tx]);
    DescribesStable(h, Published(db, tx).checkpoints[size], db.leaves, Published(db, tx).leaves);
  }

  lemma PublishedKeeps(h: MerkleHasher, db: Db, tx: TxId)
    requires Inv(h, db) && tx in db.open
    ensures Inv(h, Published(db, tx))
  {
    var next := Published(db, tx);
    PublishedGrows(h, db, tx);
    forall other | other in next.open ensures TxInv(h, next.leaves, next.checkpoints, next.open[other]) {
      PublishedOpen(h, db, tx, other);
    }
    forall size | size in next.checkpoints
      ensures next.checkpoints[size].size == size && Describes(h, next.checkpoints[size], next.leaves)
    {
      PublishedCheckpoint(h, db, tx, size);
    }
    forall i | 0 <= i < |next.issued| ensures Describes(h, next.issued[i], next.leaves) {
      DescribesStable(h, next.issued[i], db.leaves, next.leaves);
    }
  }

  /** Reporting a head of the committed log keeps the invariant. */
  lemma ReportKeeps(h: MerkleHasher, db: Db, head: Head, scheduler: Option<SchedulerId>)
    requires Inv(h, db) && Describes(h, head, db.leaves)
    requires scheduler.Some? ==> head.size in db.checkpoints
    ensures Inv(h, Reported(db, head, scheduler))
  {
  }

  /** A finished issue reports a head that is anchored, whenever a scheduler asked for it. */
  lemma FinishedIsAnchored(h: MerkleHasher, db: Db, tx: TxId)
    requires Inv(h, db) && tx in db.open && Finished(db.open[tx]) && db.open[tx].job.Issue?
    ensures Describes(h, IssuedHead(h, db.open[tx].job), Published(db, tx).leaves)
    ensures db.open[tx].job.scheduler.Some? ==> IssuedHead(h, db.open[tx].job).size in Published(db, tx).checkpoints
  {
    var t := db.open[tx];
    assert TxInv(h, db.leaves, db.checkpoints, t);
    PrefixIs(t.job.loaded.value, db.leaves);
    PublishedGrows(h, db, tx);
  }

  lemma CommitKeeps(h: MerkleHasher, db: Db, tx: TxId, acknowledged: bool)
    requires Inv(h, db) && tx in db.open && Finished(db.open[tx])
    ensures Inv(h, Committed(h, db, tx, acknowledged))
  {
    PublishedKeeps(h, db, tx);
    if acknowledged && db.open[tx].job.Issue? {
      FinishedIsAnchored(h, db, tx);
      ReportKeeps(h, Published(db, tx), IssuedHead(h, db.open[tx].job), db.open[tx].job.scheduler);
    }
  }

  // ---- Whole runs ----

  /** A step keeps the invariant: the first statements of each request. */
  lemma OpeningStepKeeps(h: MerkleHasher, db: Db, a: Action)
    requires a.CreateLog? || a.BeginAppend? || a.BeginSave? || a.BeginIssue?
    requires Inv(h, db) && Step(h, db, a).Some?
    ensures Inv(h, Step(h, db, a).value)
  {
    match a {
      case CreateLog =>
      case BeginAppend(tx, record) =>
        BeginKeeps(h, db, tx, Append(record, None));
      case BeginSave(tx, records) =>
        BeginKeeps(h, db, tx, Save(Loaded(db.leaves) + LeafHashes(h, records), 0));
      case BeginIssue(tx, scheduler, previous, at) =>
        BeginKeeps(h, db, tx, Issue(scheduler, previous, at, None, None, 0));
    }
  }

  lemma StepKeeps(h: MerkleHasher, db: Db, a: Action)
    requires Inv(h, db) && Step(h, db, a).Some?
    ensures Inv(h, Step(h, db, a).value)
  {
    match a {
      case ReadNext(tx) =>
        if db.created { ReadNextKeeps(h, db, tx); } else { CloseKeeps(h, db, tx); }
      case InsertLeaf(tx) =>
        InsertLeafKeeps(h, db, tx);
      case SaveRow(tx) =>
        SaveRowKeeps(h, db, tx);
      case Load(tx) =>
        if db.created { LoadKeeps(h, db, tx); } else { CloseKeeps(h, db, tx); }
      case Anchor(tx) =>
        AnchorKeeps(h, db, tx);
      case Commit(tx, acknowledged) =>
        CommitKeeps(h, db, tx, acknowledged);
      case Rollback(tx) =>
        CloseKeeps(h, db, tx);
      case _ =>
        OpeningStepKeeps(h, db, a);
    }
  }
}
