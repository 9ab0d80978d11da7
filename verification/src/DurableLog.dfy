/**
 One log in the database, as any number of concurrent transactions see it: fast appends, saves of whole
 aggregates, and checkpoint issues, each a sequence of separate statements under read-committed isolation.

 A statement that would insert a key another open transaction has inserted waits; a plain insert of a
 committed key fails; an insert with "on conflict do nothing" of a committed key does nothing. The
 digests stored are whatever the log's hasher produced; signatures are not modelled.
 */
module DurableLog {
  import opened Prelude
  import opened MerkleHashing
  import opened MerkleTree

  type TxId = nat
  type SchedulerId = nat
  type LeafRows = map<nat, Digest>

  datatype Head = Head(size: nat, root: Digest, at: int)

  /** The request a transaction serves, and how far its statements have come. */
  datatype Job =
    | Append(record: Bytes, next: Option<nat>)
    | Save(leaves: seq<Digest>, saved: nat)
    | Issue(scheduler: Option<SchedulerId>, previous: Option<nat>, at: int,
            loaded: Option<seq<Digest>>, head: Option<Head>, saved: nat)

  /** An open transaction with the rows it has inserted so far. */
  datatype Tx = Tx(job: Job, leafRows: LeafRows, checkpointRows: map<nat, Head>)

  datatype Db = Db(
    created: bool,
    leaves: LeafRows,
    checkpoints: map<nat, Head>,
    open: map<TxId, Tx>,
    lastSize: map<SchedulerId, nat>,
    issued: seq<Head>)

  const EMPTY_DB := Db(false, map[], map[], map[], map[], [])

  datatype Action =
    | CreateLog
    | BeginAppend(tx: TxId, record: Bytes)
    | ReadNext(tx: TxId)
    | InsertLeaf(tx: TxId)
    | BeginSave(tx: TxId, records: seq<Bytes>)
    | SaveRow(tx: TxId)
    | BeginIssue(tx: TxId, scheduler: Option<SchedulerId>, previous: Option<nat>, at: int)
    | Load(tx: TxId)
    | Anchor(tx: TxId)
    | Commit(tx: TxId, acknowledged: bool)
    | Rollback(tx: TxId)

  /** One past the largest index in use. */
  ghost predicate IsNextIndex(rows: LeafRows, n: nat) {
    (n > 0 ==> n - 1 in rows) && forall i :: i in rows ==> i < n
  }

  lemma {:induction false} NextIndexExists(rows: LeafRows)
    ensures exists n: nat :: IsNextIndex(rows, n)
    decreases |rows|
  {
    if rows == map[] {
      assert IsNextIndex(rows, 0);
    } else {
      var k :| k in rows;
      var rest := rows - {k};
      assert |rest.Keys| < |rows.Keys|;
      NextIndexExists(rest);
      var n: nat :| IsNextIndex(rest, n);
      var next := if k < n then n else k + 1;
      assert forall i :: i in rows && i != k ==> i in rest;
      assert IsNextIndex(rows, next);
    }
  }

  /** The index a fast append reads. */
  ghost function NextIndex(rows: LeafRows): (n: nat)
    ensures IsNextIndex(rows, n)
  {
    NextIndexExists(rows);
    var n: nat :| IsNextIndex(rows, n);
    n
  }

  /** The leaves with an index below n, by ascending index. */
  ghost function InOrder(rows: LeafRows, n: nat): seq<Digest> {
    if n == 0 then [] else InOrder(rows, n - 1) + if n - 1 in rows then [rows[n - 1]] else []
  }

  /** The log as a load reads it. */
  ghost function Loaded(rows: LeafRows): seq<Digest> {
    InOrder(rows, NextIndex(rows))
  }

  /** Another open transaction holds a row under this key. */
  ghost predicate LeafLocked(db: Db, tx: TxId, i: nat) {
    exists other :: other in db.open && other != tx && i in db.open[other].leafRows
  }

  ghost predicate CheckpointLocked(db: Db, tx: TxId, size: nat) {
    exists other :: other in db.open && other != tx && size in db.open[other].checkpointRows
  }

  function Update(db: Db, tx: TxId, t: Tx): Db {
    db.(open := db.open[tx := t])
  }

  function Close(db: Db, tx: TxId): Db {
    db.(open := db.open - {tx})
  }

  /** What a save writes: the aggregate's leaves. */
  function SavedLog(job: Job): seq<Digest> {
    match job
    case Save(leaves, _) => leaves
    case Issue(_, _, _, Some(loaded), Some(_), _) => loaded
    case _ => []
  }

  function SavedCount(job: Job): nat {
    if job.Append? then 0 else job.saved
  }

  function WithSaved(job: Job, n: nat): Job
    requires !job.Append?
  {
    match job
    case Save(leaves, _) => Save(leaves, n)
    case Issue(scheduler, previous, at, loaded, head, _) => Issue(scheduler, previous, at, loaded, head, n)
  }

  /** The caller already holds a checkpoint of the loaded size. */
  predicate IdleSkip(job: Job) {
    job.Issue? && job.loaded.Some? && job.previous == Some(|job.loaded.value|)
  }

  /** All the statements of the request have run. */
  predicate Finished(t: Tx) {
    match t.job
    case Append(_, _) => t.leafRows != map[]
    case Save(leaves, saved) => saved == |leaves|
    case Issue(_, _, _, loaded, head, saved) =>
      loaded.Some? && (IdleSkip(t.job) || (head.Some? && saved == |loaded.value|))
  }

  function IssuedHead(h: MerkleHasher, job: Job): Head
    requires job.Issue? && job.loaded.Some?
  {
    Head(|job.loaded.value|, Root(h, job.loaded.value), job.at)
  }

  /** The database after one step, if the step is possible. */
  ghost function Step(h: MerkleHasher, db: Db, a: Action): Option<Db> {
    match a
    case CreateLog => Some(db.(created := true))
    case BeginAppend(tx, record) =>
      if tx in db.open then None else Some(Update(db, tx, Tx(Append(record, None), map[], map[])))
    case BeginSave(tx, records) =>
      if tx in db.open || !db.created then None
      else Some(Update(db, tx, Tx(Save(Loaded(db.leaves) + LeafHashes(h, records), 0), map[], map[])))
    case BeginIssue(tx, scheduler, previous, at) =>
      if tx in db.open then None
      else if scheduler.Some? &&
        previous != (if scheduler.value in db.lastSize then Some(db.lastSize[scheduler.value]) else None)
      then None
      else Some(Update(db, tx, Tx(Issue(scheduler, previous, at, None, None, 0), map[], map[])))
    case ReadNext(tx) =>
      if tx !in db.open || !db.open[tx].job.Append? then None
      else if !db.created then Some(Close(db, tx))
      else
        var t := db.open[tx];
        if t.job.next.Some? then None else Some(Update(db, tx, t.(job := t.job.(next := Some(NextIndex(db.leaves))))))
    case InsertLeaf(tx) => InsertLeafStep(h, db, tx)
    case SaveRow(tx) => SaveRowStep(db, tx)
    case Load(tx) =>
      if tx !in db.open || !db.open[tx].job.Issue? || db.open[tx].job.loaded.Some? then None
      else if !db.created then Some(Close(db, tx))
      else
        var t := db.open[tx];
        Some(Update(db, tx, t.(job := t.job.(loaded := Some(Loaded(db.leaves))))))
    case Anchor(tx) => AnchorStep(h, db, tx)
    case Commit(tx, acknowledged) =>
      if tx !in db.open || !Finished(db.open[tx]) then None else Some(Committed(h, db, tx, acknowledged))
    case Rollback(tx) => if tx !in db.open then None else Some(Close(db, tx))
  }

  /** A plain insert: waits for an open holder of the key, fails on a committed one. */
  ghost function InsertLeafStep(h: MerkleHasher, db: Db, tx: TxId): Option<Db> {
    if tx !in db.open || !db.open[tx].job.Append? || db.open[tx].job.next.None? ||
      db.open[tx].leafRows != map[] then None
    else
      var t := db.open[tx];
      var i := t.job.next.value;
      if LeafLocked(db, tx, i) then None
      else if i in db.leaves then Some(Close(db, tx))
      else Some(Update(db, tx, t.(leafRows := map[i := Leaf(h, t.job.record)])))
  }

  /** A transaction one row further into its save. */
  function Advanced(t: Tx, rows: LeafRows): Tx
    requires !t.job.Append?
  {
    Tx(WithSaved(t.job, SavedCount(t.job) + 1), rows, t.checkpointRows)
  }

  /** The next row of a save: waits for an open holder of the key, does nothing on a committed one. */
  ghost function SaveRowStep(db: Db, tx: TxId): Option<Db> {
    if tx !in db.open || db.open[tx].job.Append? || SavedCount(db.open[tx].job) >= |SavedLog(db.open[tx].job)| then None
    else
      var t := db.open[tx];
      var i := SavedCount(t.job);
      if LeafLocked(db, tx, i) then None
      else
        var rows := if i in db.leaves || i in t.leafRows then t.leafRows else t.leafRows[i := SavedLog(t.job)[i]];
        Some(Update(db, tx, Advanced(t, rows)))
  }

  /** The checkpoint insert: the first row for a size stays. */
  ghost function AnchorStep(h: MerkleHasher, db: Db, tx: TxId): Option<Db> {
    if tx !in db.open || !db.open[tx].job.Issue? || db.open[tx].job.loaded.None? || db.open[tx].job.head.Some?
       || IdleSkip(db.open[tx].job) then None
    else
      var t := db.open[tx];
      var head := IssuedHead(h, t.job);
      if CheckpointLocked(db, tx, head.size) then None
      else
        var rows := if head.size in db.checkpoints then t.checkpointRows else t.checkpointRows[head.size := head];
        Some(Update(db, tx, t.(job := t.job.(head := Some(head)), checkpointRows := rows)))
  }

  /** The rows become visible at once; the caller may or may not learn of it. */
  function Committed(h: MerkleHasher, db: Db, tx: TxId, acknowledged: bool): Db
    requires tx in db.open && Finished(db.open[tx])
  {
    var t := db.open[tx];
    var visible := Close(db, tx).(leaves := db.leaves + t.leafRows, checkpoints := db.checkpoints + t.checkpointRows);
    if !acknowledged || !t.job.Issue? then visible
    else Reported(visible, IssuedHead(h, t.job), t.job.scheduler)
  }

  /** A head reached the caller; a scheduler remembers its size. */
  function Reported(db: Db, head: Head, scheduler: Option<SchedulerId>): Db {
    db.(issued := db.issued + [head],
        lastSize := if scheduler.Some? then db.lastSize[scheduler.value := head.size] else db.lastSize)
  }

  /** The database after a sequence of steps, if they are possible in that order. */
  ghost function Run(h: MerkleHasher, db: Db, actions: seq<Action>): Option<Db> {
    if actions == [] then Some(db)
    else
      var before := Run(h, db, actions[..|actions| - 1]);
      if before.None? then None else Step(h, before.value, actions[|actions| - 1])
  }

  // ---- The invariant ----

  ghost predicate Covers(rows: LeafRows, n: nat) {
    forall i: nat :: i < n ==> i in rows
  }

  /** The first n leaves of a table that has them all. */
  function Prefix(rows: LeafRows, n: nat): (leaves: seq<Digest>)
    requires Covers(rows, n)
    ensures |leaves| == n && forall i :: 0 <= i < n ==> leaves[i] == rows[i]
  {
    if n == 0 then [] else Prefix(rows, n - 1) + [rows[n - 1]]
  }

  /** The leaf indices are exactly those below the number of leaves. */
  ghost predicate Gapless(rows: LeafRows) {
    forall i: nat :: i in rows <==> i < |rows|
  }

  /** A sequence is the beginning of the committed log. */
  ghost predicate IsPrefixOf(log: seq<Digest>, rows: LeafRows) {
    forall i :: 0 <= i < |log| ==> i in rows && rows[i] == log[i]
  }

  /** A head describes the committed log as it was at that size. */
  ghost predicate Describes(h: MerkleHasher, head: Head, rows: LeafRows) {
    Covers(rows, head.size) && head.root == Root(h, Prefix(rows, head.size))
  }

  /** The rows a transaction would add continue the committed log without a gap. */
  ghost predicate Continues(rows: LeafRows, committed: LeafRows) {
    forall i: nat :: i in rows <==> |committed| <= i < |committed| + |rows|
  }

  /** What is known of one open transaction. */
  ghost predicate TxInv(h: MerkleHasher, committed: LeafRows, checkpoints: map<nat, Head>, t: Tx) {
    && Continues(t.leafRows, committed)
    && SavedCount(t.job) <= |SavedLog(t.job)|
    && (forall k: nat :: k < SavedCount(t.job) ==> k in committed || k in t.leafRows)
    && (forall size :: size in t.checkpointRows ==>
          size !in checkpoints && t.checkpointRows[size].size == size &&
            Describes(h, t.checkpointRows[size], committed))
    && match t.job
       case Append(record, next) =>
         && t.checkpointRows == map[]
         && (next.Some? ==> next.value <= |committed|)
         && (t.leafRows == map[] || (next.Some? && t.leafRows == map[next.value := Leaf(h, record)]))
       case Save(leaves, saved) =>
         && t.checkpointRows == map[]
         && (forall i :: i in t.leafRows ==> i < saved && t.leafRows[i] == leaves[i])
       case Issue(scheduler, previous, _, loaded, head, _) =>
         && t.leafRows == map[]
         && (loaded.Some? ==> IsPrefixOf(loaded.value, committed))
         && (head.Some? ==> loaded.Some? && (|loaded.value| in checkpoints || |loaded.value| in t.checkpointRows))
         && (scheduler.Some? && previous.Some? ==> previous.value in checkpoints)
  }

  ghost predicate Inv(h: MerkleHasher, db: Db) {
    && Gapless(db.leaves)
    && (forall tx :: tx in db.open ==> TxInv(h, db.leaves, db.checkpoints, db.open[tx]))
    && (forall a, b :: a in db.open && b in db.open && a != b ==>
          && (db.open[a].leafRows == map[] || db.open[b].leafRows == map[])
          && db.open[a].checkpointRows.Keys !! db.open[b].checkpointRows.Keys)
    && (forall size :: size in db.checkpoints ==>
          db.checkpoints[size].size == size && Describes(h, db.checkpoints[size], db.leaves))
    && (forall i :: 0 <= i < |db.issued| ==> Describes(h, db.issued[i], db.leaves))
    && (forall scheduler :: scheduler in db.lastSize ==> db.lastSize[scheduler] in db.checkpoints)
  }
}
