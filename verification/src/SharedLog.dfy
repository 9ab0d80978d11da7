/**
 The drain loop over a log it shares: its appends are transactions of the durable log, interleaved statement by
 statement with those of any other writers. How a record gets into the channel is the sink's matter.
 */
module SharedLog {
  import opened Prelude
  import opened Collections
  import opened MerkleHashing
  import opened MerkleTree
  import D = DurableLog
  import P = DurableLogProofs
  import H = DurableLogHistory
  import opened Outbox

  datatype Shared = Shared(
    queue: seq<Bytes>,
    inFlight: Option<Bytes>,
    tx: Option<D.TxId>,
    enqueued: seq<Bytes>,
    fates: seq<Fate>,
    // Where in the log each settled record is, if it was stored.
    places: seq<Option<nat>>,
    db: D.Db)

  datatype Move =
    | Enqueue(record: Bytes)
    | Take
    | GiveUp
    | Begin(tx: D.TxId)
    | Storage(action: D.Action)

  function InHand(s: Shared): seq<Bytes> {
    if s.inFlight.Some? then [s.inFlight.value] else []
  }

  /** The request is over: what became of the record. */
  function Finished(s: Shared, appended: bool, place: Option<nat>): Shared
    requires s.inFlight.Some?
  {
    s.(inFlight := None, tx := None, fates := s.fates + [Fate(s.inFlight.value, appended, place.Some?)],
       places := s.places + [place])
  }

  /** The index a fast append has read. */
  function IndexOf(db: D.Db, tx: D.TxId): nat {
    if tx in db.open && db.open[tx].job.Append? && db.open[tx].job.next.Some? then db.open[tx].job.next.value else 0
  }

  /** One step of the loop or of any transaction, if it is possible. */
  ghost function Make(h: MerkleHasher, s: Shared, move: Move): Option<Shared> {
    match move
    case Enqueue(record) => Some(s.(queue := s.queue + [record], enqueued := s.enqueued + [record]))
    case Take =>
      if s.inFlight.Some? || s.queue == [] then None
      else Some(s.(inFlight := Some(s.queue[0]), queue := s.queue[1..]))
    case GiveUp => if s.inFlight.None? || s.tx.Some? then None else Some(Finished(s, false, None))
    case Begin(tx) =>
      if s.inFlight.None? || s.tx.Some? then None
      else
        var begun := D.Step(h, s.db, D.BeginAppend(tx, s.inFlight.value));
        if begun.None? then None else Some(s.(tx := Some(tx), db := begun.value))
    case Storage(a) =>
      var next := D.Step(h, s.db, a);
      if next.None? then None else Some(AfterStorage(s, next.value, a))
  }

  /** A step of the database; if it closed the loop's own transaction, the request is over. */
  function AfterStorage(s: Shared, next: D.Db, a: D.Action): Shared {
    if s.tx.None? || s.inFlight.None? || s.tx.value in next.open then s.(db := next)
    else Finished(s.(db := next), a.Commit? && a.acknowledged, PlaceOf(s.db, a, s.tx.value))
  }

  /** Where the loop's own transaction leaves its record when it closes. */
  function PlaceOf(db: D.Db, a: D.Action, tx: D.TxId): Option<nat> {
    if a.Commit? then Some(IndexOf(db, tx)) else None
  }

  ghost function Play(h: MerkleHasher, s: Shared, moves: seq<Move>): Option<Shared> {
    if moves == [] then Some(s)
    else
      var before := Play(h, s, moves[..|moves| - 1]);
      if before.None? then None else Make(h, before.value, moves[|moves| - 1])
  }

  // ---- The loop's own transaction ----

  /** Only its own statements move a transaction, and an append keeps its record. */
  lemma OwnJobKept(h: MerkleHasher, db: D.Db, a: D.Action, tx: D.TxId)
    requires D.Step(h, db, a).Some? && tx in db.open && db.open[tx].job.Append?
    ensures var next := D.Step(h, db, a).value;
      tx in next.open ==> next.open[tx].job.Append? && next.open[tx].job.record == db.open[tx].job.record
  {
  }

  /** A transaction that is over either committed, or left the log as it was. */
  lemma OwnClose(h: MerkleHasher, db: D.Db, a: D.Action, tx: D.TxId)
    requires D.Step(h, db, a).Some? && tx in db.open && tx !in D.Step(h, db, a).value.open
    ensures a.Commit? ==>
              && a.tx == tx && D.Finished(db.open[tx])
              && D.Step(h, db, a).value == D.Committed(h, db, tx, a.acknowledged)
    ensures !a.Commit? ==> D.Step(h, db, a).value.leaves == db.leaves
  {
    if !a.Commit? { H.OnlyCommitsPublish(h, db, a); }
  }

  /** What was added to the log since the start. */
  ghost predicate Since(h: MerkleHasher, start: seq<Digest>, s: Shared, added: seq<Digest>) {
    D.Loaded(s.db.leaves) == start + added && Subsequence(LeafHashes(h, Stored(s.fates)), added)
  }

  /** The stored records are in the log where their places say, beyond the start and in order. */
  ghost predicate Placed(h: MerkleHasher, start: nat, s: Shared) {
    var log := D.Loaded(s.db.leaves);
    && |s.places| == |s.fates|
    && (forall i :: 0 <= i < |s.places| ==> (s.places[i].Some? <==> s.fates[i].stored))
    && (forall i :: 0 <= i < |s.places| && s.places[i].Some? ==>
          start <= s.places[i].value < |log| && log[s.places[i].value] == Leaf(h, s.fates[i].record))
    && (forall i, j :: 0 <= i < j < |s.places| && s.places[i].Some? && s.places[j].Some? ==>
          s.places[i].value < s.places[j].value)
  }

  ghost predicate Good(h: MerkleHasher, start: seq<Digest>, s: Shared) {
    && D.Inv(h, s.db)
    && s.enqueued == Records(s.fates) + InHand(s) + s.queue
    && (s.tx.Some? ==>
          && s.inFlight.Some? && s.tx.value in s.db.open
          && s.db.open[s.tx.value].job.Append? && s.db.open[s.tx.value].job.record == s.inFlight.value)
    && start <= D.Loaded(s.db.leaves) && Placed(h, |start|, s)
    && exists added :: Since(h, start, s, added)
  }

  // ---- What every move keeps ----

  lemma LogGrows(h: MerkleHasher, start: seq<Digest>, s: Shared, r: Shared)
    requires (exists added :: Since(h, start, s, added)) && r.fates == s.fates
    requires D.Loaded(s.db.leaves) <= D.Loaded(r.db.leaves)
    ensures exists added :: Since(h, start, r, added)
  {
    var added :| Since(h, start, s, added);
    var more := D.Loaded(r.db.leaves)[|D.Loaded(s.db.leaves)|..];
    SubsequenceExtend(LeafHashes(h, Stored(s.fates)), added, more);
    assert D.Loaded(r.db.leaves) == start + (added + more);
    assert Since(h, start, r, added + more);
  }

  /** The record is stored: its leaf is the next one. */
  lemma StoredNext(h: MerkleHasher, start: seq<Digest>, s: Shared, r: Shared, fate: Fate)
    requires (exists added :: Since(h, start, s, added)) && r.fates == s.fates + [fate] && fate.stored
    requires D.Loaded(r.db.leaves) == D.Loaded(s.db.leaves) + [Leaf(h, fate.record)]
    ensures exists added :: Since(h, start, r, added)
  {
    var added :| Since(h, start, s, added);
    var leaf := Leaf(h, fate.record);
    OneMoreFate(h, s.fates, fate);
    SubsequenceKeep(LeafHashes(h, Stored(s.fates)), added, leaf);
    assert D.Loaded(r.db.leaves) == start + (added + [leaf]);
    assert Since(h, start, r, added + [leaf]);
  }

  lemma NotStored(h: MerkleHasher, start: seq<Digest>, s: Shared, r: Shared, fate: Fate)
    requires (exists added :: Since(h, start, s, added)) && r.fates == s.fates + [fate] && !fate.stored
    requires D.Loaded(r.db.leaves) == D.Loaded(s.db.leaves)
    ensures exists added :: Since(h, start, r, added)
  {
    var added :| Since(h, start, s, added);
    OneMoreFate(h, s.fates, fate);
    assert LeafHashes(h, Stored(s.fates)) + [] == LeafHashes(h, Stored(s.fates));
    assert Since(h, start, r, added);
  }

  lemma FinishedInOrder(h: MerkleHasher, s: Shared, appended: bool, place: Option<nat>)
    requires s.inFlight.Some? && s.enqueued == Records(s.fates) + InHand(s) + s.queue
    ensures var r := Finished(s, appended, place); r.enqueued == Records(r.fates) + InHand(r) + r.queue
  {
    OneMoreFate(h, s.fates, Fate(s.inFlight.value, appended, place.Some?));
  }

  /** Places stay right while the log grows. */
  lemma PlacedLater(h: MerkleHasher, start: nat, s: Shared, r: Shared)
    requires Placed(h, start, s) && r.fates == s.fates && r.places == s.places
    requires D.Loaded(s.db.leaves) <= D.Loaded(r.db.leaves)
    ensures Placed(h, start, r)
  {
  }

  /** The log stays as it is, or the record becomes its next leaf, at this place. */
  ghost predicate Adds(h: MerkleHasher, db: D.Db, next: D.Db, place: Option<nat>, record: Bytes) {
    var log := D.Loaded(db.leaves);
    && (place.None? ==> D.Loaded(next.leaves) == log)
    && (place.Some? ==> place.value == |log| && D.Loaded(next.leaves) == log + [Leaf(h, record)])
  }

  /** One more record is settled: not stored, or stored as the next leaf. */
  lemma PlacedNext(h: MerkleHasher, start: nat, s: Shared, r: Shared, fate: Fate, place: Option<nat>)
    requires Placed(h, start, s) && r.fates == s.fates + [fate] && r.places == s.places + [place]
    requires fate.stored <==> place.Some?
    requires start <= |D.Loaded(s.db.leaves)|
    requires Adds(h, s.db, r.db, place, fate.record)
    ensures Placed(h, start, r)
  {
  }

  /** While the loop's own transaction, if there is one, stays open, the log only grows. */
  lemma OpenKeeps(h: MerkleHasher, start: seq<Digest>, s: Shared, a: D.Action)
    requires Good(h, start, s) && D.Step(h, s.db, a).Some?
    requires s.tx.None? || s.tx.value in D.Step(h, s.db, a).value.open
    ensures Good(h, start, s.(db := D.Step(h, s.db, a).value))
  {
    var r := s.(db := D.Step(h, s.db, a).value);
    P.StepKeeps(h, s.db, a);
    H.StepRetains(h, s.db, a);
    LogGrows(h, start, s, r);
    PlacedLater(h, |start|, s, r);
    if s.tx.Some? { OwnJobKept(h, s.db, a, s.tx.value); }
  }

  lemma CloseAdds(h: MerkleHasher, db: D.Db, a: D.Action, tx: D.TxId)
    requires D.Inv(h, db) && D.Step(h, db, a).Some? && tx in db.open && db.open[tx].job.Append?
    requires tx !in D.Step(h, db, a).value.open
    ensures D.Inv(h, D.Step(h, db, a).value)
    ensures Adds(h, db, D.Step(h, db, a).value, PlaceOf(db, a, tx), db.open[tx].job.record)
  {
    P.StepKeeps(h, db, a);
    OwnClose(h, db, a, tx);
    if a.Commit? { H.AppendCommits(h, db, tx, a.acknowledged); }
  }

  lemma StorageKeeps(h: MerkleHasher, start: seq<Digest>, s: Shared, next: D.Db, a: D.Action)
    requires Good(h, start, s) && D.Step(h, s.db, a) == Some(next)
    ensures Good(h, start, AfterStorage(s, next, a))
  {
    if s.tx.None? || s.tx.value in next.open {
      OpenKeeps(h, start, s, a);
    } else {
      CloseAdds(h, s.db, a, s.tx.value);
      SettledKeeps(h, start, s, next, a.Commit? && a.acknowledged, PlaceOf(s.db, a, s.tx.value));
    }
  }

  /** A record is settled over the database as it then is. */
  lemma SettledKeeps(h: MerkleHasher, start: seq<Digest>, s: Shared, next: D.Db, appended: bool, place: Option<nat>)
    requires Good(h, start, s) && s.inFlight.Some? && D.Inv(h, next)
    requires Adds(h, s.db, next, place, s.inFlight.value)
    ensures Good(h, start, Finished(s.(db := next), appended, place))
  {
    var r := Finished(s.(db := next), appended, place);
    var fate := Fate(s.inFlight.value, appended, place.Some?);
    FinishedInOrder(h, s, appended, place);
    PlacedNext(h, |start|, s, r, fate, place);
    if place.Some? {
      StoredNext(h, start, s, r, fate);
    } else {
      NotStored(h, start, s, r, fate);
    }
  }

  /** Moving records along the queue touches nothing else. */
  lemma QueueKeeps(h: MerkleHasher, start: seq<Digest>, s: Shared, r: Shared)
    requires Good(h, start, s)
    requires r == s.(queue := r.queue, inFlight := r.inFlight, enqueued := r.enqueued)
    requires s.tx.Some? ==> r.inFlight == s.inFlight
    requires r.enqueued == Records(r.fates) + InHand(r) + r.queue
    ensures Good(h, start, r)
  {
    LogGrows(h, start, s, r);
    PlacedLater(h, |start|, s, r);
  }

  lemma HeadMoves(settled: seq<Bytes>, queue: seq<Bytes>)
    requires queue != []
    ensures settled + [] + queue == settled + [queue[0]] + queue[1..]
  {
    assert queue == [queue[0]] + queue[1..];
  }

  lemma TakeInOrder(s: Shared)
    requires s.enqueued == Records(s.fates) + InHand(s) + s.queue && s.inFlight.None? && s.queue != []
    ensures var r := s.(inFlight := Some(s.queue[0]), queue := s.queue[1..]);
            r.enqueued == Records(r.fates) + InHand(r) + r.queue
  {
    HeadMoves(Records(s.fates), s.queue);
  }

  lemma BeginKeeps(h: MerkleHasher, start: seq<Digest>, s: Shared, tx: D.TxId)
    requires Good(h, start, s) && Make(h, s, Begin(tx)).Some?
    ensures Good(h, start, Make(h, s, Begin(tx)).value)
  {
    P.StepKeeps(h, s.db, D.BeginAppend(tx, s.inFlight.value));
    LogGrows(h, start, s, Make(h, s, Begin(tx)).value);
    PlacedLater(h, |start|, s, Make(h, s, Begin(tx)).value);
  }

  lemma MakeKeeps(h: MerkleHasher, start: seq<Digest>, s: Shared, move: Move)
    requires Good(h, start, s) && Make(h, s, move).Some?
    ensures Good(h, start, Make(h, s, move).value)
  {
    match move {
      case GiveUp =>
        SettledKeeps(h, start, s, s.db, false, None);
      case Begin(tx) => BeginKeeps(h, start, s, tx);
      case Storage(a) => StorageKeeps(h, start, s, D.Step(h, s.db, a).value, a);
      case Enqueue(record) => QueueKeeps(h, start, s, Make(h, s, move).value);
      case Take =>
        TakeInOrder(s);
        QueueKeeps(h, start, s, Make(h, s, move).value);
    }
  }

  lemma {:induction false} PlayKeeps(h: MerkleHasher, start: seq<Digest>, s: Shared, moves: seq<Move>)
    requires Good(h, start, s) && Play(h, s, moves).Some?
    ensures Good(h, start, Play(h, s, moves).value)
  {
    if moves == [] {
    } else {
      var before := Play(h, s, moves[..|moves| - 1]).value;
      PlayKeeps(h, start, s, moves[..|moves| - 1]);
      MakeKeeps(h, start, before, moves[|moves| - 1]);
    }
  }

  /** The loop before it has taken anything, over a database in any state. */
  function Fresh(db: D.Db): Shared {
    Shared([], None, None, [], [], [], db)
  }

  lemma FreshIsGood(h: MerkleHasher, db: D.Db)
    requires D.Inv(h, db)
    ensures Good(h, D.Loaded(db.leaves), Fresh(db))
  {
    var start := D.Loaded(db.leaves);
    assert start + [] == start && Since(h, start, Fresh(db), []);
  }

  /**
   Whatever other writers do, from any state the database can be in: the records the loop stored are in what was added
   to the log, in the order they were enqueued, and what is not yet settled is still in hand or queued in order.
   */
  lemma QueueOrderSurvivesOtherWriters(h: MerkleHasher, before: seq<D.Action>, db: D.Db, moves: seq<Move>, s: Shared)
    requires H.Reaches(h, before, db) && Play(h, Fresh(db), moves) == Some(s)
    ensures D.Loaded(db.leaves) <= D.Loaded(s.db.leaves)
    ensures Subsequence(LeafHashes(h, Stored(s.fates)), D.Loaded(s.db.leaves)[|D.Loaded(db.leaves)|..])
    ensures s.enqueued == Records(s.fates) + InHand(s) + s.queue
  {
    var start := D.Loaded(db.leaves);
    H.RunKeeps(h, before, db);
    FreshIsGood(h, db);
    PlayKeeps(h, start, Fresh(db), moves);
    var added :| Since(h, start, s, added);
    assert D.Loaded(s.db.leaves)[|start|..] == added;
  }
}
