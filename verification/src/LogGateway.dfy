/** The aggregate a log is loaded into, and the statements of the write-side gateway run one after another. */
module LogGateway {
  import opened Prelude
  import opened MerkleHashing
  import opened MerkleTree
  import opened MerkleProofs
  import opened DurableLog
  import opened DurableLogProofs
  import opened DurableLogHistory
  import Pipeline

  datatype AuditEvent =
    | RecordAppended(index: nat, leaf: Digest)
    | CheckpointIssued(head: Head)

  /** What an event says holds of these leaves. */
  predicate Truthful(h: MerkleHasher, leaves: seq<Digest>, event: AuditEvent) {
    match event
    case RecordAppended(index, leaf) => index < |leaves| && leaves[index] == leaf
    case CheckpointIssued(head) => head.size <= |leaves| && head.root == Root(h, leaves[..head.size])
  }

  lemma TruthfulLater(h: MerkleHasher, leaves: seq<Digest>, leaf: Digest, event: AuditEvent)
    requires Truthful(h, leaves, event)
    ensures Truthful(h, leaves + [leaf], event)
  {
    if event.CheckpointIssued? {
      assert (leaves + [leaf])[..event.head.size] == leaves[..event.head.size];
    }
  }

  class TransparencyLog {
    const hasher: MerkleHasher
    var leaves: seq<Digest>
    var events: seq<AuditEvent>

    /** Every event recorded so far still tells the truth about the log. */
    ghost predicate Valid()
      reads this
    {
      forall i :: 0 <= i < |events| ==> Truthful(hasher, leaves, events[i])
    }

    /** A log reconstituted from stored leaves starts with no events. */
    constructor (hasher: MerkleHasher, leaves: seq<Digest>)
      ensures Valid() && this.hasher == hasher && this.leaves == leaves && events == []
    {
      this.hasher := hasher;
      this.leaves := leaves;
      this.events := [];
    }

    /**
     The record becomes the leaf at the returned index, provable against the new root, and the new root is provably
     consistent with the one before; what earlier events said stays true.
     */
    method Append(record: Bytes) returns (index: nat)
      requires Valid()
      modifies this
      ensures Valid() && index == |old(leaves)| && leaves == old(leaves) + [Leaf(hasher, record)]
      ensures events == old(events) + [RecordAppended(index, leaves[index])]
      ensures ProveInclusion(index).Some?
           && VerifyInclusion(hasher, ProveInclusion(index).value, Leaf(hasher, record), HeadAt(0).root)
      ensures old(leaves) != [] ==>
                && ProveConsistency(index).Some?
                && VerifyConsistency(hasher, ProveConsistency(index).value, old(HeadAt(0).root), HeadAt(0).root)
    {
      index := |leaves|;
      var leaf := Leaf(hasher, record);
      forall i | 0 <= i < |events| ensures Truthful(hasher, leaves + [leaf], events[i]) {
        TruthfulLater(hasher, leaves, leaf, events[i]);
      }
      leaves := leaves + [leaf];
      assert leaves[..index] == old(leaves);
      events := events + [RecordAppended(index, leaf)];
    }

    function HeadAt(at: int): (head: Head)
      reads this
    {
      Head(|leaves|, Root(hasher, leaves), at)
    }

    method IssueCheckpoint(at: int) returns (head: Head)
      requires Valid()
      modifies this
      ensures Valid() && leaves == old(leaves) && head == HeadAt(at)
      ensures events == old(events) + [CheckpointIssued(head)]
    {
      head := HeadAt(at);
      assert leaves[..|leaves|] == leaves;
      events := events + [CheckpointIssued(head)];
    }

    /** Every checkpoint issued so far, if not empty, is linked to the present head by a proof that verifies. */
    lemma CheckpointsStayLinked(i: nat)
      requires Valid() && i < |events| && events[i].CheckpointIssued? && events[i].head.size > 0
      ensures ProveConsistency(events[i].head.size).Some?
           && VerifyConsistency(hasher, ProveConsistency(events[i].head.size).value, events[i].head.root,
                                HeadAt(0).root)
    {
      assert Truthful(hasher, leaves, events[i]);
    }

    /** A proof for exactly the indices of the log, valid against its head. */
    function ProveInclusion(index: nat): (proof: Option<InclusionProof>)
      reads this
      ensures proof.Some? <==> index < |leaves|
      ensures proof.Some? ==> VerifyInclusion(hasher, proof.value, leaves[index], HeadAt(0).root)
    {
      InclusionComplete(hasher, leaves, index);
      Inclusion(hasher, leaves, index)
    }

    /** A proof from exactly the sizes the log has passed, valid from the root it then had to its head. */
    function ProveConsistency(firstSize: nat): (proof: Option<ConsistencyProof>)
      reads this
      ensures proof.Some? <==> 1 <= firstSize <= |leaves|
      ensures proof.Some? ==>
                VerifyConsistency(hasher, proof.value, Root(hasher, leaves[..firstSize]), HeadAt(0).root)
    {
      ConsistencyComplete(hasher, leaves, firstSize);
      Consistency(hasher, leaves, firstSize)
    }
  }

  /** The rows a save leaves behind: stored rows stay, missing ones are added. */
  ghost predicate SavedOver(after: LeafRows, before: LeafRows, leaves: seq<Digest>) {
    && (forall i: nat :: i in after <==> i in before || i < |leaves|)
    && (forall i :: i in after ==> after[i] == if i in before then before[i] else leaves[i])
  }

  lemma NextIndexIsUnique(rows: LeafRows, n: nat)
    requires IsNextIndex(rows, n)
    ensures n == NextIndex(rows)
  {
    var m := NextIndex(rows);
    assert n > 0 ==> n - 1 < m;
    assert m > 0 ==> m - 1 < n;
  }

  lemma OneRow(rows: LeafRows, leaf: Digest)
    ensures Continues(map[|rows| := leaf], rows)
  {
    OneMoreSize(map[], |rows|, leaf);
  }

  lemma AppendedLoads(rows: LeafRows, leaf: Digest)
    requires Gapless(rows)
    ensures NextIndex(rows) == |Loaded(rows)| && Loaded(rows[NextIndex(rows) := leaf]) == Loaded(rows) + [leaf]
  {
    GaplessLoads(rows);
    GaplessNext(rows);
    OneRow(rows, leaf);
    SingleRow(rows, |rows|, leaf);
    assert rows[|rows| := leaf] == rows + map[|rows| := leaf];
  }

  /** Saving what was just loaded changes no leaf. */
  lemma SavingTheLoaded(after: LeafRows, before: LeafRows)
    requires Gapless(before) && SavedOver(after, before, Loaded(before))
    ensures after == before
  {
    GaplessLoads(before);
  }

  /** The tables as the statements of one transaction see them, with no other transaction between. */
  class PostgresGateway {
    const hasher: MerkleHasher
    var created: bool
    var rows: LeafRows
    var checkpoints: map<nat, Head>

    constructor (hasher: MerkleHasher)
      ensures this.hasher == hasher && !created && rows == map[] && checkpoints == map[]
    {
      this.hasher := hasher;
      created, rows, checkpoints := false, map[], map[];
    }

    /** One past the largest stored index. */
    method ReadNextIndex() returns (next: nat)
      ensures next == NextIndex(rows)
    {
      next := 0;
      var keys := rows.Keys;
      while keys != {}
        invariant keys <= rows.Keys
        invariant next > 0 ==> next - 1 in rows
        invariant forall i :: i in rows && i !in keys ==> i < next
        decreases |keys|
      {
        var i :| i in keys;
        keys := keys - {i};
        if next <= i { next := i + 1; }
      }
      NextIndexIsUnique(rows, next);
    }

    /** The stored log, its leaves by ascending index; nothing when there is no log row. */
    method Load() returns (log: Option<TransparencyLog>)
      ensures log.Some? <==> created
      ensures log.Some? ==> fresh(log.value) && log.value.Valid() && log.value.hasher == hasher
      ensures log.Some? ==> log.value.leaves == Loaded(rows) && log.value.events == []
    {
      if !created { return None; }
      var next := ReadNextIndex();
      var leaves, i := [], 0;
      while i < next
        invariant i <= next && leaves == InOrder(rows, i)
      {
        if i in rows { leaves := leaves + [rows[i]]; }
        i := i + 1;
      }
      var aggregate := new TransparencyLog(hasher, leaves);
      return Some(aggregate);
    }

    /** Stores the log row and every leaf; a leaf already stored under its index is left as it is. */
    method Save(log: TransparencyLog)
      modifies this
      ensures created && checkpoints == old(checkpoints)
      ensures SavedOver(rows, old(rows), log.leaves)
    {
      created := true;
      var i := 0;
      while i < |log.leaves|
        invariant i <= |log.leaves| && created && checkpoints == old(checkpoints)
        invariant SavedOver(rows, old(rows), log.leaves[..i])
      {
        if i !in rows { rows := rows[i := log.leaves[i]]; }
        i := i + 1;
      }
      assert log.leaves[..i] == log.leaves;
    }

    /**
     One leaf in place. Run alone it never meets a stored index, and on a log without gaps the new log loads as
     the old one with the record appended, under the index the aggregate would have given it.
     */
    method AppendRecord(record: Bytes) returns (r: Result<Option<nat>, Pipeline.AuditError>)
      modifies this
      ensures created == old(created) && checkpoints == old(checkpoints)
      ensures !created ==> r == Ok(None) && rows == old(rows)
      ensures created ==> r.Ok? && r.value.Some? && rows == old(rows)[r.value.value := Leaf(hasher, record)]
      ensures created ==> r.value.value !in old(rows)
      ensures created && Gapless(old(rows)) ==>
                r.value == Some(|Loaded(old(rows))|) && Loaded(rows) == Loaded(old(rows)) + [Leaf(hasher, record)]
    {
      if !created { return Ok(None); }
      var next := ReadNextIndex();
      if Gapless(rows) { AppendedLoads(rows, Leaf(hasher, record)); }
      var inserted := InsertLeaf(next, Leaf(hasher, record));
      r := if inserted then Ok(Some(next)) else Err(Pipeline.Storage);
    }

    /** A plain insert: a stored index is refused, not overwritten and not skipped. */
    method InsertLeaf(index: nat, leaf: Digest) returns (inserted: bool)
      modifies this`rows
      ensures inserted <==> index !in old(rows)
      ensures rows == if inserted then old(rows)[index := leaf] else old(rows)
    {
      inserted := index !in rows;
      if inserted { rows := rows[index := leaf]; }
    }

    /** The first checkpoint of a size stays. */
    method Anchor(head: Head)
      modifies this`checkpoints
      ensures checkpoints == if head.size in old(checkpoints) then old(checkpoints)
                             else old(checkpoints)[head.size := head]
    {
      if head.size !in checkpoints { checkpoints := checkpoints[head.size := head]; }
    }
  }

  // ---- When saving the loaded log changes nothing ----

  /** The indices in use below n. */
  function Below(rows: LeafRows, n: nat): set<nat> {
    set k | k in rows && k < n
  }

  lemma {:induction false} InOrderSize(rows: LeafRows, n: nat)
    ensures |InOrder(rows, n)| == |Below(rows, n)|
  {
    if n == 0 {
      assert Below(rows, 0) == {};
    } else {
      InOrderSize(rows, n - 1);
      assert Below(rows, n) == Below(rows, n - 1) + if n - 1 in rows then {n - 1} else {};
    }
  }

  lemma LoadedSize(rows: LeafRows)
    ensures |Loaded(rows)| == |rows|
  {
    InOrderSize(rows, NextIndex(rows));
    assert Below(rows, NextIndex(rows)) == rows.Keys;
  }

  lemma {:induction false} FullKeys(keys: set<nat>, n: nat)
    requires |keys| == n && forall i: nat :: i < n ==> i in keys
    ensures forall i :: i in keys ==> i < n
    decreases n
  {
    if n == 0 {
    } else {
      var rest := keys - {n - 1};
      FullKeys(rest, n - 1);
      forall i | i in keys ensures i < n {
        if i != n - 1 { assert i in rest; }
      }
    }
  }

  /** Saving what was just loaded leaves the leaves alone exactly if the table has no gap. */
  lemma SavingLoadedIsNoOp(after: LeafRows, before: LeafRows)
    requires SavedOver(after, before, Loaded(before))
    ensures after == before <==> Gapless(before)
  {
    LoadedSize(before);
    if Gapless(before) {
      SavingTheLoaded(after, before);
    }
    if after == before {
      FullKeys(before.Keys, |before|);
    }
  }

  /** The handler anchors and saves: the log exists, the key is known, and the caller does not hold this size. */
  predicate Anchors(created: bool, key: bool, previous: Option<nat>, size: nat) {
    created && key && previous != Some(size)
  }

  /**
   The checkpoint handler: the head of the stored log, anchored unless its size was already anchored or is the one the
   caller holds. On an error, or when there is nothing new, nothing changes; otherwise the leaves stay as they are
   exactly if they had no gap.
   */
  method IssueCheckpoint(gateway: PostgresGateway, key: bool, previous: Option<nat>, at: int)
    returns (r: Result<Head, Pipeline.AuditError>)
    modifies gateway
    ensures gateway.created == old(gateway.created)
    ensures var log := Loaded(old(gateway.rows));
      r == if !gateway.created then Err(Pipeline.LogNotFound)
           else if !key then Err(Pipeline.KeyNotFound)
           else Ok(Head(|log|, Root(gateway.hasher, log), at))
    ensures !Anchors(gateway.created, key, previous, |Loaded(old(gateway.rows))|) ==>
              gateway.rows == old(gateway.rows) && gateway.checkpoints == old(gateway.checkpoints)
    ensures Anchors(gateway.created, key, previous, |Loaded(old(gateway.rows))|) ==>
              && SavedOver(gateway.rows, old(gateway.rows), Loaded(old(gateway.rows)))
              && (gateway.rows == old(gateway.rows) <==> Gapless(old(gateway.rows)))
              && gateway.checkpoints == if r.value.size in old(gateway.checkpoints) then old(gateway.checkpoints)
                                        else old(gateway.checkpoints)[r.value.size := r.value]
  {
    var loaded := gateway.Load();
    if loaded.None? { return Err(Pipeline.LogNotFound); }
    var log := loaded.value;
    if !key { return Err(Pipeline.KeyNotFound); }
    if previous == Some(|log.leaves|) { return Ok(log.HeadAt(at)); }
    var head := log.IssueCheckpoint(at);
    gateway.Anchor(head);
    gateway.Save(log);
    SavingLoadedIsNoOp(gateway.rows, old(gateway.rows));
    return Ok(head);
  }

  class CheckpointScheduler {
    var lastSize: Option<nat>

    constructor ()
      ensures lastSize == None
    {
      lastSize := None;
    }

    /** The size it remembers is anchored. */
    ghost predicate Remembers(gateway: PostgresGateway)
      reads this, gateway
    {
      lastSize.Some? ==> lastSize.value in gateway.checkpoints
    }

    /**
     One tick. A failed issue changes nothing at all; a successful one leaves the current size anchored and remembered,
     no anchored checkpoint altered, and the leaves of a log without gaps untouched.
     */
    method Tick(gateway: PostgresGateway, reachable: bool, key: bool, at: int)
      requires Remembers(gateway)
      modifies this, gateway
      ensures Remembers(gateway) && gateway.created == old(gateway.created)
      ensures !(reachable && key && gateway.created) ==>
                && lastSize == old(lastSize) && gateway.rows == old(gateway.rows)
                && gateway.checkpoints == old(gateway.checkpoints)
      ensures reachable && key && gateway.created ==> lastSize == Some(|Loaded(old(gateway.rows))|)
      ensures Gapless(old(gateway.rows)) ==> gateway.rows == old(gateway.rows)
      ensures forall size :: size in old(gateway.checkpoints) ==>
                size in gateway.checkpoints && gateway.checkpoints[size] == old(gateway.checkpoints)[size]
    {
      if !reachable { return; }
      var issued := IssueCheckpoint(gateway, key, lastSize, at);
      if issued.Ok? { lastSize := Some(issued.value.size); }
    }
  }
}
