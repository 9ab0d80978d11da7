/**
 From a verdict to its proof: the records of a run, handed to the audit path in order, drained into a log shared with
 other writers, and checkpointed whenever.
 */
module ProvableVerdicts {
  import opened Prelude
  import opened MerkleHashing
  import opened MerkleProofs
  import opened Inspection
  import opened Judging
  import opened Streaming
  import opened StreamSafety
  import opened StreamCompleteness
  import O = Outbox
  import D = DurableLog
  import H = DurableLogHistory
  import S = SharedLog

  /** The records of one run are among the enqueued ones, in audit order; other runs may come between. */
  predicate HandedOver(encode: AuditRecord -> Bytes, audit: seq<AuditRecord>, enqueued: seq<Bytes>, which: seq<nat>) {
    && |which| == |audit|
    && (forall n :: 0 <= n < |which| ==> which[n] < |enqueued| && enqueued[which[n]] == encode(audit[n]))
    && (forall n, m :: 0 <= n < m < |which| ==> which[n] < which[m])
  }

  /**
   The run records its verdicts one after another: at each of these places in the sink's history a call with the next
   verdict completes. Calls of other runs may come between.
   */
  predicate RecordedAt(h: MerkleHasher, encode: AuditRecord -> Bytes, audit: seq<AuditRecord>, start: O.State,
                    actions: seq<O.Action>, sends: seq<nat>)
  {
    && |sends| == |audit|
    && (forall n, m :: 0 <= n < m < |sends| ==> sends[n] < sends[m])
    && (forall n :: 0 <= n < |sends| ==> Sent(h, start, actions, sends[n], encode(audit[n])))
  }

  /** The k-th action completes a call with this record. */
  predicate Sent(h: MerkleHasher, start: O.State, actions: seq<O.Action>, k: nat, record: Bytes) {
    && k < |actions| && actions[k].Send?
    && var before := O.Run(h, start, actions[..k]);
       before.Some? && actions[k].call in before.value.calls && before.value.calls[actions[k].call] == record
  }

  /** Which of the enqueued records those are: each comes after the sends completed before it. */
  function Enqueued(actions: seq<O.Action>, sends: seq<nat>): seq<nat> {
    seq(|sends|, n requires 0 <= n < |sends| => if sends[n] <= |actions| then O.Sends(actions[..sends[n]]) else 0)
  }

  /** With backpressure and an open channel, what is recorded in order is enqueued in order. */
  lemma RecordedInOrder(h: MerkleHasher, encode: AuditRecord -> Bytes, audit: seq<AuditRecord>, start: O.State,
                        actions: seq<O.Action>, o: O.State, sends: seq<nat>)
    requires O.Starts(start) && O.Reaches(h, start, actions, o) && start.policy == O.Block && o.drain != O.Aborted
    requires RecordedAt(h, encode, audit, start, actions, sends)
    ensures HandedOver(encode, audit, o.enqueued, Enqueued(actions, sends))
  {
    var which := Enqueued(actions, sends);
    forall n | 0 <= n < |which| ensures which[n] < |o.enqueued| && o.enqueued[which[n]] == encode(audit[n]) {
      assert Sent(h, start, actions, sends[n], encode(audit[n]));
      O.SentIsEnqueued(h, start, actions, o, sends[n]);
    }
    forall n, m | 0 <= n < m < |which| ensures which[n] < which[m] {
      assert Sent(h, start, actions, sends[n], encode(audit[n]));
      assert Sent(h, start, actions, sends[m], encode(audit[m]));
      O.SendsGrow(actions, sends[n], sends[m]);
    }
  }

  /** The loop has settled everything it was given. */
  predicate Drained(s: S.Shared) {
    s.queue == [] && s.inFlight.None?
  }

  /** The leaf at this place is the record, and every proof a head that reaches it asks for is accepted. */
  ghost predicate ProvableAt(h: MerkleHasher, db: D.Db, head: D.Head, place: nat, record: Bytes) {
    var log := D.Loaded(db.leaves);
    && head.size <= |log| && place < head.size
    && var proof := Inclusion(h, log[..head.size], place);
       proof.Some? && VerifyInclusion(h, proof.value, Leaf(h, record), head.root)
  }

  lemma {:induction false} RecordsAt(fates: seq<O.Fate>, i: nat)
    requires i < |fates|
    ensures |O.Records(fates)| == |fates| && O.Records(fates)[i] == fates[i].record
  {
    var last := |fates| - 1;
    O.RecordsLength(fates[..last]);
    if i == last {
    } else {
      RecordsAt(fates[..last], i);
    }
  }

  /** What the drained loop settled, record by record. */
  lemma SettledAt(h: MerkleHasher, start: seq<Digest>, s: S.Shared, i: nat)
    requires S.Good(h, start, s) && Drained(s) && i < |s.enqueued|
    ensures |s.fates| == |s.places| == |s.enqueued| && s.fates[i].record == s.enqueued[i]
    ensures s.places[i].Some? <==> s.fates[i].stored
    ensures s.places[i].Some? ==>
              && s.places[i].value < |D.Loaded(s.db.leaves)|
              && D.Loaded(s.db.leaves)[s.places[i].value] == Leaf(h, s.enqueued[i])
  {
    O.RecordsLength(s.fates);
    assert s.enqueued == O.Records(s.fates);
    RecordsAt(s.fates, i);
  }

  /** A settled and stored record is provable under every later head that reaches its place. */
  lemma StoredIsProvable(h: MerkleHasher, start: seq<Digest>, s: S.Shared, i: nat, more: seq<D.Action>, final: D.Db,
                         head: D.Head)
    requires S.Good(h, start, s) && Drained(s) && i < |s.enqueued| && |s.places| == |s.enqueued| && s.places[i].Some?
    requires D.Run(h, s.db, more) == Some(final) && H.Attested(final, head) && s.places[i].value < head.size
    ensures ProvableAt(h, final, head, s.places[i].value, s.enqueued[i])
  {
    SettledAt(h, start, s, i);
    H.RunFromRetains(h, s.db, more, final);
    H.LeafIsProvable(h, final, head, s.places[i].value);
  }

  /** Where the verdict of record n went, when it was stored. */
  function PlaceOfRecord(s: S.Shared, which: seq<nat>, n: nat): Option<nat>
    requires n < |which| && which[n] < |s.places|
  {
    s.places[which[n]]
  }

  /** Every record of the run whose commit took effect can be shown to be in the log, wherever the head reaches it. */
  ghost predicate AllProvable(h: MerkleHasher, encode: AuditRecord -> Bytes, audit: seq<AuditRecord>, s: S.Shared,
                              which: seq<nat>, final: D.Db, head: D.Head)
  {
    && |which| == |audit|
    && (forall n :: 0 <= n < |which| ==> which[n] < |s.places| == |s.fates|)
    && (forall n :: 0 <= n < |which| && s.fates[which[n]].stored ==>
          var place := PlaceOfRecord(s, which, n);
          place.Some? && (place.value < head.size ==> ProvableAt(h, final, head, place.value, encode(audit[n]))))
  }

  /** Later verdicts are at later places. */
  predicate InAuditOrder(s: S.Shared, which: seq<nat>) {
    && (forall n :: 0 <= n < |which| ==> which[n] < |s.places|)
    && (forall n, m :: 0 <= n < m < |which| && PlaceOfRecord(s, which, n).Some? && PlaceOfRecord(s, which, m).Some? ==>
          PlaceOfRecord(s, which, n).value < PlaceOfRecord(s, which, m).value)
  }

  lemma HandedOverIsProvable(h: MerkleHasher, start: seq<Digest>, encode: AuditRecord -> Bytes, audit: seq<AuditRecord>,
                             s: S.Shared, which: seq<nat>, more: seq<D.Action>, final: D.Db, head: D.Head)
    requires S.Good(h, start, s) && Drained(s) && HandedOver(encode, audit, s.enqueued, which)
    requires D.Run(h, s.db, more) == Some(final) && H.Attested(final, head)
    ensures AllProvable(h, encode, audit, s, which, final, head) && InAuditOrder(s, which)
  {
    O.RecordsLength(s.fates);
    forall n | 0 <= n < |which| && s.fates[which[n]].stored
      ensures var place := PlaceOfRecord(s, which, n);
        place.Some? && (place.value < head.size ==> ProvableAt(h, final, head, place.value, encode(audit[n])))
    {
      SettledAt(h, start, s, which[n]);
      if s.places[which[n]].value < head.size {
        StoredIsProvable(h, start, s, which[n], more, final, head);
      }
    }
  }

  /** Everything the run relayed after judging it rests on one of its records. */
  ghost predicate RestsOnTheAudit(r: Stream) {
    forall i: nat, n: nat :: RestsOn(r.out, i, n) ==> n < |r.trail.audit| && Passes(r.trail.audit[n].verdict)
  }

  lemma RelayedRests(env: Env, upstream: seq<Result<Bytes, Reason>>)
    requires ValidEnv(env)
    ensures RestsOnTheAudit(InspectUpstream(env, upstream))
  {
    var r := InspectUpstream(env, upstream);
    RelayedWasJudged(env, upstream);
    forall i: nat, n: nat | RestsOn(r.out, i, n) ensures n < |r.trail.audit| && Passes(r.trail.audit[n].verdict) {
      assert Justified(env, r.trail.audit, r.out[i]);
    }
  }

  /**
   The whole path. For every run of the proxy that records its verdicts one after another through a sink with
   backpressure whose channel stays open, every interleaving of the drain loop with other writers of the log, and every
   later state of the database: once the loop has drained, each verdict of the run whose commit took effect has a place
   in the log, later verdicts have later places, and under every head attested then or later that reaches the place the
   verdict has a generated inclusion proof that verifies. In particular that holds of the verdict behind everything the
   run relayed after judging it.
   */
  lemma VerdictsAreProvable(h: MerkleHasher, env: Env, upstream: seq<Result<Bytes, Reason>>,
                            encode: AuditRecord -> Bytes,
                            start: O.State, actions: seq<O.Action>, o: O.State, sends: seq<nat>,
                            before: seq<D.Action>, db: D.Db, moves: seq<S.Move>, s: S.Shared,
                            more: seq<D.Action>, final: D.Db, head: D.Head)
    requires ValidEnv(env)
    requires O.Starts(start) && O.Reaches(h, start, actions, o) && start.policy == O.Block && o.drain != O.Aborted
    requires RecordedAt(h, encode, InspectUpstream(env, upstream).trail.audit, start, actions, sends)
    requires H.Reaches(h, before, db) && S.Play(h, S.Fresh(db), moves) == Some(s) && Drained(s)
    requires s.enqueued == o.enqueued
    requires D.Run(h, s.db, more) == Some(final) && H.Attested(final, head)
    ensures AllProvable(h, encode, InspectUpstream(env, upstream).trail.audit, s, Enqueued(actions, sends), final, head)
    ensures InAuditOrder(s, Enqueued(actions, sends)) && RestsOnTheAudit(InspectUpstream(env, upstream))
  {
    var audit := InspectUpstream(env, upstream).trail.audit;
    RecordedInOrder(h, encode, audit, start, actions, o, sends);
    H.RunKeeps(h, before, db);
    S.FreshIsGood(h, db);
    S.PlayKeeps(h, D.Loaded(db.leaves), S.Fresh(db), moves);
    HandedOverIsProvable(h, D.Loaded(db.leaves), encode, audit, s, Enqueued(actions, sends), more, final, head);
    RelayedRests(env, upstream);
  }
}
