/** Session memory as a guard: once a tool has been denied, a ledger that does not forget keeps it denied. */
module StreamQuarantine {
  import opened Prelude
  import opened Inspection
  import opened RunMachine
  import opened Judging
  import opened Streaming
  import opened StreamDenials

  /** Exactly what was remembered is recalled. */
  ghost predicate Faithful(o: Oracles) {
    forall n: nat, name: Bytes, ledger: Ledger :: o.recall(n, name, ledger).Some? <==> name in ledger
  }

  predicate IsDeniedCall(record: AuditRecord) {
    record.event.ToolCall? && record.verdict.Deny?
  }

  predicate IsSameTool(a: AuditRecord, b: AuditRecord) {
    a.event.ToolCall? && b.event.ToolCall? && a.event.name == b.event.name
  }

  /** A denied tool is denied from then on. */
  predicate StaysDenied(audit: seq<AuditRecord>) {
    forall i, j :: 0 <= i < j < |audit| && IsDeniedCall(audit[i]) && IsSameTool(audit[i], audit[j]) ==>
      audit[j].verdict.Deny?
  }

  /** No call of a tool the session held against it is let through. */
  predicate HeldAgainst(session: Ledger, audit: seq<AuditRecord>) {
    forall i :: 0 <= i < |audit| && audit[i].event.ToolCall? && audit[i].event.name in session ==>
                  audit[i].verdict.Deny?
  }

  predicate DeniedIn(audit: seq<AuditRecord>, name: Bytes) {
    exists i :: 0 <= i < |audit| && IsDeniedCall(audit[i]) && audit[i].event.name == name
  }

  /** The ledger holds exactly what the session brought and what was denied since, and all of it stays denied. */
  ghost predicate Quarantined(session: Ledger, t: Trail) {
    && StaysDenied(t.audit) && HeldAgainst(session, t.audit)
    && (forall name :: name in t.ledger <==> name in session || DeniedIn(t.audit, name))
  }

  // ---- One run ----

  /** Each record is the judgement of its event by these oracles, given the records before it. */
  predicate AllRuled(env: Env, audit: seq<AuditRecord>) {
    forall n: nat :: n < |audit| ==> Ruled(env, audit, n)
  }

  lemma DeniedSnoc(audit: seq<AuditRecord>, record: AuditRecord, name: Bytes)
    ensures DeniedIn(audit + [record], name) <==>
              DeniedIn(audit, name) || (IsDeniedCall(record) && record.event.name == name)
  {
    var all := audit + [record];
    if DeniedIn(audit, name) {
      var i :| 0 <= i < |audit| && IsDeniedCall(audit[i]) && audit[i].event.name == name;
      assert all[i] == audit[i];
    }
    if IsDeniedCall(record) && record.event.name == name {
      assert all[|audit|] == record;
    }
  }

  /** One more judgement: a tool in the ledger is denied, and a denied tool is in the ledger. */
  lemma RecordQuarantines(o: Oracles, session: Ledger, t: Trail, event: AgentEvent)
    requires Faithful(o) && Quarantined(session, t)
    ensures Quarantined(session, Recorded(o, t, event))
  {
    var t1 := Recorded(o, t, event);
    var record := AuditRecord(event, Judged(o, t, event));
    if event.ToolCall? {
      assert o.recall(|t.audit|, event.name, t.ledger).Some? <==> event.name in t.ledger;
    }
    forall name ensures name in t1.ledger <==> name in session || DeniedIn(t1.audit, name) {
      DeniedSnoc(t.audit, record, name);
    }
    forall i | 0 <= i < |t.audit| && IsDeniedCall(t.audit[i]) && IsSameTool(t.audit[i], record)
      ensures record.verdict.Deny?
    {
      assert DeniedIn(t.audit, event.name);
    }
  }

  lemma {:induction false} RulingQuarantines(env: Env, audit: seq<AuditRecord>)
    requires Faithful(env.oracles) && AllRuled(env, audit)
    ensures Quarantined(env.session, Trail(audit, LedgerAfter(env.oracles, env.session, audit)))
  {
    if audit == [] {
    } else {
      var n := |audit| - 1;
      var before := Trail(audit[..n], LedgerAfter(env.oracles, env.session, audit[..n]));
      forall k: nat | k < n ensures Ruled(env, audit[..n], k) {
        assert audit[..n][..k] == audit[..k] && Ruled(env, audit, k);
      }
      RulingQuarantines(env, audit[..n]);
      RecordQuarantines(env.oracles, env.session, before, audit[n].event);
      assert Ruled(env, audit, n) && audit == audit[..n] + [audit[n]];
      assert Recorded(env.oracles, before, audit[n].event)
          == Trail(audit, LedgerAfter(env.oracles, env.session, audit));
    }
  }

  lemma RunQuarantines(env: Env, upstream: seq<Result<Bytes, Reason>>)
    requires ValidEnv(env) && Faithful(env.oracles)
    ensures Quarantined(env.session, InspectUpstream(env, upstream).trail)
  {
    var r := InspectUpstream(env, upstream);
    DenialsAreCarriedOut(env, upstream);
    forall n: nat | n < |r.trail.audit| ensures Ruled(env, r.trail.audit, n) {
      assert CarriedOut(env, r.log, r.lost, r.trail.audit, n);
    }
    RulingQuarantines(env, r.trail.audit);
  }

  // ---- The runs of a session ----

  /** One response of a session: who judges it, and what the upstream sends. */
  datatype Response = Response(env: Env, upstream: seq<Result<Bytes, Reason>>)

  ghost predicate AllFaithful(runs: seq<Response>) {
    forall i :: 0 <= i < |runs| ==> ValidEnv(runs[i].env) && Faithful(runs[i].env.oracles)
  }

  /** What the proxy does with a response, given what the session remembers. */
  ghost function RunIn(session: Ledger, run: Response): Stream
    requires ValidEnv(run.env)
  {
    var env := run.env.(session := session);
    assert ValidEnv(env) by {
      forall n: nat, ids: set<Id> ensures Enumerates(env.order(n, ids), ids) {
        assert Enumerates(run.env.order(n, ids), ids);
      }
    }
    InspectUpstream(env, run.upstream)
  }

  /** The records of consecutive runs, each begun with the ledger the one before left, and the ledger at the end. */
  ghost function Session(session: Ledger, runs: seq<Response>): Trail
    requires AllFaithful(runs)
  {
    if runs == [] then Trail([], session)
    else
      var before := Session(session, runs[..|runs| - 1]);
      var last := RunIn(before.ledger, runs[|runs| - 1]).trail;
      Trail(before.audit + last.audit, last.ledger)
  }

  lemma {:induction false} DeniedConcat(a: seq<AuditRecord>, b: seq<AuditRecord>, name: Bytes)
    ensures DeniedIn(a + b, name) <==> DeniedIn(a, name) || DeniedIn(b, name)
    decreases |b|
  {
    if b == [] {
      assert a + b == a;
    } else {
      var front, last := b[..|b| - 1], b[|b| - 1];
      DeniedConcat(a, front, name);
      DeniedSnoc(a + front, last, name);
      DeniedSnoc(front, last, name);
      assert a + b == (a + front) + [last] && b == front + [last];
    }
  }

  /** A run begun with the ledger another left goes on with its quarantine. */
  lemma QuarantineGoesOn(session: Ledger, first: Trail, second: Trail)
    requires Quarantined(session, first) && Quarantined(first.ledger, second)
    ensures Quarantined(session, Trail(first.audit + second.audit, second.ledger))
  {
    var all := first.audit + second.audit;
    forall name ensures name in second.ledger <==> name in session || DeniedIn(all, name) {
      DeniedConcat(first.audit, second.audit, name);
    }
    forall i, j | 0 <= i < j < |all| && IsDeniedCall(all[i]) && IsSameTool(all[i], all[j])
      ensures all[j].verdict.Deny?
    {
      if i < |first.audit| <= j {
        assert DeniedIn(first.audit, all[i].event.name);
        assert all[j] == second.audit[j - |first.audit|];
      } else if |first.audit| <= i {
        assert all[i] == second.audit[i - |first.audit|] && all[j] == second.audit[j - |first.audit|];
      }
    }
  }

  /**
   Over any number of consecutive runs of a session, whatever the policies say and whatever the session began with: a
   tool denied once, or held in the ledger from the start, is denied at every later call of every run; and the ledger
   at the end holds exactly those tools.
   */
  lemma {:induction false} DeniedToolStaysDenied(session: Ledger, runs: seq<Response>)
    requires AllFaithful(runs)
    ensures Quarantined(session, Session(session, runs))
  {
    if runs == [] {
      assert Session(session, runs) == Trail([], session);
    } else {
      var front, last := runs[..|runs| - 1], runs[|runs| - 1];
      var before := Session(session, front);
      DeniedToolStaysDenied(session, front);
      RunQuarantines(last.env.(session := before.ledger), last.upstream);
      QuarantineGoesOn(session, before, RunIn(before.ledger, last).trail);
    }
  }
}
