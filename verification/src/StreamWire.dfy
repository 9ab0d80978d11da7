/** What the stream's theorems say about the bytes on the wire. */
module StreamWire {
  import opened Prelude
  import opened Inspection
  import opened Judging
  import opened Collections
  import opened Streaming
  import opened StreamConservation
  import opened StreamComparison

  function Raws(frames: seq<Frame>): (raws: seq<Bytes>)
    ensures |raws| == |frames|
    ensures forall k :: 0 <= k < |frames| ==> raws[k] == frames[k].event.raw
  {
    if frames == [] then [] else Raws(frames[..|frames| - 1]) + [frames[|frames| - 1].event.raw]
  }

  /** The bytes an emission puts on the wire. */
  function WireFrames(env: Env, e: Emission): seq<Bytes> {
    match e
    case Passed(frame) => [frame.event.raw]
    case Cleared(_, frames) => Raws(frames)
    case Rewritten(_, _, bytes) => [bytes]
    case Failed(message) => [env.failure(message)]
  }

  function WireOutput(env: Env, out: seq<Emission>): seq<Bytes> {
    if out == [] then [] else WireOutput(env, out[..|out| - 1]) + WireFrames(env, out[|out| - 1])
  }

  lemma WireSnoc(env: Env, out: seq<Emission>, e: Emission)
    ensures WireOutput(env, out + [e]) == WireOutput(env, out) + WireFrames(env, e)
  {
    assert (out + [e])[..|out|] == out;
  }

  /** One piece of bytes per frame, and one for a failure. */
  lemma {:induction false} WireCount(env: Env, out: seq<Emission>)
    ensures |WireOutput(env, out)| == FrameCount(out)
  {
    if out == [] {
    } else {
      WireCount(env, out[..|out| - 1]);
    }
  }

  /** The frames that are relayed as they came. */
  function OriginalWire(out: seq<Emission>): seq<Bytes> {
    if out == [] then [] else OriginalWire(out[..|out| - 1]) + Raws(Original(out[|out| - 1]))
  }

  function Volume(pieces: seq<Bytes>): nat {
    if pieces == [] then 0 else Volume(pieces[..|pieces| - 1]) + |pieces[|pieces| - 1]|
  }

  lemma {:induction false} VolumeConcat(a: seq<Bytes>, b: seq<Bytes>)
    ensures Volume(a + b) == Volume(a) + Volume(b)
    decreases |b|
  {
    if b == [] {
      assert a + b == a;
    } else {
      assert (a + b)[..|a + b| - 1] == a + b[..|b| - 1];
      VolumeConcat(a, b[..|b| - 1]);
    }
  }

  lemma {:induction false} RawsVolume(frames: seq<Frame>)
    ensures Volume(Raws(frames)) == RawBytes(frames)
  {
    if frames == [] {
    } else {
      var front, last := frames[..|frames| - 1], frames[|frames| - 1];
      RawsVolume(front);
      VolumeConcat(Raws(front), [last.event.raw]);
    }
  }

  /** They are on the wire in this order, and measure what the emissions say. */
  lemma {:induction false} OriginalsAreOnWire(env: Env, out: seq<Emission>)
    ensures Subsequence(OriginalWire(out), WireOutput(env, out))
    ensures Volume(OriginalWire(out)) == OriginalBytes(out)
  {
    if out == [] {
    } else {
      var front, last := out[..|out| - 1], out[|out| - 1];
      OriginalsAreOnWire(env, front);
      VolumeConcat(OriginalWire(front), Raws(Original(last)));
      RawsVolume(Original(last));
      if last.Passed? || last.Cleared? {
        RelayedAsTheyCame(env, last);
        SubsequenceBoth(OriginalWire(front), WireOutput(env, front), WireFrames(env, last));
      } else {
        SubsequenceExtend(OriginalWire(front), WireOutput(env, front), WireFrames(env, last));
        assert OriginalWire(front) + [] == OriginalWire(front);
      }
    }
  }

  lemma RelayedAsTheyCame(env: Env, e: Emission)
    requires e.Passed? || e.Cleared?
    ensures Raws(Original(e)) == WireFrames(env, e)
  {
  }

  /**
   The bounds on the wire: under nonzero limits at most max_events + 1 pieces of bytes are sent, and those relayed as
   they came are among them, in order, and measure at most max_bytes together.
   */
  lemma WireIsBounded(env: Env, upstream: seq<Result<Bytes, Reason>>)
    requires ValidEnv(env)
    ensures var out := InspectUpstream(env, upstream).out;
      && (env.settings.maxEvents != 0 ==> |WireOutput(env, out)| <= env.settings.maxEvents + 1)
      && Subsequence(OriginalWire(out), WireOutput(env, out))
      && (env.settings.maxBytes != 0 ==> Volume(OriginalWire(out)) <= env.settings.maxBytes)
  {
    var out := InspectUpstream(env, upstream).out;
    OutputIsBounded(env, upstream);
    WireCount(env, out);
    OriginalsAreOnWire(env, out);
  }

  lemma {:induction false} SameWire(env: Env, env': Env, out: seq<Emission>)
    requires env'.failure == env.failure
    ensures WireOutput(env', out) == WireOutput(env, out)
  {
    if out == [] {
    } else {
      SameWire(env, env', out[..|out| - 1]);
    }
  }

  lemma {:induction false} KeptWire(env: Env, audit: seq<AuditRecord>, out: seq<Emission>)
    ensures Subsequence(WireOutput(env, Kept(audit, out)), WireOutput(env, out))
  {
    if out == [] {
    } else {
      var front, last := out[..|out| - 1], out[|out| - 1];
      var kept := Kept(audit, front);
      KeptWire(env, audit, front);
      if Survives(audit, last) {
        WireSnoc(env, kept, last);
        SubsequenceBoth(WireOutput(env, kept), WireOutput(env, front), WireFrames(env, last));
      } else {
        assert kept + [] == kept;
        SubsequenceExtend(WireOutput(env, kept), WireOutput(env, front), WireFrames(env, last));
      }
    }
  }

  /** Session memory only removes bytes from the wire, whatever it recalls, expires or prunes. */
  lemma MemoryOnlyRemovesBytes(env: Env, recall: (nat, Bytes, Ledger) -> Option<Reason>,
                               upstream: seq<Result<Bytes, Reason>>)
    requires ValidEnv(env) && MemoryOff(env.oracles)
    requires forall record :: record in InspectUpstream(env, upstream).trail.audit ==> !record.verdict.Terminate?
    ensures var env' := env.(oracles := env.oracles.(recall := recall));
      && ValidEnv(env')
      && Subsequence(WireOutput(env', InspectUpstream(env', upstream).out),
                     WireOutput(env, InspectUpstream(env, upstream).out))
  {
    var env' := env.(oracles := env.oracles.(recall := recall));
    MemoryOnlyRemovesOutput(env, recall, upstream);
    var r, r' := InspectUpstream(env, upstream), InspectUpstream(env', upstream);
    SameWire(env, env', r'.out);
    KeptWire(env, r'.trail.audit, r.out);
  }
}
