/**
 The audit write path: any number of concurrent `record` calls feed a bounded channel, and one drain loop
 appends what it receives to one log, of which it is the only writer.
 */
module Outbox {
  import opened Prelude
  import opened MerkleHashing
  import opened MerkleTree
  import opened Pipeline

  datatype FullPolicy = Block | Shed

  datatype Drain = Running | Ended | Aborted

  type CallId = nat

  /** What happens to a received record: its request scope cannot be opened, or it is dispatched. */
  datatype Attempt = Unavailable | Dispatched(faults: Faults)

  /** What became of a received record: counted as appended, and present in the log. */
  datatype Fate = Fate(record: Bytes, appended: bool, stored: bool)

  datatype State = State(
    policy: FullPolicy,
    capacity: nat,
    calls: map<CallId, Bytes>,
    arrived: nat,
    finished: nat,
    cancelled: nat,
    queue: seq<Bytes>,
    inFlight: Option<Bytes>,
    drain: Drain,
    sinksDropped: bool,
    world: World,
    // What happened so far: the records enqueued, what became of those received, and the ones the sink dropped.
    enqueued: seq<Bytes>,
    fates: seq<Fate>,
    refused: nat)

  function Initial(policy: FullPolicy, capacity: nat, created: bool, log: seq<Digest>): State {
    State(policy, capacity, map[], 0, 0, 0, [], None, Running, false, World(created, log, None, 0, 0), [], [], 0)
  }

  datatype Action =
    | Arrive(call: CallId, record: Bytes)
    | Send(call: CallId)
    | Cancel(call: CallId)
    | Receive
    | Settle(attempt: Attempt)
    | DropSinks
    | End
    | Abort

  /** The sink could not enqueue: logged and counted. */
  function TurnedAway(s: State, call: CallId): State {
    s.(calls := s.calls - {call}, finished := s.finished + 1, refused := s.refused + 1,
       world := s.world.(dropped := s.world.dropped + 1))
  }

  function Enqueued(s: State, call: CallId): State
    requires call in s.calls
  {
    s.(calls := s.calls - {call}, finished := s.finished + 1,
       queue := s.queue + [s.calls[call]], enqueued := s.enqueued + [s.calls[call]])
  }

  /** One received record is appended or given up. */
  function Settled(h: MerkleHasher, s: State, attempt: Attempt): State
    requires s.inFlight.Some?
  {
    var record := s.inFlight.value;
    match attempt
    case Unavailable =>
      s.(inFlight := None, world := s.world.(dropped := s.world.dropped + 1),
         fates := s.fates + [Fate(record, false, false)])
    case Dispatched(f) =>
      var (after, r) := Dispatch(h, s.world, record, f);
      SettledBy(s, after, Fate(record, r.Ok?, |after.log| > |s.world.log|))
  }

  function SettledBy(s: State, after: World, fate: Fate): State {
    s.(inFlight := None, world := after, fates := s.fates + [fate])
  }

  lemma DispatchSettles(h: MerkleHasher, s: State, f: Faults, after: World, r: Response)
    requires s.inFlight.Some? && Dispatch(h, s.world, s.inFlight.value, f) == (after, r)
    ensures Settled(h, s, Dispatched(f))
         == SettledBy(s, after, Fate(s.inFlight.value, r.Ok?, |after.log| > |s.world.log|))
  {
  }

  /** The state after one step, if the step is possible. A blocked sender takes its step when there is room. */
  function Step(h: MerkleHasher, s: State, a: Action): Option<State> {
    match a
    case Arrive(call, record) =>
      if call in s.calls || s.sinksDropped then None
      else Some(s.(calls := s.calls[call := record], arrived := s.arrived + 1))
    case Send(call) =>
      if call !in s.calls then None
      else if s.drain != Running then Some(TurnedAway(s, call))
      else if |s.queue| < s.capacity then Some(Enqueued(s, call))
      else if s.policy == Shed then Some(TurnedAway(s, call))
      else None
    case Cancel(call) =>
      // Whoever awaits the call is gone. Only a call that waits for room can be left waiting.
      if call !in s.calls || s.policy != Block then None
      else Some(s.(calls := s.calls - {call}, cancelled := s.cancelled + 1))
    case Receive =>
      if s.drain != Running || s.inFlight.Some? || s.queue == [] then None
      else Some(s.(inFlight := Some(s.queue[0]), queue := s.queue[1..]))
    case Settle(attempt) =>
      if s.drain != Running || s.inFlight.None? then None else Some(Settled(h, s, attempt))
    case DropSinks => if s.calls != map[] then None else Some(s.(sinksDropped := true))
    case End =>
      // The receive answers "closed" only once no sender is left and nothing is queued.
      if s.drain != Running || s.inFlight.Some? || !s.sinksDropped || s.queue != [] then None
      else Some(s.(drain := Ended))
    case Abort => if s.drain != Running then None else Some(s.(drain := Aborted))
  }

  function Run(h: MerkleHasher, s: State, actions: seq<Action>): Option<State> {
    if actions == [] then Some(s)
    else
      var before := Run(h, s, actions[..|actions| - 1]);
      if before.None? then None else Step(h, before.value, actions[|actions| - 1])
  }

  // ---- What the history says ----

  function InFlight(s: State): seq<Bytes> {
    if s.inFlight.Some? then [s.inFlight.value] else []
  }

  function Records(fates: seq<Fate>): seq<Bytes> {
    if fates == [] then [] else Records(fates[..|fates| - 1]) + [fates[|fates| - 1].record]
  }

  /** The records that reached the log, in order. */
  function Stored(fates: seq<Fate>): seq<Bytes> {
    if fates == [] then []
    else
      var last := fates[|fates| - 1];
      Stored(fates[..|fates| - 1]) + if last.stored then [last.record] else []
  }

  /** How many records were counted as appended. */
  function Appended(fates: seq<Fate>): nat {
    if fates == [] then 0
    else Appended(fates[..|fates| - 1]) + if fates[|fates| - 1].appended then 1 else 0
  }

  lemma {:induction false} RecordsLength(fates: seq<Fate>)
    ensures |Records(fates)| == |fates|
  {
    if fates == [] {
    } else {
      RecordsLength(fates[..|fates| - 1]);
    }
  }

  predicate Inv(h: MerkleHasher, log: seq<Digest>, s: State) {
    && s.world.slot.None?
    && s.enqueued == Records(s.fates) + InFlight(s) + s.queue
    && s.finished == |s.enqueued| + s.refused
    && s.arrived == s.finished + |s.calls| + s.cancelled
    && s.world.appended == Appended(s.fates)
    && s.world.appended + s.world.dropped == |s.fates| + s.refused
    && s.world.log == log + LeafHashes(h, Stored(s.fates))
    && (forall i :: 0 <= i < |s.fates| && s.fates[i].appended ==> s.fates[i].stored)
    && |s.queue| <= s.capacity
    && (s.policy == Block && s.drain == Running ==> s.refused == 0)
    && (s.sinksDropped ==> s.calls == map[])
    && (s.drain == Ended ==> s.sinksDropped && s.queue == [] && s.inFlight == None)
    && (s.policy == Block && s.drain == Ended ==> s.refused == 0)
  }

  lemma OneMoreFate(h: MerkleHasher, fates: seq<Fate>, fate: Fate)
    ensures Records(fates + [fate]) == Records(fates) + [fate.record]
    ensures Appended(fates + [fate]) == Appended(fates) + if fate.appended then 1 else 0
    ensures LeafHashes(h, Stored(fates + [fate]))
         == LeafHashes(h, Stored(fates)) + if fate.stored then [Leaf(h, fate.record)] else []
  {
    assert (fates + [fate])[..|fates|] == fates;
  }

  /** The counters and the log moved by exactly one fate. */
  predicate MovedBy(h: MerkleHasher, after: World, w: World, fate: Fate) {
    && after.slot.None? && (fate.appended ==> fate.stored)
    && after.appended == w.appended + (if fate.appended then 1 else 0)
    && after.dropped == w.dropped + (if fate.appended then 0 else 1)
    && after.log == w.log + if fate.stored then [Leaf(h, fate.record)] else []
  }

  lemma AttemptMoves(h: MerkleHasher, s: State, attempt: Attempt)
    requires s.inFlight.Some? && s.world.slot.None?
    ensures var next := Settled(h, s, attempt);
            |next.fates| == |s.fates| + 1 && MovedBy(h, next.world, s.world, next.fates[|s.fates|])
    ensures var next := Settled(h, s, attempt); next == SettledBy(s, next.world, next.fates[|s.fates|])
    ensures Settled(h, s, attempt).fates[|s.fates|].record == s.inFlight.value
  {
    if attempt.Dispatched? {
      DispatchUnfolds(h, s.world, s.inFlight.value, attempt.faults);
    }
  }

  lemma SettledByKeeps(h: MerkleHasher, log: seq<Digest>, s: State, after: World, fate: Fate)
    requires Inv(h, log, s) && s.drain == Running && s.inFlight == Some(fate.record) && MovedBy(h, after, s.world, fate)
    ensures Inv(h, log, SettledBy(s, after, fate))
  {
    var next := SettledBy(s, after, fate);
    OneMoreFate(h, s.fates, fate);
    assert next.enqueued == Records(next.fates) + InFlight(next) + next.queue;
    assert next.world.log == log + LeafHashes(h, Stored(next.fates));
  }

  /** Whatever happens to a received record, it gets exactly one fate, one count, and at most one leaf. */
  lemma SettledKeeps(h: MerkleHasher, log: seq<Digest>, s: State, attempt: Attempt)
    requires Inv(h, log, s) && s.drain == Running && s.inFlight.Some?
    ensures Inv(h, log, Settled(h, s, attempt))
  {
    var next := Settled(h, s, attempt);
    AttemptMoves(h, s, attempt);
    SettledByKeeps(h, log, s, next.world, next.fates[|s.fates|]);
  }

  lemma OneCallLess(calls: map<CallId, Bytes>, call: CallId)
    requires call in calls
    ensures |calls - {call}| == |calls| - 1
  {
    assert calls.Keys == (calls - {call}).Keys + {call};
  }

  lemma OneCallMore(calls: map<CallId, Bytes>, call: CallId, record: Bytes)
    requires call !in calls
    ensures |calls[call := record]| == |calls| + 1
  {
    assert calls[call := record].Keys == calls.Keys + {call};
  }

  lemma Appending(a: seq<Bytes>, b: seq<Bytes>, c: seq<Bytes>, d: seq<Bytes>)
    ensures a + b + c + d == a + b + (c + d)
  {
  }

  lemma EnqueuedKeeps(h: MerkleHasher, log: seq<Digest>, s: State, call: CallId)
    requires Inv(h, log, s) && call in s.calls && s.drain == Running && |s.queue| < s.capacity
    ensures Inv(h, log, Enqueued(s, call))
  {
    OneCallLess(s.calls, call);
    Appending(Records(s.fates), InFlight(s), s.queue, [s.calls[call]]);
  }

  lemma TurnedAwayKeeps(h: MerkleHasher, log: seq<Digest>, s: State, call: CallId)
    requires Inv(h, log, s) && call in s.calls && (s.drain != Running || s.policy == Shed)
    ensures Inv(h, log, TurnedAway(s, call))
  {
    OneCallLess(s.calls, call);
    assert s.calls != map[];
  }

  lemma SendKeeps(h: MerkleHasher, log: seq<Digest>, s: State, call: CallId)
    requires Inv(h, log, s) && Step(h, s, Send(call)).Some?
    ensures Inv(h, log, Step(h, s, Send(call)).value)
  {
    if s.drain == Running && |s.queue| < s.capacity {
      EnqueuedKeeps(h, log, s, call);
    } else {
      TurnedAwayKeeps(h, log, s, call);
    }
  }

  lemma ReceiveKeeps(h: MerkleHasher, log: seq<Digest>, s: State)
    requires Inv(h, log, s) && Step(h, s, Receive).Some?
    ensures Inv(h, log, Step(h, s, Receive).value)
  {
    assert s.queue == [s.queue[0]] + s.queue[1..];
  }

  lemma ArriveKeeps(h: MerkleHasher, log: seq<Digest>, s: State, call: CallId, record: Bytes)
    requires Inv(h, log, s) && Step(h, s, Arrive(call, record)).Some?
    ensures Inv(h, log, Step(h, s, Arrive(call, record)).value)
  {
    OneCallMore(s.calls, call, record);
  }

  lemma CancelKeeps(h: MerkleHasher, log: seq<Digest>, s: State, call: CallId)
    requires Inv(h, log, s) && Step(h, s, Cancel(call)).Some?
    ensures Inv(h, log, Step(h, s, Cancel(call)).value)
  {
    OneCallLess(s.calls, call);
  }

  lemma StepKeeps(h: MerkleHasher, log: seq<Digest>, s: State, a: Action)
    requires Inv(h, log, s) && Step(h, s, a).Some?
    ensures Inv(h, log, Step(h, s, a).value)
  {
    match a {
      case Arrive(call, record) => ArriveKeeps(h, log, s, call, record);
      case Send(call) => SendKeeps(h, log, s, call);
      case Cancel(call) => CancelKeeps(h, log, s, call);
      case Receive => ReceiveKeeps(h, log, s);
      case Settle(attempt) => SettledKeeps(h, log, s, attempt);
      case _ =>
    }
  }

  /** A state some interleaving of calls and drain steps leads to. */
  predicate Reaches(h: MerkleHasher, start: State, actions: seq<Action>, s: State) {
    Run(h, start, actions) == Some(s)
  }

  /** The sink, the channel and the log at the start of service. */
  predicate Starts(start: State) {
    start == Initial(start.policy, start.capacity, start.world.created, start.world.log)
  }

  lemma StartsValid(h: MerkleHasher, start: State)
    requires Starts(start)
    ensures Inv(h, start.world.log, start)
  {
    assert start.world.log + LeafHashes(h, Stored([])) == start.world.log;
  }

  lemma {:induction false} RunKeeps(h: MerkleHasher, start: State, actions: seq<Action>, s: State)
    requires Starts(start) && Reaches(h, start, actions, s)
    ensures Inv(h, start.world.log, s)
  {
    if actions == [] {
      StartsValid(h, start);
    } else {
      var before := Run(h, start, actions[..|actions| - 1]).value;
      RunKeeps(h, start, actions[..|actions| - 1], before);
      StepKeeps(h, start.world.log, before, actions[|actions| - 1]);
    }
  }

  /** Everything counted, or still on its way to be. */
  function Accounted(s: State): nat {
    s.world.appended + s.world.dropped + |s.queue| + |InFlight(s)| + |s.calls|
  }

  /**
   Every finished call is counted once as appended or dropped, or is still queued or in flight; every call that arrived
   is finished, waiting or cancelled.
   */
  lemma EveryRecordIsAccountedFor(h: MerkleHasher, start: State, actions: seq<Action>, s: State)
    requires Starts(start) && Reaches(h, start, actions, s)
    ensures s.finished == s.world.appended + s.world.dropped + |s.queue| + |InFlight(s)|
    ensures s.arrived == s.finished + |s.calls| + s.cancelled
    ensures |s.queue| <= s.capacity
  {
    RunKeeps(h, start, actions, s);
    RecordsLength(s.fates);
  }

  function Arrivals(actions: seq<Action>): nat {
    if actions == [] then 0
    else Arrivals(actions[..|actions| - 1]) + if actions[|actions| - 1].Arrive? then 1 else 0
  }

  function Cancels(actions: seq<Action>): nat {
    if actions == [] then 0
    else Cancels(actions[..|actions| - 1]) + if actions[|actions| - 1].Cancel? then 1 else 0
  }

  lemma StepCounts(h: MerkleHasher, s: State, a: Action)
    requires Step(h, s, a).Some?
    ensures var next := Step(h, s, a).value;
      && next.arrived == s.arrived + (if a.Arrive? then 1 else 0)
      && next.cancelled == s.cancelled + (if a.Cancel? then 1 else 0)
  {
  }

  lemma {:induction false} RunCounts(h: MerkleHasher, start: State, actions: seq<Action>, s: State)
    requires Starts(start) && Reaches(h, start, actions, s)
    ensures s.arrived == Arrivals(actions) && s.cancelled == Cancels(actions)
  {
    if actions == [] {
    } else {
      var before := Run(h, start, actions[..|actions| - 1]).value;
      RunCounts(h, start, actions[..|actions| - 1], before);
      StepCounts(h, before, actions[|actions| - 1]);
    }
  }

  lemma {:induction false} NoneCancelled(actions: seq<Action>)
    ensures Cancels(actions) == 0 <==> forall i :: 0 <= i < |actions| ==> !actions[i].Cancel?
  {
    if actions == [] {
    } else {
      var front := actions[..|actions| - 1];
      NoneCancelled(front);
      assert forall i :: 0 <= i < |front| ==> front[i] == actions[i];
    }
  }

  /** No record handed to the sink goes uncounted if and only if no call of the run was abandoned while it waited. */
  lemma NothingUncountedUnlessCancelled(h: MerkleHasher, start: State, actions: seq<Action>, s: State)
    requires Starts(start) && Reaches(h, start, actions, s)
    ensures Arrivals(actions) == Accounted(s) + Cancels(actions)
    ensures Arrivals(actions) == Accounted(s) <==> forall i :: 0 <= i < |actions| ==> !actions[i].Cancel?
  {
    EveryRecordIsAccountedFor(h, start, actions, s);
    RunCounts(h, start, actions, s);
    NoneCancelled(actions);
  }

  // ---- What became of each received record ----

  /** What the storage did with the records received in a run, in order. */
  function Attempts(actions: seq<Action>): seq<Attempt> {
    if actions == [] then []
    else
      var last := actions[|actions| - 1];
      Attempts(actions[..|actions| - 1]) + if last.Settle? then [last.attempt] else []
  }

  /** The commit took effect and its acknowledgement was lost. */
  predicate LosesAcknowledgement(created: bool, attempt: Attempt) {
    attempt.Dispatched? && ReachesCommit(created, attempt.faults) && attempt.faults.commit == Unacknowledged
  }

  predicate EveryCommitAcknowledged(created: bool, attempts: seq<Attempt>) {
    forall i :: 0 <= i < |attempts| ==> !LosesAcknowledgement(created, attempts[i])
  }

  /** The commit took effect and was acknowledged. */
  predicate Succeeds(created: bool, attempt: Attempt) {
    attempt.Dispatched? && ReachesCommit(created, attempt.faults) && attempt.faults.commit == Acknowledged
  }

  /** Each fate is decided by what the storage did with that record. */
  predicate Decided(created: bool, attempts: seq<Attempt>, fates: seq<Fate>) {
    && |attempts| == |fates|
    && (forall i :: 0 <= i < |fates| ==>
          && fates[i].appended == Succeeds(created, attempts[i])
          && fates[i].stored == (Succeeds(created, attempts[i]) || LosesAcknowledgement(created, attempts[i])))
  }

  lemma SettledIsDecided(h: MerkleHasher, s: State, attempt: Attempt)
    requires s.inFlight.Some? && s.world.slot.None?
    ensures var next := Settled(h, s, attempt); var created := s.world.created;
      && next.world.created == created && |next.fates| == |s.fates| + 1 && next.fates[..|s.fates|] == s.fates
      && next.fates[|s.fates|].appended == Succeeds(created, attempt)
      && next.fates[|s.fates|].stored == (Succeeds(created, attempt) || LosesAcknowledgement(created, attempt))
  {
    if attempt.Dispatched? {
      DispatchUnfolds(h, s.world, s.inFlight.value, attempt.faults);
    }
  }

  /** Steps other than settling a record decide no fate. */
  lemma OnlySettlingDecides(h: MerkleHasher, s: State, a: Action)
    requires Step(h, s, a).Some? && !a.Settle?
    ensures var next := Step(h, s, a).value; next.fates == s.fates && next.world.created == s.world.created
  {
  }

  lemma {:induction false} FatesAreDecided(h: MerkleHasher, start: State, actions: seq<Action>, s: State)
    requires Starts(start) && Reaches(h, start, actions, s)
    ensures s.world.created == start.world.created && Decided(start.world.created, Attempts(actions), s.fates)
  {
    if actions == [] {
    } else {
      var front, last := actions[..|actions| - 1], actions[|actions| - 1];
      var before := Run(h, start, front).value;
      FatesAreDecided(h, start, front, before);
      RunKeeps(h, start, front, before);
      StepDecides(h, start.world.created, before, Attempts(front), last);
    }
  }

  lemma StepDecides(h: MerkleHasher, created: bool, s: State, attempts: seq<Attempt>, a: Action)
    requires Step(h, s, a).Some? && s.world.slot.None? && s.world.created == created &&
        Decided(created, attempts, s.fates)
    ensures var next := Step(h, s, a).value;
      next.world.created == created && Decided(created, attempts + (if a.Settle? then [a.attempt] else []), next.fates)
  {
    if a.Settle? {
      SettledIsDecided(h, s, a.attempt);
    } else {
      OnlySettlingDecides(h, s, a);
      assert attempts + [] == attempts;
    }
  }

  /** The records the metrics count as appended, in order. */
  function AppendedRecords(fates: seq<Fate>): (records: seq<Bytes>)
    ensures |records| == Appended(fates)
  {
    if fates == [] then []
    else
      var last := fates[|fates| - 1];
      AppendedRecords(fates[..|fates| - 1]) + if last.appended then [last.record] else []
  }

  /** Stored but counted as dropped. */
  predicate Miscounted(fates: seq<Fate>, i: nat) {
    i < |fates| && fates[i].stored && !fates[i].appended
  }

  lemma {:induction false} StoredIsAppended(fates: seq<Fate>)
    requires forall i: nat :: i < |fates| ==> fates[i].stored == fates[i].appended
    ensures Stored(fates) == AppendedRecords(fates)
  {
    if fates == [] {
    } else {
      StoredIsAppended(fates[..|fates| - 1]);
    }
  }

  lemma {:induction false} MoreStoredThanAppended(fates: seq<Fate>)
    requires forall i: nat :: i < |fates| && fates[i].appended ==> fates[i].stored
    ensures |AppendedRecords(fates)| <= |Stored(fates)|
    ensures (exists i: nat :: Miscounted(fates, i)) ==> |AppendedRecords(fates)| < |Stored(fates)|
  {
    if fates == [] {
    } else {
      var front, n := fates[..|fates| - 1], |fates| - 1;
      MoreStoredThanAppended(front);
      if i: nat :| Miscounted(fates, i) && i < n {
        assert Miscounted(front, i);
      }
    }
  }

  /**
   The log is what was enqueued, in order, without the records that were not stored; the rest is still queued in order.
   A record is stored though counted as dropped exactly where a commit lost its acknowledgement.
   */
  lemma LogFollowsQueueOrder(h: MerkleHasher, start: State, actions: seq<Action>, s: State)
    requires Starts(start) && Reaches(h, start, actions, s)
    ensures s.enqueued == Records(s.fates) + InFlight(s) + s.queue
    ensures s.world.log == start.world.log + LeafHashes(h, Stored(s.fates))
    ensures forall i: nat :: Miscounted(s.fates, i) <==>
              i < |Attempts(actions)| && LosesAcknowledgement(start.world.created, Attempts(actions)[i])
    ensures s.world.appended == |AppendedRecords(s.fates)|
  {
    RunKeeps(h, start, actions, s);
    FatesAreDecided(h, start, actions, s);
  }

  /**
   The log is exactly the records counted as appended, in queue order, if and only if no commit of the run lost
   its acknowledgement.
   */
  lemma LogIsWhatWasCounted(h: MerkleHasher, start: State, actions: seq<Action>, s: State)
    requires Starts(start) && Reaches(h, start, actions, s)
    ensures s.world.log == start.world.log + LeafHashes(h, AppendedRecords(s.fates))
       <==> EveryCommitAcknowledged(start.world.created, Attempts(actions))
  {
    RunKeeps(h, start, actions, s);
    LogFollowsQueueOrder(h, start, actions, s);
    FatesAreDecided(h, start, actions, s);
    if i: nat :| Miscounted(s.fates, i) {
      MoreStoredThanAppended(s.fates);
      assert |s.world.log| == |start.world.log| + |Stored(s.fates)|;
      assert |start.world.log + LeafHashes(h, AppendedRecords(s.fates))| < |s.world.log|;
      assert LosesAcknowledgement(start.world.created, Attempts(actions)[i]);
      assert !EveryCommitAcknowledged(start.world.created, Attempts(actions));
    } else {
      forall i: nat | i < |s.fates| ensures s.fates[i].stored == s.fates[i].appended {
        assert !Miscounted(s.fates, i);
      }
      StoredIsAppended(s.fates);
      assert EveryCommitAcknowledged(start.world.created, Attempts(actions));
    }
  }

  /** With backpressure the sink drops nothing while the channel is open, so every drop is a failed append. */
  lemma BlockDropsNothingWhileOpen(h: MerkleHasher, start: State, actions: seq<Action>, s: State)
    requires Starts(start) && Reaches(h, start, actions, s) && s.policy == Block && s.drain != Aborted
    ensures s.refused == 0 && s.finished == |s.enqueued|
    ensures s.world.dropped == |s.fates| - Appended(s.fates)
  {
    RunKeeps(h, start, actions, s);
  }

  // ---- The order records are handed over in ----

  function Sends(actions: seq<Action>): nat {
    if actions == [] then 0
    else Sends(actions[..|actions| - 1]) + if actions[|actions| - 1].Send? then 1 else 0
  }

  /** With backpressure and a channel that stays open, a send that completes enqueues and nothing else does. */
  lemma OnlySendsEnqueue(h: MerkleHasher, log: seq<Digest>, s: State, a: Action)
    requires Inv(h, log, s) && s.policy == Block && Step(h, s, a).Some? && Step(h, s, a).value.drain != Aborted
    ensures s.drain != Aborted && Step(h, s, a).value.policy == Block
    ensures a.Send? ==> a.call in s.calls && Step(h, s, a).value.enqueued == s.enqueued + [s.calls[a.call]]
    ensures !a.Send? ==> Step(h, s, a).value.enqueued == s.enqueued
  {
  }

  /** As many records were enqueued as sends completed. */
  lemma {:induction false} EnqueuedIsSends(h: MerkleHasher, start: State, actions: seq<Action>, s: State)
    requires Starts(start) && Reaches(h, start, actions, s) && start.policy == Block && s.drain != Aborted
    ensures Inv(h, start.world.log, s) && s.policy == Block && |s.enqueued| == Sends(actions)
  {
    RunKeeps(h, start, actions, s);
    if actions == [] {
    } else {
      var front, last := actions[..|actions| - 1], actions[|actions| - 1];
      var before := Run(h, start, front).value;
      StaysOpen(h, before, last);
      EnqueuedIsSends(h, start, front, before);
      OnlySendsEnqueue(h, start.world.log, before, last);
    }
  }

  lemma StaysOpen(h: MerkleHasher, s: State, a: Action)
    requires Step(h, s, a).Some? && Step(h, s, a).value.drain != Aborted
    ensures s.drain != Aborted
  {
  }

  /** What is enqueued stays where it is. */
  lemma {:induction false} EnqueuedEarlier(h: MerkleHasher, start: State, actions: seq<Action>, s: State, k: nat)
    requires Starts(start) && Reaches(h, start, actions, s) && start.policy == Block && s.drain != Aborted
    requires k <= |actions|
    ensures var before := Run(h, start, actions[..k]);
      before.Some? && before.value.drain != Aborted && before.value.enqueued <= s.enqueued
    decreases |actions|
  {
    if k == |actions| {
      assert actions[..k] == actions;
    } else {
      var front, last := actions[..|actions| - 1], actions[|actions| - 1];
      var before := Run(h, start, front).value;
      StaysOpen(h, before, last);
      EnqueuedEarlier(h, start, front, before, k);
      EnqueuedIsSends(h, start, front, before);
      OnlySendsEnqueue(h, start.world.log, before, last);
      assert front[..k] == actions[..k];
    }
  }

  /** The n-th completed send is the n-th record in the channel. */
  lemma SentIsEnqueued(h: MerkleHasher, start: State, actions: seq<Action>, s: State, k: nat)
    requires Starts(start) && Reaches(h, start, actions, s) && start.policy == Block && s.drain != Aborted
    requires k < |actions| && actions[k].Send?
    ensures var before := Run(h, start, actions[..k]);
      && before.Some? && actions[k].call in before.value.calls
      && Sends(actions[..k]) < |s.enqueued|
      && s.enqueued[Sends(actions[..k])] == before.value.calls[actions[k].call]
  {
    EnqueuedEarlier(h, start, actions, s, k);
    EnqueuedEarlier(h, start, actions, s, k + 1);
    var before := Run(h, start, actions[..k]).value;
    assert actions[..k + 1][..k] == actions[..k];
    EnqueuedIsSends(h, start, actions[..k], before);
    OnlySendsEnqueue(h, start.world.log, before, actions[k]);
  }

  lemma {:induction false} SendsGrow(actions: seq<Action>, i: nat, j: nat)
    requires i < j <= |actions| && actions[i].Send?
    ensures Sends(actions[..i]) < Sends(actions[..j])
    decreases j
  {
    assert actions[..j][..j - 1] == actions[..j - 1];
    if i == j - 1 {
    } else {
      SendsGrow(actions, i, j - 1);
    }
  }

  /** When the drain loop has ended, nothing is left behind: every call that arrived was counted or cancelled. */
  lemma EndedMeansDrained(h: MerkleHasher, start: State, actions: seq<Action>, s: State)
    requires Starts(start) && Reaches(h, start, actions, s) && s.drain == Ended
    ensures s.queue == [] && s.inFlight == None && s.calls == map[]
    ensures s.finished == s.world.appended + s.world.dropped && s.enqueued == Records(s.fates)
    ensures s.arrived == s.world.appended + s.world.dropped + s.cancelled
  {
    RunKeeps(h, start, actions, s);
    RecordsLength(s.fates);
  }
}
