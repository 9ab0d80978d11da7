/** The sink and the drain loop as code, each step one of the steps of the protocol. */
module OutboxLoop {
  import opened Prelude
  import opened Collections
  import opened MerkleHashing
  import opened Pipeline
  import opened Outbox

  lemma RunOneMore(h: MerkleHasher, start: State, actions: seq<Action>, s: State, a: Action)
    requires Run(h, start, actions) == Some(s)
    ensures Run(h, start, actions + [a]) == Step(h, s, a)
  {
    assert (actions + [a])[..|actions|] == actions;
  }

  /** A run that has come this far goes on as a run from here. */
  lemma {:induction false} RunThen(h: MerkleHasher, start: State, actions: seq<Action>, s: State, more: seq<Action>,
                                   end: State)
    requires Run(h, start, actions) == Some(s) && Run(h, s, more) == Some(end)
    ensures Run(h, start, actions + more) == Some(end)
    decreases |more|
  {
    if more == [] {
      assert actions + more == actions;
    } else {
      var front, last := more[..|more| - 1], more[|more| - 1];
      var before := Run(h, s, front).value;
      RunThen(h, start, actions, s, front, before);
      RunOneMore(h, start, actions + front, before, last);
      LastApart(actions, more);
    }
  }

  /** A record received and settled. */
  function Turn(h: MerkleHasher, s: State, attempt: Attempt): State
    requires s.queue != []
  {
    Settled(h, s.(inFlight := Some(s.queue[0]), queue := s.queue[1..]), attempt)
  }

  lemma TurnFrame(h: MerkleHasher, s: State, attempt: Attempt)
    requires s.queue != []
    ensures var t := Turn(h, s, attempt);
      && t.drain == s.drain && t.sinksDropped == s.sinksDropped && t.inFlight == None && t.queue == s.queue[1..]
  {
  }

  lemma RunTurn(h: MerkleHasher, start: State, actions: seq<Action>, s: State, attempt: Attempt)
    requires Run(h, start, actions) == Some(s) && s.queue != [] && s.drain == Running && s.inFlight == None
    ensures Run(h, start, actions + [Receive] + [Settle(attempt)]) == Some(Turn(h, s, attempt))
  {
    var received := s.(inFlight := Some(s.queue[0]), queue := s.queue[1..]);
    RunOneMore(h, start, actions, s, Receive);
    RunOneMore(h, start, actions + [Receive], received, Settle(attempt));
  }

  /** What the sinks may do while the loop drains: begin a call, poll one, abandon one, or all be dropped. */
  predicate BySinks(a: Action) {
    a.Arrive? || a.Send? || a.Cancel? || a.DropSinks?
  }

  /** A step taken if it is possible. */
  function Tried(h: MerkleHasher, s: State, a: Action): State {
    if Step(h, s, a).Some? then Step(h, s, a).value else s
  }

  lemma SinksLeaveTheDrain(h: MerkleHasher, s: State, a: Action)
    requires BySinks(a)
    ensures var t := Tried(h, s, a); t.drain == s.drain && t.inFlight == s.inFlight
  {
  }

  class AuditPath {
    const scope: RequestScope
    const policy: FullPolicy
    const capacity: nat
    var calls: map<CallId, Bytes>
    var queue: seq<Bytes>
    var drain: Drain
    var sinksDropped: bool
    /** The protocol state these fields are part of. */
    ghost var s: State

    ghost predicate Valid()
      reads this, scope
    {
      && s.policy == policy && s.capacity == capacity && s.calls == calls && s.queue == queue
      && s.drain == drain && s.sinksDropped == sinksDropped && s.world == scope.State()
    }

    /** The loop waits for a record, or has one to take. */
    ghost predicate Receiving()
      reads this, scope
    {
      Valid() && s.drain == Running && s.inFlight == None
    }

    constructor (scope: RequestScope, policy: FullPolicy, capacity: nat)
      requires scope.slot == None && scope.appended == 0 && scope.dropped == 0
      ensures Receiving() && this.scope == scope
      ensures s == Initial(policy, capacity, scope.created, scope.log) && Starts(s)
    {
      this.scope, this.policy, this.capacity := scope, policy, capacity;
      calls, queue, drain, sinksDropped := map[], [], Running, false;
      s := Initial(policy, capacity, scope.created, scope.log);
    }

    /** One poll of a `record` call; a call blocked on a full channel stays where it was. */
    method Record(call: CallId) returns (done: bool)
      requires Valid() && call in calls
      modifies this, scope`dropped
      ensures Valid()
      ensures done <==> Step(scope.hasher, old(s), Send(call)).Some?
      ensures s == Tried(scope.hasher, old(s), Send(call))
    {
      done := !(drain == Running && |queue| >= capacity && policy == Block);
      if done && drain == Running && |queue| < capacity {
        queue, calls := queue + [calls[call]], calls - {call};
        s := Enqueued(s, call);
      } else if done {
        calls, scope.dropped := calls - {call}, scope.dropped + 1;
        s := TurnedAway(s, call);
      }
    }

    /** What the sinks do between two receives. */
    method SinkActs(a: Action) returns (ghost taken: seq<Action>)
      requires Receiving() && BySinks(a)
      modifies this, scope`dropped
      ensures Receiving() && s == Tried(scope.hasher, old(s), a)
      ensures taken == if Step(scope.hasher, old(s), a).Some? then [a] else []
    {
      SinksLeaveTheDrain(scope.hasher, s, a);
      taken := if Step(scope.hasher, s, a).Some? then [a] else [];
      ghost var next := Tried(scope.hasher, s, a);
      if a.Send? && a.call in calls {
        var done := Record(a.call);
      } else if a.Arrive? && a.call !in calls && !sinksDropped {
        calls := calls[a.call := a.record];
      } else if a.Cancel? && a.call in calls && policy == Block {
        calls := calls - {a.call};
      } else if a.DropSinks? && calls == map[] {
        sinksDropped := true;
      }
      s := next;
    }

    /** Appends one received record; only a record that never reached the pipeline is counted here. */
    method Append(record: Bytes, attempt: Attempt)
      requires Valid() && s.inFlight == Some(record)
      modifies this, scope
      ensures Valid() && s == Settled(scope.hasher, old(s), attempt)
    {
      if attempt.Unavailable? {
        scope.dropped := scope.dropped + 1;
        s := Settled(scope.hasher, s, attempt);
      } else {
        var r := scope.SendAppend(record, attempt.faults);
        DispatchSettles(scope.hasher, s, attempt.faults, scope.State(), r);
        s := SettledBy(s, scope.State(), Fate(record, r.Ok?, |scope.log| > |s.world.log|));
      }
    }

    /** Receives the oldest queued record and appends it. */
    method TakeTurn(attempt: Attempt)
      requires Receiving() && queue != []
      modifies this, scope
      ensures Receiving() && s == Turn(scope.hasher, old(s), attempt)
      ensures s.queue == old(s).queue[1..] && s.sinksDropped == old(s).sinksDropped
    {
      TurnFrame(scope.hasher, s, attempt);
      var record := queue[0];
      queue := queue[1..];
      s := s.(inFlight := Some(s.queue[0]), queue := s.queue[1..]);
      Append(record, attempt);
    }

    /** A round of the sinks, step by step. */
    method SinksAct(round: seq<Action>) returns (ghost taken: seq<Action>)
      requires Receiving() && forall i :: 0 <= i < |round| ==> BySinks(round[i])
      modifies this, scope`dropped
      ensures Receiving() && Run(scope.hasher, old(s), taken) == Some(s)
    {
      taken := [];
      var i := 0;
      while i < |round|
        invariant 0 <= i <= |round| && Receiving() && Run(scope.hasher, old(s), taken) == Some(s)
      {
        RunOneMore(scope.hasher, old(s), taken, s, round[i]);
        assert taken + [] == taken;
        ghost var one := SinkActs(round[i]);
        taken := taken + one;
        i := i + 1;
      }
    }

    /**
     The drain loop, with whatever the sinks do before each receive. It is a run of the protocol, and it has ended
     exactly when the sinks are gone; otherwise it waits on an empty queue.
     */
    method Drain(rounds: seq<seq<Action>>, attempts: nat -> Attempt) returns (ghost actions: seq<Action>)
      requires Receiving()
      requires forall k, i :: 0 <= k < |rounds| && 0 <= i < |rounds[k]| ==> BySinks(rounds[k][i])
      modifies this, scope
      ensures Valid() && Run(scope.hasher, old(s), actions) == Some(s)
      ensures s.queue == [] && s.inFlight == None && (s.drain == Ended <==> s.sinksDropped) && s.drain != Aborted
    {
      actions := [];
      var k, n := 0, 0;
      while k < |rounds| || queue != []
        invariant 0 <= k <= |rounds| && Receiving() && Run(scope.hasher, old(s), actions) == Some(s)
        decreases |rounds| - k, |queue|
      {
        if k < |rounds| {
          ghost var before := s;
          ghost var taken := SinksAct(rounds[k]);
          RunThen(scope.hasher, old(s), actions, before, taken, s);
          actions, k := actions + taken, k + 1;
        }
        if queue != [] {
          RunTurn(scope.hasher, old(s), actions, s, attempts(n));
          TakeTurn(attempts(n));
          actions, n := actions + [Receive] + [Settle(attempts(n))], n + 1;
        }
      }
      if sinksDropped {
        RunOneMore(scope.hasher, old(s), actions, s, End);
        drain := Ended;
        s := s.(drain := Ended);
        actions := actions + [End];
      }
    }
  }
}
