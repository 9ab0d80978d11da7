/** One append dispatched through its behaviors: tracing, metrics, transaction, handler. */
module Pipeline {
  import opened Prelude
  import opened MerkleHashing

  datatype Behavior = Tracing | Metrics | Transaction

  /** What `next` is at each level: the handler, or a behavior around a deeper level. */
  datatype Link = Handler | Wrap(behavior: Behavior, inner: Link)

  datatype AuditError = Storage | LogNotFound | KeyNotFound

  datatype CommitOutcome = Acknowledged | Refused | Unacknowledged

  /** What the storage does during one dispatch. */
  datatype Faults = Faults(beginFails: bool, insertFails: bool, commit: CommitOutcome)

  /** The log as a load reads it, the transaction's view of it while one is open, and the counters. */
  datatype World = World(created: bool, log: seq<Digest>, slot: Option<seq<Digest>>, appended: nat, dropped: nat)

  type Response = Result<nat, AuditError>

  // ---- What a link does ----

  function Handled(h: MerkleHasher, w: World, record: Bytes, f: Faults): (World, Response) {
    if w.slot.None? then (w, Err(Storage))
    else if !w.created then (w, Err(LogNotFound))
    else if f.insertFails then (w, Err(Storage))
    else (w.(slot := Some(w.slot.value + [Leaf(h, record)])), Ok(|w.slot.value|))
  }

  function Counted(w: World, r: Response): World {
    if r.Ok? then w.(appended := w.appended + 1) else w.(dropped := w.dropped + 1)
  }

  /** The end of a transaction: the commit on success, the rollback on failure. */
  function Closed(w: World, r: Response, f: Faults): (World, Response) {
    if r.Err? then (w.(slot := None), r)
    else if w.slot.None? then (w, Err(Storage))
    else
      match f.commit
      case Acknowledged => (w.(log := w.slot.value, slot := None), r)
      case Refused => (w.(slot := None), Err(Storage))
      case Unacknowledged => (w.(log := w.slot.value, slot := None), Err(Storage))
  }

  datatype Visit = Enter(behavior: Behavior) | Reached | Exit(behavior: Behavior)

  /** What a call leaves behind: the state, the answer, and the links it passed through. */
  datatype Called = Called(world: World, response: Response, visits: seq<Visit>)

  /** A behavior is entered before and left after whatever happens inside it. */
  function Around(behavior: Behavior, world: World, response: Response, inside: seq<Visit>): Called {
    Called(world, response, [Enter(behavior)] + inside + [Exit(behavior)])
  }

  /** A transaction cannot begin inside an open one, nor when the storage refuses. */
  predicate CannotBegin(w: World, f: Faults) {
    w.slot.Some? || f.beginFails
  }

  function Call(h: MerkleHasher, link: Link, w: World, record: Bytes, f: Faults): Called {
    match link
    case Handler =>
      var (after, r) := Handled(h, w, record, f);
      Called(after, r, [Reached])
    case Wrap(Tracing, inner) =>
      var c := Call(h, inner, w, record, f);
      Around(Tracing, c.world, c.response, c.visits)
    case Wrap(Metrics, inner) =>
      var c := Call(h, inner, w, record, f);
      Around(Metrics, Counted(c.world, c.response), c.response, c.visits)
    case Wrap(Transaction, inner) =>
      if CannotBegin(w, f) then Around(Transaction, w, Err(Storage), [])
      else
        var c := Call(h, inner, w.(slot := Some(w.log)), record, f);
        var (after, r) := Closed(c.world, c.response, f);
        Around(Transaction, after, r, c.visits)
  }

  // ---- The mediator ----

  /** The chain for a list of behaviors: the first is outermost. */
  function Nest(behaviors: seq<Behavior>): Link {
    if behaviors == [] then Handler else Wrap(behaviors[0], Nest(behaviors[1..]))
  }

  function Enters(behaviors: seq<Behavior>): seq<Visit> {
    if behaviors == [] then [] else [Enter(behaviors[0])] + Enters(behaviors[1..])
  }

  function Exits(behaviors: seq<Behavior>): seq<Visit> {
    if behaviors == [] then [] else Exits(behaviors[1..]) + [Exit(behaviors[0])]
  }

  /** The transaction at this place cannot begin: the storage refuses, or one is open already. */
  predicate RefusesAt(behaviors: seq<Behavior>, w: World, f: Faults, i: nat) {
    i < |behaviors| && behaviors[i] == Transaction && (CannotBegin(w, f) || Transaction in behaviors[..i])
  }

  /** Nothing before this place refuses, and this place does. */
  predicate FirstRefusal(behaviors: seq<Behavior>, w: World, f: Faults, i: nat) {
    RefusesAt(behaviors, w, f, i) && forall j: nat :: j < i ==> !RefusesAt(behaviors, w, f, j)
  }

  /** What is left of the list after its first behavior sees a state in which that behavior has begun. */
  function Entered(b: Behavior, w: World): World {
    if b == Transaction then w.(slot := Some(w.log)) else w
  }

  lemma RefusalInRest(behaviors: seq<Behavior>, w: World, f: Faults, i: nat)
    requires behaviors != [] && !RefusesAt(behaviors, w, f, 0)
    ensures RefusesAt(behaviors, w, f, i + 1) <==> RefusesAt(behaviors[1..], Entered(behaviors[0], w), f, i)
  {
    if i + 1 < |behaviors| {
      assert behaviors[..i + 1] == [behaviors[0]] + behaviors[1..][..i];
    }
  }

  /** One more behavior around a chain adds its enter and its exit. */
  lemma CallAddsVisits(h: MerkleHasher, behaviors: seq<Behavior>, w: World, record: Bytes, f: Faults)
    requires behaviors != [] && !RefusesAt(behaviors, w, f, 0)
    ensures Call(h, Nest(behaviors), w, record, f).visits
         == [Enter(behaviors[0])]
            + Call(h, Nest(behaviors[1..]), Entered(behaviors[0], w), record, f).visits + [Exit(behaviors[0])]
  {
  }

  /**
   Unless some transaction cannot begin, every behavior is entered in the declared order, then the handler is
   reached, then the behaviors are left in reverse.
   */
  lemma {:induction false} UnrefusedCallReachesHandler(h: MerkleHasher, behaviors: seq<Behavior>, w: World,
                                                       record: Bytes,
                                                       f: Faults)
    requires forall i: nat :: !RefusesAt(behaviors, w, f, i)
    ensures Call(h, Nest(behaviors), w, record, f).visits == Enters(behaviors) + [Reached] + Exits(behaviors)
    decreases |behaviors|
  {
    if behaviors == [] {
    } else {
      var rest, w' := behaviors[1..], Entered(behaviors[0], w);
      forall i: nat ensures !RefusesAt(rest, w', f, i) {
        RefusalInRest(behaviors, w, f, i);
      }
      CallAddsVisits(h, behaviors, w, record, f);
      UnrefusedCallReachesHandler(h, rest, w', record, f);
    }
  }

  /** The first transaction that cannot begin turns the call back: what is inside it is never entered. */
  lemma {:induction false} RefusedCallTurnsBack(h: MerkleHasher, behaviors: seq<Behavior>, w: World, record: Bytes,
                                                f: Faults, k: nat)
    requires FirstRefusal(behaviors, w, f, k)
    ensures Call(h, Nest(behaviors), w, record, f).visits == Enters(behaviors[..k + 1]) + Exits(behaviors[..k + 1])
    decreases k
  {
    var upto := behaviors[..k + 1];
    if k == 0 {
      assert upto == [Transaction] && upto[1..] == [];
    } else {
      var rest, w' := behaviors[1..], Entered(behaviors[0], w);
      RefusalInRest(behaviors, w, f, k - 1);
      forall j: nat | j < k - 1 ensures !RefusesAt(rest, w', f, j) {
        RefusalInRest(behaviors, w, f, j);
      }
      RefusedCallTurnsBack(h, rest, w', record, f, k - 1);
      CallAddsVisits(h, behaviors, w, record, f);
      assert upto[1..] == rest[..k];
    }
  }

  lemma {:induction false} NeverReached(behaviors: seq<Behavior>)
    ensures Reached !in Enters(behaviors) && Reached !in Exits(behaviors)
  {
    if behaviors == [] {
    } else {
      NeverReached(behaviors[1..]);
    }
  }

  /** For every list of behaviors, the whole chain is passed in order if and only if no transaction in it is refused. */
  lemma BehaviorsNestInOrder(h: MerkleHasher, behaviors: seq<Behavior>, w: World, record: Bytes, f: Faults)
    ensures Call(h, Nest(behaviors), w, record, f).visits == Enters(behaviors) + [Reached] + Exits(behaviors)
       <==> forall i: nat :: !RefusesAt(behaviors, w, f, i)
  {
    if forall i: nat :: !RefusesAt(behaviors, w, f, i) {
      UnrefusedCallReachesHandler(h, behaviors, w, record, f);
    } else {
      var i: nat :| RefusesAt(behaviors, w, f, i);
      var k := LeastRefusal(behaviors, w, f, i);
      RefusedCallTurnsBack(h, behaviors, w, record, f, k);
      NeverReached(behaviors[..k + 1]);
      assert (Enters(behaviors) + [Reached] + Exits(behaviors))[|Enters(behaviors)|] == Reached;
    }
  }

  lemma {:induction false} LeastRefusal(behaviors: seq<Behavior>, w: World, f: Faults, i: nat) returns (k: nat)
    requires RefusesAt(behaviors, w, f, i)
    ensures FirstRefusal(behaviors, w, f, k)
    decreases i
  {
    if j: nat :| j < i && RefusesAt(behaviors, w, f, j) {
      k := LeastRefusal(behaviors, w, f, j);
    } else {
      k := i;
    }
  }

  /** The loop that wraps from the last behavior to the first builds exactly that chain. */
  method BuildChain(behaviors: seq<Behavior>) returns (next: Link)
    ensures next == Nest(behaviors)
  {
    next := Handler;
    var i := |behaviors|;
    assert behaviors[i..] == [];
    while i > 0
      invariant 0 <= i <= |behaviors| && next == Nest(behaviors[i..])
    {
      i := i - 1;
      assert behaviors[i..][0] == behaviors[i] && behaviors[i..][1..] == behaviors[i + 1..];
      next := Wrap(behaviors[i], next);
    }
  }

  /** The shared state one dispatch works on, changed step by step by the behaviors and the handler. */
  class RequestScope {
    const hasher: MerkleHasher
    const created: bool
    var log: seq<Digest>
    var slot: Option<seq<Digest>>
    var appended: nat
    var dropped: nat

    constructor (hasher: MerkleHasher, created: bool, log: seq<Digest>)
      ensures this.hasher == hasher && State() == World(created, log, None, 0, 0)
    {
      this.hasher, this.created, this.log := hasher, created, log;
      slot, appended, dropped := None, 0, 0;
    }

    function State(): World
      reads this
    {
      World(created, log, slot, appended, dropped)
    }

    /** Calls a link of the chain, and tells which links were passed. */
    method Next(link: Link, record: Bytes, f: Faults) returns (r: Response, visits: seq<Visit>)
      modifies this
      ensures Called(State(), r, visits) == Call(hasher, link, old(State()), record, f)
      decreases link
    {
      match link
      case Handler =>
        r := AppendLeaf(record, f);
        visits := [Reached];
      case Wrap(Tracing, inner) =>
        r, visits := Next(inner, record, f);
        visits := [Enter(Tracing)] + visits + [Exit(Tracing)];
      case Wrap(Metrics, inner) =>
        r, visits := Next(inner, record, f);
        if r.Ok? { appended := appended + 1; } else { dropped := dropped + 1; }
        visits := [Enter(Metrics)] + visits + [Exit(Metrics)];
      case Wrap(Transaction, inner) =>
        if slot.Some? || f.beginFails {
          r, visits := Err(Storage), [];
        } else {
          slot := Some(log);
          r, visits := Next(inner, record, f);
          if r.Ok? { r := Commit(r, f); } else { slot := None; }
        }
        visits := [Enter(Transaction)] + visits + [Exit(Transaction)];
    }

    method AppendLeaf(record: Bytes, f: Faults) returns (r: Response)
      modifies this`slot
      ensures (State(), r) == Handled(hasher, old(State()), record, f)
    {
      if slot.None? { return Err(Storage); }
      if !created { return Err(LogNotFound); }
      if f.insertFails { return Err(Storage); }
      r := Ok(|slot.value|);
      slot := Some(slot.value + [Leaf(hasher, record)]);
    }

    method Commit(value: Response, f: Faults) returns (r: Response)
      requires value.Ok?
      modifies this`slot, this`log
      ensures (State(), r) == Closed(old(State()), value, f)
    {
      if slot.None? { return Err(Storage); }
      if !f.commit.Refused? { log := slot.value; }
      slot := None;
      r := if f.commit.Acknowledged? then value else Err(Storage);
    }

    /**
     Sends a request through the chain built from a list of behaviors. The whole chain is passed in the declared
     order and back if and only if no transaction in it is refused.
     */
    method Send(behaviors: seq<Behavior>, record: Bytes, f: Faults) returns (r: Response, visits: seq<Visit>)
      modifies this
      ensures Called(State(), r, visits) == Call(hasher, Nest(behaviors), old(State()), record, f)
      ensures visits == Enters(behaviors) + [Reached] + Exits(behaviors)
         <==> forall i: nat :: !RefusesAt(behaviors, old(State()), f, i)
    {
      BehaviorsNestInOrder(hasher, behaviors, State(), record, f);
      var next := BuildChain(behaviors);
      r, visits := Next(next, record, f);
    }

    /** Sends an append through the behaviors registered for it. */
    method SendAppend(record: Bytes, f: Faults) returns (r: Response)
      modifies this
      ensures (State(), r) == Dispatch(hasher, old(State()), record, f)
    {
      ghost var visits;
      r, visits := Send(APPEND_BEHAVIORS, record, f);
    }
  }

  // ---- The append pipeline ----

  /** The behaviors registered for an append, in order. */
  const APPEND_BEHAVIORS: seq<Behavior> := [Tracing, Metrics, Transaction]

  function Dispatch(h: MerkleHasher, w: World, record: Bytes, f: Faults): (World, Response) {
    var c := Call(h, Nest(APPEND_BEHAVIORS), w, record, f);
    (c.world, c.response)
  }

  /** The leaf is in the transaction and the commit is about to run. */
  predicate ReachesCommit(created: bool, f: Faults) {
    !f.beginFails && created && !f.insertFails
  }

  lemma DispatchUnfolds(h: MerkleHasher, w: World, record: Bytes, f: Faults)
    requires w.slot.None?
    ensures Dispatch(h, w, record, f) ==
      if !ReachesCommit(w.created, f) then
        (w.(dropped := w.dropped + 1), Err(if !f.beginFails && !w.created then LogNotFound else Storage))
      else
        var stored := w.log + [Leaf(h, record)];
        match f.commit
        case Acknowledged => (w.(log := stored, appended := w.appended + 1), Ok(|w.log|))
        case Refused => (w.(dropped := w.dropped + 1), Err(Storage))
        case Unacknowledged => (w.(log := stored, dropped := w.dropped + 1), Err(Storage))
  {
    assert Nest(APPEND_BEHAVIORS) == Wrap(Tracing, Wrap(Metrics, Wrap(Transaction, Handler))) by {
      assert APPEND_BEHAVIORS[1..] == [Metrics, Transaction];
      assert APPEND_BEHAVIORS[1..][1..] == [Transaction];
      assert APPEND_BEHAVIORS[1..][1..][1..] == [];
    }
    var view := w.(slot := Some(w.log));
    var handled := Handled(h, view, record, f);
    assert Call(h, Handler, view, record, f) == Called(handled.0, handled.1, [Reached]);
    var inside := Call(h, Wrap(Transaction, Handler), w, record, f);
    var closed := Closed(handled.0, handled.1, f);
    assert !f.beginFails ==> inside.world == closed.0 && inside.response == closed.1;
    var counted := Call(h, Wrap(Metrics, Wrap(Transaction, Handler)), w, record, f);
    assert counted.world == Counted(inside.world, inside.response) && counted.response == inside.response;
  }

  /**
   Each append is counted exactly once, as appended exactly when the caller is told so, and leaves no transaction open.
   */
  lemma CountedExactlyOnce(h: MerkleHasher, w: World, record: Bytes, f: Faults)
    requires w.slot.None?
    ensures var (after, r) := Dispatch(h, w, record, f);
      && after.slot.None?
      && after.appended == w.appended + (if r.Ok? then 1 else 0)
      && after.dropped == w.dropped + (if r.Ok? then 0 else 1)
      && (r.Ok? ==> r.value == |w.log| && after.log == w.log + [Leaf(h, record)])
  {
    DispatchUnfolds(h, w, record, f);
  }

  /**
   An append counted as dropped changed nothing, and one counted as appended is in the log, except when the
   commit took effect and its acknowledgement was lost.
   */
  lemma CountMatchesLogUnlessCommitUnacknowledged(h: MerkleHasher, w: World, record: Bytes, f: Faults)
    requires w.slot.None?
    ensures var (after, r) := Dispatch(h, w, record, f);
      (after.log == (if after.appended > w.appended then w.log + [Leaf(h, record)] else w.log))
      <==> !(ReachesCommit(w.created, f) && f.commit == Unacknowledged)
  {
    DispatchUnfolds(h, w, record, f);
    assert |w.log + [Leaf(h, record)]| != |w.log|;
  }
}
