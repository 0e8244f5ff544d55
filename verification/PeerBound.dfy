/**
 Connecting to peer candidates (spv/sync.go): a loop that takes a semaphore slot per candidate and one
 worker per candidate, as interleaved steps. Candidate addresses may repeat among live workers, since
 a candidate is checked against the peer tables before its worker enters it there.
 */
module PeerBound {

  const MAX_PEERS: nat := 8

  type Key = nat
  type WorkerId = nat

  /** HasSlot to Backoff hold a slot; Draining waits for the workers, having kept its slot or not. */
  datatype MainPC = Top | HasSlot | Chosen(k: Key) | Backoff | Draining(kept: bool) | Returned(kept: bool)

  datatype WorkerPC =
    | Spawned(k: Key) | Connecting(k: Key) | Connected(k: Key) | Cleaned(k: Key) | Finished(k: Key)

  datatype State = State(
    main: MainPC, slots: nat, workers: map<WorkerId, WorkerPC>, connecting: set<Key>, remotes: set<Key>)

  datatype Action =
    | Acquire | Cancel | Candidate(k: Key) | NoCandidate | Retry | Spawn(id: WorkerId)
    | Advance(id: WorkerId, ok: bool)
    | Return

  predicate Enabled(s: State, a: Action) {
    match a
    case Acquire => s.main == Top && s.slots < MAX_PEERS
    case Cancel => s.main in {Top, Backoff}
    case Candidate(k) => s.main == HasSlot && k !in s.connecting && k !in s.remotes
    case NoCandidate => s.main == HasSlot
    case Retry => s.main == Backoff && s.slots > 0
    case Spawn(id) => s.main.Chosen? && id !in s.workers
    case Advance(id, _) => id in s.workers && (s.workers[id].Finished? ==> s.slots > 0)
    case Return => s.main.Draining? && forall id | id in s.workers :: s.workers[id].Finished?
  }

  /** A worker enters the connecting table, then the peer table, and leaves both before it is waited for. */
  function AdvanceWorker(s: State, id: WorkerId, ok: bool): State
    requires id in s.workers
  {
    match s.workers[id]
    case Spawned(k) => s.(workers := s.workers[id := Connecting(k)], connecting := s.connecting + {k})
    case Connecting(k) =>
      if ok then
        s.(workers := s.workers[id := Connected(k)], connecting := s.connecting - {k}, remotes := s.remotes + {k})
      else s.(workers := s.workers[id := Cleaned(k)], connecting := s.connecting - {k})
    case Connected(k) => s.(workers := s.workers[id := Cleaned(k)], remotes := s.remotes - {k})
    case Cleaned(k) => s.(workers := s.workers[id := Finished(k)])
    case Finished(_) => s.(workers := s.workers - {id}, slots := if s.slots > 0 then s.slots - 1 else 0)
  }

  function Next(s: State, a: Action): State
    requires Enabled(s, a)
  {
    match a
    case Acquire => s.(main := HasSlot, slots := s.slots + 1)
    case Cancel => s.(main := Draining(s.main == Backoff))
    case Candidate(k) => s.(main := Chosen(k))
    case NoCandidate => s.(main := Backoff)
    case Retry => s.(main := Top, slots := s.slots - 1)
    case Spawn(id) => s.(main := Top, workers := s.workers[id := Spawned(s.main.k)])
    case Advance(id, ok) => AdvanceWorker(s, id, ok)
    case Return => s.(main := Returned(s.main.kept))
  }

  /** Slots held by the loop itself. */
  function MainSlots(m: MainPC): nat {
    match m
    case Top => 0
    case HasSlot => 1
    case Chosen(_) => 1
    case Backoff => 1
    case Draining(kept) => if kept then 1 else 0
    case Returned(kept) => if kept then 1 else 0
  }

  ghost predicate Step(s: State, t: State) {
    exists a :: Enabled(s, a) && t == Next(s, a)
  }

  ghost predicate IsRun(run: seq<State>) {
    && |run| > 0 && run[0] == State(Top, 0, map[], {}, {})
    && forall i | 0 <= i < |run| - 1 :: Step(run[i], run[i + 1])
  }

  ghost predicate ConnectingIn(s: State, id: WorkerId, k: Key) {
    id in s.workers && s.workers[id] == Connecting(k)
  }

  ghost predicate ConnectedIn(s: State, id: WorkerId, k: Key) {
    id in s.workers && s.workers[id] == Connected(k)
  }

  ghost predicate Inv(s: State) {
    && s.slots == |s.workers| + MainSlots(s.main) && s.slots <= MAX_PEERS
    && (forall k | k in s.connecting :: exists id :: ConnectingIn(s, id, k))
    && (forall k | k in s.remotes :: exists id :: ConnectedIn(s, id, k))
    && (s.main.Returned? ==> forall id | id in s.workers :: s.workers[id].Finished?)
  }

  lemma WorkerKeepsInv(s: State, id: WorkerId, ok: bool)
    requires Inv(s) && Enabled(s, Advance(id, ok))
    ensures Inv(Next(s, Advance(id, ok)))
  {
    var s' := Next(s, Advance(id, ok));
    if s.workers[id].Finished? {
      assert s'.workers.Keys == s.workers.Keys - {id};
    } else {
      assert s'.workers.Keys == s.workers.Keys;
    }
    forall k | k in s'.connecting ensures exists j :: ConnectingIn(s', j, k) {
      if k in s.connecting {
        var j :| ConnectingIn(s, j, k);
        if j != id {
          assert ConnectingIn(s', j, k);
        } else {
          assert false;
        }
      } else {
        assert ConnectingIn(s', id, k);
      }
    }
    forall k | k in s'.remotes ensures exists j :: ConnectedIn(s', j, k) {
      if k in s.remotes {
        var j :| ConnectedIn(s, j, k);
        if j != id {
          assert ConnectedIn(s', j, k);
        } else {
          assert false;
        }
      } else {
        assert ConnectedIn(s', id, k);
      }
    }
  }

  lemma StepKeepsInv(s: State, a: Action)
    requires Inv(s) && Enabled(s, a)
    ensures Inv(Next(s, a))
  {
    match a
    case Advance(id, ok) =>
      WorkerKeepsInv(s, id, ok);
    case Spawn(id) =>
      SpawnKeepsInv(s, id);
    case _ =>
      MainKeepsInv(s, a);
  }

  lemma SpawnKeepsInv(s: State, id: WorkerId)
    requires Inv(s) && Enabled(s, Spawn(id))
    ensures Inv(Next(s, Spawn(id)))
  {
    var s' := Next(s, Spawn(id));
    assert s'.workers.Keys == s.workers.Keys + {id};
    SameKeysHeld(s, s');
  }

  lemma MainKeepsInv(s: State, a: Action)
    requires Inv(s) && Enabled(s, a) && !a.Advance? && !a.Spawn?
    ensures Inv(Next(s, a))
  {
    SameKeysHeld(s, Next(s, a));
  }

  /** A step that leaves the peer tables alone and keeps every worker where it was. */
  lemma SameKeysHeld(s: State, s': State)
    requires Inv(s) && s'.connecting == s.connecting && s'.remotes == s.remotes
    requires forall id | id in s.workers :: id in s'.workers && s'.workers[id] == s.workers[id]
    ensures forall k | k in s'.connecting :: exists id :: ConnectingIn(s', id, k)
    ensures forall k | k in s'.remotes :: exists id :: ConnectedIn(s', id, k)
  {
    forall k | k in s'.connecting ensures exists id :: ConnectingIn(s', id, k) {
      var id :| ConnectingIn(s, id, k);
      assert ConnectingIn(s', id, k);
    }
    forall k | k in s'.remotes ensures exists id :: ConnectedIn(s', id, k) {
      var id :| ConnectedIn(s, id, k);
      assert ConnectedIn(s', id, k);
    }
  }

  lemma {:induction false} RunKeepsInv(run: seq<State>, i: nat)
    requires IsRun(run) && i < |run|
    ensures Inv(run[i])
  {
    if i > 0 {
      RunKeepsInv(run, i - 1);
      assert Step(run[i - 1], run[i - 1 + 1]);
      var a :| Enabled(run[i - 1], a) && run[i] == Next(run[i - 1], a);
      StepKeepsInv(run[i - 1], a);
    }
  }

  ghost function KeysOf(workers: map<WorkerId, WorkerPC>): set<Key> {
    set id | id in workers :: workers[id].k
  }

  /** The workers cannot hold more keys than there are workers, however many share a key. */
  lemma {:induction false} KeysOfWorkers(workers: map<WorkerId, WorkerPC>)
    ensures |KeysOf(workers)| <= |workers|
    decreases |workers|
  {
    if |workers| == 0 {
      assert KeysOf(workers) == {};
    } else {
      var id :| id in workers;
      var rest := workers - {id};
      assert rest.Keys == workers.Keys - {id};
      KeysOfWorkers(rest);
      forall k | k in KeysOf(workers) ensures k in KeysOf(rest) + {workers[id].k} {
        var j :| j in workers && workers[j].k == k;
        assert j != id ==> j in rest && rest[j].k == k;
      }
      SmallerSet(KeysOf(workers), KeysOf(rest) + {workers[id].k});
    }
  }

  lemma {:induction false} SmallerSet<T>(a: set<T>, b: set<T>)
    requires a <= b
    ensures |a| <= |b|
  {
    if a != {} {
      var x :| x in a;
      SmallerSet(a - {x}, b - {x});
    }
  }

  /** A worker between entering its key in a table and removing it again. */
  ghost predicate LiveIn(s: State, id: WorkerId, k: Key) {
    ConnectingIn(s, id, k) || ConnectedIn(s, id, k)
  }

  /**
   In every interleaving the two tables together hold at most eight keys, each of them the key of a
   worker that is connecting or connected, and a caller that has returned left both tables empty.
   */
  lemma AtMostMaxPeers(run: seq<State>, i: nat)
    requires IsRun(run) && i < |run|
    ensures |run[i].connecting + run[i].remotes| <= |run[i].workers| <= 8
    ensures forall k | k in run[i].connecting + run[i].remotes :: exists id :: LiveIn(run[i], id, k)
    ensures run[i].main.Returned? ==> run[i].connecting + run[i].remotes == {}
  {
    RunKeepsInv(run, i);
    var s := run[i];
    forall k | k in s.connecting + s.remotes
      ensures k in KeysOf(s.workers) && exists id :: LiveIn(s, id, k)
    {
      if k in s.connecting {
        var id :| ConnectingIn(s, id, k);
        assert LiveIn(s, id, k);
      } else {
        var id :| ConnectedIn(s, id, k);
        assert LiveIn(s, id, k);
      }
    }
    SmallerSet(s.connecting + s.remotes, KeysOf(s.workers));
    KeysOfWorkers(s.workers);
    assert s.main.Returned? ==> forall k :: k !in s.connecting + s.remotes;
  }

  // ---------------------------------------------------------------- when every connected peer is listed

  /** Every connected peer is in the peer table. */
  ghost predicate AllListed(s: State) {
    forall id, k :: ConnectedIn(s, id, k) ==> k in s.remotes
  }

  /** The step removes the table entry of a key that another connected worker still has. */
  ghost predicate Hides(s: State, a: Action) {
    a.Advance? && exists k, other :: ConnectedIn(s, a.id, k) && ConnectedIn(s, other, k) && other != a.id
  }

  /** A worker that has a candidate and has not lost it yet. */
  ghost predicate LiveWith(s: State, id: WorkerId, k: Key) {
    id in s.workers && s.workers[id] in {Spawned(k), Connecting(k), Connected(k)}
  }

  ghost predicate Shared(s: State, id: WorkerId, other: WorkerId, k: Key) {
    id != other && LiveWith(s, id, k) && LiveWith(s, other, k)
  }

  /** No two live workers have the same candidate. */
  ghost predicate Unshared(s: State) {
    forall id, other, k :: !Shared(s, id, other, k)
  }

  /** From a state in which every connected peer is listed, a step keeps that exactly if it hides none. */
  lemma StepListsExactly(s: State, a: Action)
    requires AllListed(s) && Enabled(s, a)
    ensures AllListed(Next(s, a)) <==> !Hides(s, a)
  {
    var s' := Next(s, a);
    if Hides(s, a) {
      var k, other :| ConnectedIn(s, a.id, k) && ConnectedIn(s, other, k) && other != a.id;
      assert ConnectedIn(s', other, k) && k !in s'.remotes;
    } else {
      forall id, k | ConnectedIn(s', id, k) ensures k in s'.remotes {
        assert a.Advance? && id == a.id ==> !ConnectedIn(s, id, k);
        assert ConnectedIn(s, id, k) || (a.Advance? && id == a.id);
        assert a.Advance? && id != a.id && ConnectedIn(s, id, k) ==> !ConnectedIn(s, a.id, k);
      }
    }
  }

  /** Every worker that is connecting has its key in the connecting table. */
  ghost predicate AllEntered(s: State) {
    forall id, k :: ConnectingIn(s, id, k) ==> k in s.connecting
  }

  /** The step removes the connecting entry of a key that another connecting worker still has. */
  ghost predicate Leaves(s: State, a: Action) {
    a.Advance? && exists k, other :: ConnectingIn(s, a.id, k) && ConnectingIn(s, other, k) && other != a.id
  }

  lemma StepEntersExactly(s: State, a: Action)
    requires AllEntered(s) && Enabled(s, a)
    ensures AllEntered(Next(s, a)) <==> !Leaves(s, a)
  {
    var s' := Next(s, a);
    if Leaves(s, a) {
      var k, other :| ConnectingIn(s, a.id, k) && ConnectingIn(s, other, k) && other != a.id;
      assert ConnectingIn(s', other, k) && k !in s'.connecting;
    } else {
      forall id, k | ConnectingIn(s', id, k) ensures k in s'.connecting {
        assert ConnectingIn(s, id, k) || (a.Advance? && id == a.id);
        assert a.Advance? && id != a.id && ConnectingIn(s, id, k) ==> !ConnectingIn(s, a.id, k);
      }
    }
  }

  /** A run together with the actions taken. */
  ghost predicate IsTrace(run: seq<State>, acts: seq<Action>) {
    && |run| == |acts| + 1 && run[0] == State(Top, 0, map[], {}, {})
    && forall i | 0 <= i < |acts| :: TakenAt(run, acts, i)
  }

  ghost predicate TakenAt(run: seq<State>, acts: seq<Action>, i: nat)
    requires i < |acts| < |run|
  {
    Enabled(run[i], acts[i]) && run[i + 1] == Next(run[i], acts[i])
  }

  /** Over every run: all connected peers are always listed if and only if no step hides one. */
  lemma RunListsExactly(run: seq<State>, acts: seq<Action>)
    requires IsTrace(run, acts)
    ensures (forall i | 0 <= i < |run| :: AllListed(run[i])) <==> forall i | 0 <= i < |acts| :: !Hides(run[i], acts[i])
  {
    if forall i | 0 <= i < |run| :: AllListed(run[i]) {
      forall i | 0 <= i < |acts| ensures !Hides(run[i], acts[i]) {
        assert TakenAt(run, acts, i) && AllListed(run[i]) && AllListed(run[i + 1]);
        StepListsExactly(run[i], acts[i]);
      }
    }
    if forall i | 0 <= i < |acts| :: !Hides(run[i], acts[i]) {
      forall i | 0 <= i < |run| ensures AllListed(run[i]) {
        NothingHidden(run, acts, i);
      }
    }
  }

  lemma {:induction false} NothingHidden(run: seq<State>, acts: seq<Action>, i: nat)
    requires IsTrace(run, acts) && i < |run| && forall j | 0 <= j < |acts| :: !Hides(run[j], acts[j])
    ensures AllListed(run[i])
  {
    if i > 0 {
      NothingHidden(run, acts, i - 1);
      assert TakenAt(run, acts, i - 1);
      StepListsExactly(run[i - 1], acts[i - 1]);
    }
  }

  lemma UnsharedHidesNothing(s: State, a: Action)
    requires Unshared(s)
    ensures !Hides(s, a)
  {
    if Hides(s, a) {
      var k, other :| ConnectedIn(s, a.id, k) && ConnectedIn(s, other, k) && other != a.id;
      assert Shared(s, a.id, other, k);
    }
  }

  /** Only giving a worker the candidate of a live one makes two workers share it. */
  ghost predicate Duplicates(s: State, a: Action) {
    a.Spawn? && s.main.Chosen? && exists other :: LiveWith(s, other, s.main.k)
  }

  lemma StepSharesExactly(s: State, a: Action)
    requires Unshared(s) && Enabled(s, a)
    ensures Unshared(Next(s, a)) <==> !Duplicates(s, a)
  {
    var s' := Next(s, a);
    if Duplicates(s, a) {
      var other :| LiveWith(s, other, s.main.k);
      assert Shared(s', a.id, other, s.main.k);
    } else {
      forall id, other, k ensures !Shared(s', id, other, k) {
        assert !Shared(s, id, other, k);
        assert a.Spawn? ==> !LiveWith(s, id, s.main.k) && !LiveWith(s, other, s.main.k);
        assert a.Advance? && LiveWith(s', a.id, k) ==> LiveWith(s, a.id, k);
      }
    }
  }

  lemma UnsharedLeavesNothing(s: State, a: Action)
    requires Unshared(s)
    ensures !Leaves(s, a)
  {
    if Leaves(s, a) {
      var k, other :| ConnectingIn(s, a.id, k) && ConnectingIn(s, other, k) && other != a.id;
      assert Shared(s, a.id, other, k);
    }
  }

  /**
   In a run in which no two live workers ever share a candidate, every connecting worker is always in the
   connecting table and every connected peer in the peer table.
   */
  lemma {:induction false} UnsharedRunLists(run: seq<State>, i: nat)
    requires IsRun(run) && i < |run| && forall j | 0 <= j < i :: Unshared(run[j])
    ensures AllListed(run[i]) && AllEntered(run[i])
  {
    if i > 0 {
      UnsharedRunLists(run, i - 1);
      assert Step(run[i - 1], run[i - 1 + 1]);
      var a :| Enabled(run[i - 1], a) && run[i] == Next(run[i - 1], a);
      UnsharedHidesNothing(run[i - 1], a);
      StepListsExactly(run[i - 1], a);
      UnsharedLeavesNothing(run[i - 1], a);
      StepEntersExactly(run[i - 1], a);
    }
  }

  /** The workers go on by themselves, without new candidates. */
  ghost predicate WorkerStep(s: State, t: State) {
    exists id, ok :: Enabled(s, Advance(id, ok)) && t == Next(s, Advance(id, ok))
  }

  ghost predicate IsPath(path: seq<State>) {
    |path| > 0 && forall i | 0 <= i < |path| - 1 :: WorkerStep(path[i], path[i + 1])
  }

  lemma {:induction false} UnsharedPathLists(path: seq<State>, i: nat)
    requires IsPath(path) && i < |path| && AllListed(path[0]) && Unshared(path[0])
    ensures AllListed(path[i]) && Unshared(path[i])
  {
    if i > 0 {
      UnsharedPathLists(path, i - 1);
      assert WorkerStep(path[i - 1], path[i - 1 + 1]);
      var id, ok :| Enabled(path[i - 1], Advance(id, ok)) && path[i] == Next(path[i - 1], Advance(id, ok));
      UnsharedHidesNothing(path[i - 1], Advance(id, ok));
      StepListsExactly(path[i - 1], Advance(id, ok));
      StepSharesExactly(path[i - 1], Advance(id, ok));
    }
  }

  lemma WorkerGoesOn(path: seq<State>, id: WorkerId) returns (longer: seq<State>)
    requires IsPath(path) && id in path[|path| - 1].workers && !path[|path| - 1].workers[id].Finished?
    ensures IsPath(longer) && longer[0] == path[0]
    ensures longer[|longer| - 1] == Next(path[|path| - 1], Advance(id, true))
  {
    longer := path + [Next(path[|path| - 1], Advance(id, true))];
    assert WorkerStep(path[|path| - 1], longer[|path|]);
  }

  /** A live worker may go on to be connected, the others staying where they are. */
  lemma {:induction false} BecomesConnected(path: seq<State>, id: WorkerId, k: Key) returns (longer: seq<State>)
    requires IsPath(path) && LiveWith(path[|path| - 1], id, k)
    ensures IsPath(longer) && longer[0] == path[0] && ConnectedIn(longer[|longer| - 1], id, k)
    ensures longer[|longer| - 1].workers == path[|path| - 1].workers[id := Connected(k)]
    decreases match path[|path| - 1].workers[id] case Spawned(_) => 2 case Connecting(_) => 1 case _ => 0
  {
    var s := path[|path| - 1];
    if s.workers[id].Connected? {
      assert s.workers == s.workers[id := Connected(k)];
      longer := path;
    } else {
      var next := WorkerGoesOn(path, id);
      longer := BecomesConnected(next, id, k);
    }
  }

  /**
   Where every connected peer is listed, the workers can go on to a state where one is not, if and only if two
   live workers have the same candidate.
   */
  lemma CanHideExactly(s: State)
    requires AllListed(s)
    ensures (exists path :: IsPath(path) && path[0] == s && !AllListed(path[|path| - 1])) <==> !Unshared(s)
  {
    if Unshared(s) {
      forall path | IsPath(path) && path[0] == s ensures AllListed(path[|path| - 1]) {
        UnsharedPathLists(path, |path| - 1);
      }
    } else {
      var id, other, k :| Shared(s, id, other, k);
      var path := BecomesConnected([s], id, k);
      path := BecomesConnected(path, other, k);
      var t := path[|path| - 1];
      assert ConnectedIn(t, id, k) && ConnectedIn(t, other, k);
      path := WorkerGoesOn(path, id);
      assert ConnectedIn(path[|path| - 1], other, k) && k !in path[|path| - 1].remotes;
    }
  }

  /**
   A candidate handed to a new worker is safe, no continuation of the workers hiding a peer, if and only if no
   live worker has it already.
   */
  lemma SpawnSafeExactly(s: State, id: WorkerId)
    requires AllListed(s) && Unshared(s) && Enabled(s, Spawn(id))
    ensures (exists path :: IsPath(path) && path[0] == Next(s, Spawn(id)) && !AllListed(path[|path| - 1]))
       <==> exists other :: LiveWith(s, other, s.main.k)
  {
    StepListsExactly(s, Spawn(id));
    StepSharesExactly(s, Spawn(id));
    CanHideExactly(Next(s, Spawn(id)));
  }

  // ---------------------------------------------------------------- a duplicate candidate

  lemma Extend(run: seq<State>, a: Action, t: State) returns (longer: seq<State>)
    requires IsRun(run) && Enabled(run[|run| - 1], a) && t == Next(run[|run| - 1], a)
    ensures IsRun(longer) && longer[|longer| - 1] == t
  {
    longer := run + [t];
    assert Step(run[|run| - 1], t);
  }

  /** Two workers can be given the same candidate, neither having entered it in a table yet. */
  lemma DuplicateCandidates() returns (run: seq<State>)
    ensures IsRun(run) && run[|run| - 1] == State(Top, 2, map[0 := Spawned(5), 1 := Spawned(5)], {}, {})
  {
    run := [State(Top, 0, map[], {}, {})];
    run := Extend(run, Acquire, State(HasSlot, 1, map[], {}, {}));
    run := Extend(run, Candidate(5), State(Chosen(5), 1, map[], {}, {}));
    run := Extend(run, Spawn(0), State(Top, 1, map[0 := Spawned(5)], {}, {}));
    run := Extend(run, Acquire, State(HasSlot, 2, map[0 := Spawned(5)], {}, {}));
    run := Extend(run, Candidate(5), State(Chosen(5), 2, map[0 := Spawned(5)], {}, {}));
    run := Extend(run, Spawn(1), State(Top, 2, map[0 := Spawned(5), 1 := Spawned(5)], {}, {}));
  }

  /**
   The tables do not hold every connected peer: workers given the same candidate share one entry, and the
   first to lose its peer removes the entry of the other.
   */
  lemma DuplicateHidesPeer() returns (run: seq<State>)
    ensures IsRun(run)
    ensures ConnectedIn(run[|run| - 1], 1, 5) && 5 !in run[|run| - 1].connecting + run[|run| - 1].remotes
  {
    run := DuplicateCandidates();
    run := Extend(run, Advance(0, true), State(Top, 2, map[0 := Connecting(5), 1 := Spawned(5)], {5}, {}));
    run := Extend(run, Advance(1, true), State(Top, 2, map[0 := Connecting(5), 1 := Connecting(5)], {5}, {}));
    run := Extend(run, Advance(0, true), State(Top, 2, map[0 := Connected(5), 1 := Connecting(5)], {}, {5}));
    run := Extend(run, Advance(1, true), State(Top, 2, map[0 := Connected(5), 1 := Connected(5)], {}, {5}));
    run := Extend(run, Advance(0, true), State(Top, 2, map[0 := Cleaned(5), 1 := Connected(5)], {}, {}));
  }
}
