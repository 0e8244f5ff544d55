/**
 The catch-up region of startupSync (spv/sync.go) and the sync callbacks it drives
 (syncnotification.go), as interleaved atomic steps of any number of peer goroutines, a progress
 ticker and the application.
 */
module CatchUp {
  import opened Common

  type Wallet = nat
  type Peer = nat

  /** Where a goroutine is while it deals with one wallet inside the region. */
  datatype Phase =
    | Decide
    | SyncCas | SyncNotify
    | UnsyncCas | UnsyncNotify
    | StartCheck | StartRead | StartWrite
    | Discover
    | FinishCheck | FinishStop
    | LoadFilters
    | RescanStop | RescanMark | Rescan
    | DoneCheck | DoneReset

  datatype PC = Outside | Loop(todo: set<Wallet>) | At(todo: set<Wallet>, w: Wallet, phase: Phase)

  /**
   lock and flags are the syncer's atomics; notified records the Synced callbacks of each wallet. The
   rest is the state the callbacks keep: startTime is -1 when no discovery has started, channel is the
   discovery channel, made counts the channels ever made and closed those closed, with multiplicity.
   */
  datatype State = State(
    wallets: set<Wallet>,
    lock: bool,
    pcs: map<Peer, PC>,
    flags: set<Wallet>,
    notified: map<Wallet, seq<bool>>,
    syncing: bool,
    active: bool,
    startTime: int,
    inactive: nat,
    channel: Option<nat>,
    made: nat,
    closed: multiset<nat>)

  /** What the outside world decides at a step: success, whether blocks must be rescanned, whether syncing goes on, the clock. */
  datatype Choice = Choice(ok: bool, rescan: bool, stillSyncing: bool, now: nat)

  datatype Action =
    | Enter(p: Peer)
    | Pick(p: Peer, w: Wallet)
    | Advance(p: Peer, c: Choice)
    | Leave(p: Peer)
    | Tick
    | HeadersProgress
    | Inactive(seconds: nat)
    | ResetSyncData

  function PcOf(s: State, p: Peer): PC {
    if p in s.pcs then s.pcs[p] else Outside
  }

  predicate Inside(s: State, p: Peer) {
    PcOf(s, p) != Outside
  }

  /** Closes the discovery channel, if there is one. */
  function Stop(s: State): State {
    if s.active && s.channel.Some? then s.(closed := s.closed + multiset{s.channel.value}, channel := None) else s
  }

  function Notify(s: State, w: Wallet, synced: bool, stillSyncing: bool): State {
    s.(notified := s.notified[w := Trace(s, w) + [synced]], syncing := s.syncing && stillSyncing)
  }

  function Trace(s: State, w: Wallet): seq<bool> {
    if w in s.notified then s.notified[w] else []
  }

  /** One atomic step of a goroutine that deals with wallet w. */
  function Move(s: State, phase: Phase, w: Wallet, c: Choice): (State, Option<Phase>) {
    match phase
    case Decide => if !c.ok then (s, None) else (s, Some(if c.rescan then UnsyncCas else SyncCas))
    case SyncCas => if w in s.flags then (s, None) else (s.(flags := s.flags + {w}), Some(SyncNotify))
    case SyncNotify => (Notify(s, w, true, c.stillSyncing), None)
    case UnsyncCas => if w in s.flags then (s.(flags := s.flags - {w}), Some(UnsyncNotify)) else (s, Some(StartCheck))
    case UnsyncNotify => (Notify(s, w, false, c.stillSyncing), Some(StartCheck))
    case StartCheck => (s, Some(if s.syncing then StartRead else Discover))
    case StartRead => (s, Some(if s.startTime != -1 then Discover else StartWrite))
    case StartWrite => (s.(startTime := c.now, channel := Some(s.made), made := s.made + 1), Some(Discover))
    case Discover => (s, if c.ok then Some(FinishCheck) else None)
    case FinishCheck => (s, Some(if s.syncing then FinishStop else LoadFilters))
    case FinishStop => (Stop(s), Some(LoadFilters))
    case LoadFilters => (s, if c.ok then Some(RescanStop) else None)
    case RescanStop => (Stop(s), Some(RescanMark))
    case RescanMark => (s, Some(Rescan))
    case Rescan => (s, if c.ok then Some(DoneCheck) else None)
    case DoneCheck => (s, Some(if s.syncing then DoneReset else SyncCas))
    case DoneReset => (s.(startTime := -1), Some(SyncCas))
  }

  /** When guarded, a goroutine enters the region only by winning the try-lock. */
  predicate Enabled(s: State, a: Action, guarded: bool) {
    match a
    case Enter(p) => s.active && PcOf(s, p) == Outside && (guarded ==> !s.lock)
    case Pick(p, w) => PcOf(s, p).Loop? && w in PcOf(s, p).todo
    case Advance(p, _) => PcOf(s, p).At?
    case Leave(p) => PcOf(s, p) == Loop({})
    case Tick => s.made > 0
    case HeadersProgress => true
    case Inactive(_) => s.syncing
    case ResetSyncData => s.active && forall p | p in s.pcs :: s.pcs[p] == Outside
  }

  function Next(s: State, a: Action): State
    requires exists guarded :: Enabled(s, a, guarded)
  {
    match a
    case Enter(p) => s.(lock := true, pcs := s.pcs[p := Loop(s.wallets)])
    case Pick(p, w) => s.(pcs := s.pcs[p := At(PcOf(s, p).todo - {w}, w, Decide)])
    case Advance(p, c) =>
      var pc := PcOf(s, p);
      var (s', phase) := Move(s, pc.phase, pc.w, c);
      s'.(pcs := s.pcs[p := if phase.Some? then At(pc.todo, pc.w, phase.value) else Loop(pc.todo)])
    case Leave(p) => s.(lock := false, pcs := s.pcs[p := Outside])
    case Tick => s.(startTime := s.startTime + s.inactive, inactive := 0)
    case HeadersProgress => s.(inactive := 0)
    case Inactive(n) => s.(inactive := s.inactive + n)
    case ResetSyncData => Stop(s).(syncing := false, active := false)
  }

  ghost predicate Init(s: State) {
    && !s.lock && s.pcs == map[] && s.flags == {} && s.notified == map[]
    && s.syncing && s.active && s.startTime == -1 && s.inactive == 0
    && s.channel == None && s.made == 0 && s.closed == multiset{}
  }

  ghost predicate Steps(s: State, s': State, guarded: bool) {
    exists a :: Enabled(s, a, guarded) && s' == Next(s, a)
  }

  ghost predicate IsRun(run: seq<State>, guarded: bool) {
    |run| > 0 && Init(run[0]) && forall i | 0 <= i < |run| - 1 :: Steps(run[i], run[i + 1], guarded)
  }

  // ---------------------------------------------------------------- invariants

  /** At most one goroutine is inside the catch-up region, and then the lock is taken. */
  ghost predicate Exclusive(s: State) {
    && (forall p, q :: Inside(s, p) && Inside(s, q) ==> p == q)
    && (forall p :: Inside(s, p) ==> s.lock)
  }

  /** true, false, true, ... */
  ghost predicate Alternates(t: seq<bool>) {
    forall i | 0 <= i < |t| :: t[i] <==> i % 2 == 0
  }

  ghost predicate PhaseIs(s: State, p: Peer, w: Wallet, phase: Phase) {
    PcOf(s, p).At? && PcOf(s, p).w == w && PcOf(s, p).phase == phase
  }

  /** A flag change of w whose callback is still to come. */
  ghost predicate Pending(s: State, w: Wallet) {
    exists p :: PhaseIs(s, p, w, SyncNotify) || PhaseIs(s, p, w, UnsyncNotify)
  }

  ghost predicate FlagOk(s: State, w: Wallet) {
    && Alternates(Trace(s, w))
    && (Pending(s, w) || (w in s.flags <==> |Trace(s, w)| % 2 == 1))
  }

  ghost predicate PendingOk(s: State, p: Peer) {
    PcOf(s, p).At? ==>
      var w := PcOf(s, p).w;
      && (PcOf(s, p).phase == SyncNotify ==> w in s.flags && |Trace(s, w)| % 2 == 0)
      && (PcOf(s, p).phase == UnsyncNotify ==> w !in s.flags && |Trace(s, w)| % 2 == 1)
  }

  ghost predicate Notifications(s: State) {
    (forall w :: FlagOk(s, w)) && (forall p :: PendingOk(s, p))
  }

  /** Phases during which no discovery channel can be open. */
  predicate NoChannelAt(phase: Phase) {
    phase in {StartWrite, RescanMark, Rescan, DoneCheck, DoneReset}
  }

  ghost predicate NoChannelOk(s: State, p: Peer) {
    PcOf(s, p).At? && NoChannelAt(PcOf(s, p).phase) ==> s.channel == None
  }

  /** A channel is open exactly as long as it is the current one, and none is closed twice. */
  ghost predicate ChannelOk(s: State, id: nat) {
    if id < s.made then s.closed[id] == (if s.channel == Some(id) then 0 else 1) else s.closed[id] == 0
  }

  ghost predicate Channels(s: State) {
    && s.startTime >= -1
    && (s.channel.Some? ==> s.startTime >= 0 && s.channel.value < s.made && s.active)
    && (forall id :: ChannelOk(s, id))
    && (forall p :: NoChannelOk(s, p))
  }

  ghost predicate Inv(s: State) {
    Exclusive(s) && Notifications(s) && Channels(s) && (forall p :: Inside(s, p) ==> s.active)
  }

  // ---------------------------------------------------------------- preservation

  /** A step of the goroutine inside the region leaves all others outside. */
  lemma OthersOutside(s: State, s': State, p: Peer, pc: PC)
    requires Exclusive(s) && Inside(s, p) && s'.pcs == s.pcs[p := pc]
    ensures PcOf(s', p) == pc && forall q :: q != p ==> PcOf(s, q) == PcOf(s', q) == Outside
  {
    forall q | q != p ensures PcOf(s, q) == PcOf(s', q) == Outside {
      assert !(Inside(s, p) && Inside(s, q));
    }
  }

  /** The goroutine whose step it is, and where the step takes it. */
  lemma OwnStep(s: State, a: Action)
    requires Inv(s) && Enabled(s, a, true) && (a.Pick? || a.Advance? || a.Leave?)
    ensures s.lock && s.active && forall q :: q != a.p ==> PcOf(s, q) == PcOf(Next(s, a), q) == Outside
  {
    assert Inside(s, a.p);
    OthersOutside(s, Next(s, a), a.p, PcOf(Next(s, a), a.p));
  }

  lemma ExclusiveKept(s: State, a: Action)
    requires Inv(s) && Enabled(s, a, true)
    ensures Exclusive(Next(s, a)) && forall p :: Inside(Next(s, a), p) ==> Next(s, a).active
  {
    var s' := Next(s, a);
    if a.Pick? || a.Advance? || a.Leave? {
      OwnStep(s, a);
    } else {
      forall q ensures Inside(s', q) ==> if a.Enter? then q == a.p else Inside(s, q) {
        assert a.Enter? ==> !Inside(s, q);
      }
    }
  }

  predicate SameChannels(s: State, s': State) {
    s'.channel == s.channel && s'.made == s.made && s'.closed == s.closed
  }

  /** Closing the current channel, if any. */
  predicate StopsChannel(s: State, s': State) {
    && s'.channel == None && s'.made == s.made
    && s'.closed == (if s.channel.Some? then s.closed + multiset{s.channel.value} else s.closed)
  }

  /** Making a channel when there is none. */
  predicate MakesChannel(s: State, s': State) {
    s.channel == None && s'.channel == Some(s.made) && s'.made == s.made + 1 && s'.closed == s.closed
  }

  predicate ChannelStep(s: State, s': State) {
    SameChannels(s, s') || StopsChannel(s, s') || MakesChannel(s, s')
  }

  lemma ChannelStepKeeps(s: State, s': State)
    requires Channels(s) && ChannelStep(s, s')
    ensures forall id :: ChannelOk(s', id)
  {
    forall id ensures ChannelOk(s', id) {
      assert ChannelOk(s, id);
    }
  }

  /** What one step of a goroutine does to the discovery channel, and where it may go from there. */
  lemma MoveOnChannel(s: State, phase: Phase, w: Wallet, c: Choice)
    requires s.active && s.startTime >= -1 && (s.channel.Some? ==> s.startTime >= 0)
    requires NoChannelAt(phase) ==> s.channel == None
    ensures var (s', next) := Move(s, phase, w, c);
            && s'.active && s'.startTime >= -1 && s'.inactive == s.inactive
            && ChannelStep(s, s') && (s'.channel.Some? ==> s'.startTime >= 0)
            && (next.Some? && NoChannelAt(next.value) ==> s'.channel == None)
  {
  }

  lemma ChannelsKept(s: State, a: Action)
    requires Inv(s) && Enabled(s, a, true)
    ensures Channels(Next(s, a))
  {
    var s' := Next(s, a);
    if a.Advance? {
      OwnStep(s, a);
      assert NoChannelOk(s, a.p);
      MoveOnChannel(s, PcOf(s, a.p).phase, PcOf(s, a.p).w, a.c);
    } else if a.Pick? || a.Leave? {
      OwnStep(s, a);
    }
    ChannelStepKeeps(s, s');
    forall q ensures NoChannelOk(s', q) {
      assert NoChannelOk(s, q);
      if a.ResetSyncData? {
        assert PcOf(s, q) == Outside;
      }
    }
  }

  lemma AlternatesStep(t: seq<bool>, b: bool)
    requires Alternates(t) && (b <==> |t| % 2 == 0)
    ensures Alternates(t + [b])
  {
  }

  lemma NotificationsKept(s: State, a: Action)
    requires Inv(s) && Enabled(s, a, true)
    ensures Notifications(Next(s, a))
  {
    var s' := Next(s, a);
    if a.Advance? {
      AdvanceNotifications(s, a.p, a.c);
    } else {
      forall w ensures FlagOk(s', w) {
        assert FlagOk(s, w);
        if Pending(s, w) {
          var q :| PhaseIs(s, q, w, SyncNotify) || PhaseIs(s, q, w, UnsyncNotify);
          assert Inside(s, q) && (a.Enter? ==> s.lock);
          assert PhaseIs(s', q, w, SyncNotify) || PhaseIs(s', q, w, UnsyncNotify);
        }
      }
      forall q ensures PendingOk(s', q) {
        assert PendingOk(s, q);
      }
    }
  }

  /** One wallet's flag and callbacks: settled, or changed with the callback still to come. */
  ghost predicate Settled(s: State, w: Wallet) {
    Alternates(Trace(s, w)) && (w in s.flags <==> |Trace(s, w)| % 2 == 1)
  }

  ghost predicate Owing(s: State, w: Wallet, phase: Option<Phase>) {
    && Alternates(Trace(s, w))
    && (phase == Some(SyncNotify) ==> w in s.flags && |Trace(s, w)| % 2 == 0)
    && (phase == Some(UnsyncNotify) ==> w !in s.flags && |Trace(s, w)| % 2 == 1)
  }

  predicate Notifying(phase: Option<Phase>) {
    phase == Some(SyncNotify) || phase == Some(UnsyncNotify)
  }

  lemma MoveOnFlags(s: State, phase: Phase, w: Wallet, c: Choice)
    requires if Notifying(Some(phase)) then Owing(s, w, Some(phase)) else Settled(s, w)
    ensures var (s', next) := Move(s, phase, w, c);
            if Notifying(next) then Owing(s', w, next) else Settled(s', w)
  {
    if Notifying(Some(phase)) {
      AlternatesStep(Trace(s, w), phase == SyncNotify);
    }
  }

  lemma MoveLeavesOthers(s: State, phase: Phase, w: Wallet, c: Choice, v: Wallet)
    requires v != w
    ensures var (s', _) := Move(s, phase, w, c);
            Trace(s', v) == Trace(s, v) && (v in s'.flags <==> v in s.flags)
  {
  }

  lemma AdvanceNotifications(s: State, p: Peer, c: Choice)
    requires Inv(s) && PcOf(s, p).At?
    ensures Enabled(s, Advance(p, c), true) && Notifications(Next(s, Advance(p, c)))
  {
    assert Enabled(s, Advance(p, c), true);
    var s', pc := Next(s, Advance(p, c)), PcOf(s, p);
    OwnStep(s, Advance(p, c));
    assert PendingOk(s, p) && FlagOk(s, pc.w);
    assert !Notifying(Some(pc.phase)) ==> !Pending(s, pc.w);
    MoveOnFlags(s, pc.phase, pc.w, c);
    var (_, next) := Move(s, pc.phase, pc.w, c);
    forall w ensures FlagOk(s', w) {
      if w != pc.w {
        assert FlagOk(s, w) && !Pending(s, w);
        MoveLeavesOthers(s, pc.phase, pc.w, c, w);
      } else if Notifying(next) {
        assert PhaseIs(s', p, w, SyncNotify) || PhaseIs(s', p, w, UnsyncNotify);
      }
    }
    forall q ensures PendingOk(s', q) {
    }
  }

  lemma StepKeepsInv(s: State, a: Action)
    requires Inv(s) && Enabled(s, a, true)
    ensures Inv(Next(s, a))
  {
    ExclusiveKept(s, a);
    ChannelsKept(s, a);
    NotificationsKept(s, a);
  }

  lemma {:induction false} RunKeepsInv(run: seq<State>, i: nat)
    requires IsRun(run, true) && i < |run|
    ensures Inv(run[i])
  {
    if i > 0 {
      RunKeepsInv(run, i - 1);
      assert Steps(run[i - 1], run[i], true);
      var a :| Enabled(run[i - 1], a, true) && run[i] == Next(run[i - 1], a);
      StepKeepsInv(run[i - 1], a);
    } else {
      assert forall p :: PcOf(run[0], p) == Outside;
    }
  }

  // ---------------------------------------------------------------- results

  /** Over every interleaving, at most one goroutine is inside the catch-up region. */
  lemma MutualExclusion(run: seq<State>, i: nat, p: Peer, q: Peer)
    requires IsRun(run, true) && i < |run| && Inside(run[i], p) && Inside(run[i], q)
    ensures p == q
  {
    RunKeepsInv(run, i);
  }

  /** Over every interleaving, each wallet's Synced callbacks are true, false, true, ... */
  lemma NotificationsAlternate(run: seq<State>, i: nat, w: Wallet)
    requires IsRun(run, true) && i < |run|
    ensures Alternates(Trace(run[i], w))
  {
    RunKeepsInv(run, i);
    assert FlagOk(run[i], w);
  }

  ghost predicate IsOpen(s: State, id: nat) {
    id < s.made && s.closed[id] == 0
  }

  /**
   Over every interleaving, at most one discovery channel is open, and it is the current one (so none
   is replaced while open); none is closed twice; and none is open once the sync data is reset.
   */
  lemma ChannelLifecycle(run: seq<State>, i: nat)
    requires IsRun(run, true) && i < |run|
    ensures forall id: nat :: IsOpen(run[i], id) <==> run[i].channel == Some(id)
    ensures forall id: nat :: run[i].closed[id] <= 1
    ensures !run[i].active ==> forall id: nat :: !IsOpen(run[i], id)
  {
    RunKeepsInv(run, i);
    forall id: nat ensures (IsOpen(run[i], id) <==> run[i].channel == Some(id)) && run[i].closed[id] <= 1 {
      assert ChannelOk(run[i], id);
    }
  }

  // ---------------------------------------------------------------- how a wallet's turn ends

  /** The phases from the wallet being unsynced for a rescan up to the swap that ends it. */
  predicate Rescanning(phase: Phase) {
    phase in {UnsyncNotify, StartCheck, StartRead, StartWrite, Discover, FinishCheck, FinishStop, LoadFilters,
              RescanStop, RescanMark, Rescan, DoneCheck, DoneReset}
  }

  ghost predicate UnsyncedAt(s: State, p: Peer) {
    PcOf(s, p).At? && Rescanning(PcOf(s, p).phase) ==> PcOf(s, p).w !in s.flags
  }

  lemma StepKeepsUnsynced(s: State, a: Action)
    requires Inv(s) && Enabled(s, a, true) && forall p :: UnsyncedAt(s, p)
    ensures forall p :: UnsyncedAt(Next(s, a), p)
  {
    var s' := Next(s, a);
    if a.Pick? || a.Advance? || a.Leave? {
      OwnStep(s, a);
      assert UnsyncedAt(s, a.p);
    }
    forall p ensures UnsyncedAt(s', p) {
      assert UnsyncedAt(s, p);
    }
  }

  /** Over every interleaving, a wallet counts as unsynced for as long as it is being rescanned. */
  lemma {:induction false} UnsyncedWhileRescanning(run: seq<State>, i: nat)
    requires IsRun(run, true) && i < |run|
    ensures forall p :: UnsyncedAt(run[i], p)
  {
    if i > 0 {
      UnsyncedWhileRescanning(run, i - 1);
      RunKeepsInv(run, i - 1);
      assert Steps(run[i - 1], run[i - 1 + 1], true);
      var a :| Enabled(run[i - 1], a, true) && run[i] == Next(run[i - 1], a);
      StepKeepsUnsynced(run[i - 1], a);
    } else {
      assert forall p :: PcOf(run[0], p) == Outside;
    }
  }

  /** A goroutine fails with a wallet exactly where it asks the wallet or the peer, and is refused. */
  predicate Refused(phase: Phase, c: Choice) {
    !c.ok && phase in {Decide, Discover, LoadFilters, Rescan}
  }

  /**
   Over every interleaving, a goroutine that is done with a wallet was refused something, or leaves it synced:
   its flag set, its last callback true. A rescan that ends leaves it so through a callback of its own.
   */
  lemma DoneMeansSynced(run: seq<State>, i: nat, p: Peer, c: Choice)
    requires IsRun(run, true) && i < |run| && Enabled(run[i], Advance(p, c), true)
    ensures var pc, s' := PcOf(run[i], p), Next(run[i], Advance(p, c));
            PcOf(s', p).Loop? && !Refused(pc.phase, c) ==>
              pc.w in s'.flags && Trace(s', pc.w) != [] && Trace(s', pc.w)[|Trace(s', pc.w)| - 1]
    ensures PcOf(run[i], p).phase == SyncCas && PcOf(run[i], p).w !in run[i].flags ==>
              PcOf(Next(run[i], Advance(p, c)), p).At? && PcOf(Next(run[i], Advance(p, c)), p).phase == SyncNotify
    ensures Refused(PcOf(run[i], p).phase, c) ==> PcOf(Next(run[i], Advance(p, c)), p).Loop?
  {
    RunKeepsInv(run, i);
    var s, pc := run[i], PcOf(run[i], p);
    assert PendingOk(s, p) && FlagOk(s, pc.w);
    OwnStep(s, Advance(p, c));
    assert !Notifying(Some(pc.phase)) ==> !Pending(s, pc.w);
  }

  /** What a goroutine makes of the state that is left to it, from a phase to the end of the wallet's turn. */
  function TurnFrom(s: State, phase: Phase, w: Wallet, c: Choice, steps: nat): (State, Option<Phase>)
    decreases steps
  {
    if steps == 0 then (s, Some(phase))
    else
      var (s', next) := Move(s, phase, w, c);
      if next.None? then (s', None) else TurnFrom(s', next.value, w, c, steps - 1)
  }

  lemma TurnStep(s: State, phase: Phase, w: Wallet, c: Choice, steps: nat, s': State, next: Phase)
    requires steps > 0 && Move(s, phase, w, c) == (s', Some(next))
    ensures TurnFrom(s, phase, w, c, steps) == TurnFrom(s', next, w, c, steps - 1)
  {
  }

  /** From the rescan on, when nothing is refused: the discovery start is taken back and the callback says synced. */
  lemma TurnEnds(s: State, w: Wallet, c: Choice)
    requires c.ok && c.stillSyncing && s.syncing && w !in s.flags
    ensures TurnFrom(s, Rescan, w, c, 5)
         == (s.(startTime := -1, flags := s.flags + {w}, notified := s.notified[w := Trace(s, w) + [true]]), None)
  {
    var t := s.(startTime := -1);
    TurnStep(s, Rescan, w, c, 5, s, DoneCheck);
    TurnStep(s, DoneCheck, w, c, 4, s, DoneReset);
    TurnStep(s, DoneReset, w, c, 3, t, SyncCas);
    TurnStep(t, SyncCas, w, c, 2, t.(flags := t.flags + {w}), SyncNotify);
  }

  /** Up to the rescan: the open discovery channel is closed, once. */
  lemma TurnCloses(s: State, w: Wallet, c: Choice)
    requires c.ok && s.syncing && s.active && s.channel.Some?
    ensures TurnFrom(s, Discover, w, c, 11)
         == TurnFrom(s.(channel := None, closed := s.closed + multiset{s.channel.value}), Rescan, w, c, 5)
  {
    var shut := s.(channel := None, closed := s.closed + multiset{s.channel.value});
    TurnStep(s, Discover, w, c, 11, s, FinishCheck);
    TurnStep(s, FinishCheck, w, c, 10, s, FinishStop);
    TurnStep(s, FinishStop, w, c, 9, shut, LoadFilters);
    TurnStep(shut, LoadFilters, w, c, 8, shut, RescanStop);
    TurnStep(shut, RescanStop, w, c, 7, shut, RescanMark);
    TurnStep(shut, RescanMark, w, c, 6, shut, Rescan);
  }

  /** Up to the discovery: a channel is made. */
  lemma TurnOpens(s: State, w: Wallet, c: Choice)
    requires c.ok && c.rescan && s.syncing && w !in s.flags && s.startTime == -1
    ensures TurnFrom(s, Decide, w, c, 16)
         == TurnFrom(s.(startTime := c.now, channel := Some(s.made), made := s.made + 1), Discover, w, c, 11)
  {
    TurnStep(s, Decide, w, c, 16, s, UnsyncCas);
    TurnStep(s, UnsyncCas, w, c, 15, s, StartCheck);
    TurnStep(s, StartCheck, w, c, 14, s, StartRead);
    TurnStep(s, StartRead, w, c, 13, s, StartWrite);
    TurnStep(s, StartWrite, w, c, 12, s.(startTime := c.now, channel := Some(s.made), made := s.made + 1), Discover);
  }

  /**
   A turn of a wallet that needs a rescan, when nothing is refused and nobody interferes: one discovery channel
   is made and closed again, the discovery start is taken back, and the wallet ends synced with one callback.
   */
  lemma CompleteTurn(s: State, w: Wallet, c: Choice)
    requires c.ok && c.rescan && c.stillSyncing && s.syncing && s.active && w !in s.flags
    requires s.startTime == -1 && s.channel == None
    ensures TurnFrom(s, Decide, w, c, 16)
         == (s.(made := s.made + 1, closed := s.closed + multiset{s.made}, flags := s.flags + {w},
                notified := s.notified[w := Trace(s, w) + [true]]), None)
  {
    var open := s.(startTime := c.now, channel := Some(s.made), made := s.made + 1);
    TurnOpens(s, w, c);
    TurnCloses(open, w, c);
    TurnEnds(open.(channel := None, closed := s.closed + multiset{s.made}), w, c);
  }

  // ---------------------------------------------------------------- without the try-lock

  ghost predicate IsPath(path: seq<State>, guarded: bool) {
    |path| > 0 && forall i | 0 <= i < |path| - 1 :: Steps(path[i], path[i + 1], guarded)
  }

  lemma ExtendPath(path: seq<State>, a: Action, guarded: bool) returns (longer: seq<State>)
    requires IsPath(path, guarded) && Enabled(path[|path| - 1], a, guarded)
    ensures IsPath(longer, guarded) && longer[0] == path[0]
    ensures longer[|longer| - 1] == Next(path[|path| - 1], a)
  {
    longer := path + [Next(path[|path| - 1], a)];
    assert Steps(path[|path| - 1], Next(path[|path| - 1], a), guarded);
  }

  /** A goroutine that is not kept out runs up to the point where it makes a discovery channel. */
  lemma PathToStartWrite(path: seq<State>, p: Peer, w: Wallet) returns (longer: seq<State>)
    requires IsPath(path, false)
    requires var s := path[|path| - 1];
             s.active && s.syncing && s.startTime == -1 && w in s.wallets && w !in s.flags && PcOf(s, p) == Outside
    ensures IsPath(longer, false) && longer[0] == path[0]
    ensures var s := path[|path| - 1];
            longer[|longer| - 1] == s.(lock := true, pcs := s.pcs[p := At(s.wallets - {w}, w, StartWrite)])
  {
    var c := Choice(true, true, true, 0);
    longer := ExtendPath(path, Enter(p), false);
    longer := ExtendPath(longer, Pick(p, w), false);
    for i := 0 to 4
      invariant IsPath(longer, false) && longer[0] == path[0]
      invariant var s := path[|path| - 1];
                longer[|longer| - 1] == s.(lock := true, pcs := s.pcs[p :=
                  At(s.wallets - {w}, w, [Decide, UnsyncCas, StartCheck, StartRead, StartWrite][i])])
    {
      longer := ExtendPath(longer, Advance(p, c), false);
    }
  }

  /** Without the try-lock, two goroutines can each make a channel, and the first stays open for good. */
  lemma WithoutLockChannelsLeak() returns (run: seq<State>)
    ensures IsRun(run, false)
    ensures var s := run[|run| - 1]; IsOpen(s, 0) && IsOpen(s, 1) && s.channel == Some(1)
  {
    var s := State({1, 2}, false, map[], {}, map[], true, true, -1, 0, None, 0, multiset{});
    var path := PathToStartWrite([s], 1, 1);
    path := PathToStartWrite(path, 2, 2);
    path := ExtendPath(path, Advance(1, Choice(true, true, true, 0)), false);
    path := ExtendPath(path, Advance(2, Choice(true, true, true, 0)), false);
    run := path;
  }
}
