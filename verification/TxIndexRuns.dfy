/**
 Runs of the transaction index against a chain that grows and reorganises at any moment, with passes
 that are cancelled or fail anywhere and with reindexing. One pass or reindexing is under way at a time.
 */
module TxIndexRuns {
  import opened Common
  import opened TxIndex

  /** A pass under way: the view of the chain it reads, where it started, the next height, and the last. */
  datatype Pass = Pass(view: Chain, next: nat, endHeight: nat)

  /** dropped: a reindexing has dropped the records and not reset the endpoint yet. */
  datatype State = State(chain: Chain, records: Records, endpoint: int, pass: Option<Pass>, dropped: bool)

  /** The tip is not lowered and at most MAX_REORG_BLOCKS blocks of c are replaced. */
  ghost predicate StableBelow(c: Chain, c': Chain) {
    |c| <= |c'| && forall h: nat | h < |c| - MAX_REORG_BLOCKS :: c'[h] == c[h]
  }

  ghost predicate ChainMoves(s: State, s': State) {
    UniqueTxs(s'.chain) && StableBelow(s.chain, s'.chain) && s' == s.(chain := s'.chain)
  }

  ghost predicate BeginsPass(s: State, s': State, endHeight: nat) {
    && s.pass.None? && !s.dropped && endHeight < |s.chain|
    && s' == s.(pass := Some(Pass(s.chain, StartOf(s.endpoint), endHeight)))
  }

  ghost predicate MidPass(s: State) {
    s.pass.Some? && s.pass.value.next <= s.pass.value.endHeight < |s.pass.value.view|
  }

  ghost predicate IndexesBlock(s: State, s': State) {
    && MidPass(s)
    && var p := s.pass.value;
       && Indexed(s.records, s'.records, p.view[p.next], p.next)
       && s' == s.(records := s'.records, endpoint := p.next, pass := Some(p.(next := p.next + 1)))
  }

  /** A block without wallet transactions may not be handed over at all. */
  ghost predicate PassesOver(s: State, s': State) {
    && MidPass(s)
    && var p := s.pass.value;
       p.view[p.next] == [] && s' == s.(pass := Some(p.(next := p.next + 1)))
  }

  /** The pass fails somewhere in the next block, or is cancelled before it. */
  ghost predicate AbandonsPass(s: State, s': State) {
    && s.pass.Some?
    && (s'.records == s.records
        || (MidPass(s) && Untouched(s.records, s'.records, s.pass.value.view[s.pass.value.next])))
    && s' == s.(records := s'.records, pass := None)
  }

  ghost predicate FinishesPass(s: State, s': State) {
    && s.pass.Some? && s.pass.value.next > s.pass.value.endHeight
    && s' == s.(pass := None)
  }

  ghost predicate Drops(s: State, s': State) {
    s.pass.None? && !s.dropped && s' == s.(records := map[], dropped := true)
  }

  ghost predicate Resets(s: State, s': State) {
    s.dropped && s' == s.(endpoint := 0, dropped := false)
  }

  /** Storing the new endpoint fails after the records are gone; reindexing gives up. */
  ghost predicate FailsToReset(s: State, s': State) {
    s.dropped && s' == s.(dropped := false)
  }

  /** Every step but a failing reset. */
  ghost predicate Step(s: State, s': State) {
    || ChainMoves(s, s') || (exists e: nat :: BeginsPass(s, s', e)) || IndexesBlock(s, s') || PassesOver(s, s')
    || AbandonsPass(s, s') || FinishesPass(s, s') || Drops(s, s') || Resets(s, s')
  }

  /** Everything below the point where the next pass starts is recorded under its current height. */
  ghost predicate UpToDate(s: State) {
    CoveredBetween(s.chain, s.records, 0, StartOf(s.endpoint))
  }

  ghost predicate PassOk(s: State, p: Pass) {
    && !s.dropped && p.endHeight < |p.view|
    && UniqueTxs(p.view) && StableBelow(p.view, s.chain)
    && CoveredBetween(p.view, s.records, 0, p.next)
    && StartOf(s.endpoint) <= p.next && s.endpoint < |p.view|
  }

  ghost predicate Inv(s: State) {
    && UniqueTxs(s.chain) && 0 <= s.endpoint < |s.chain|
    && (!s.dropped ==> UpToDate(s))
    && (s.pass.Some? ==> PassOk(s, s.pass.value))
  }

  ghost predicate Init(s: State) {
    && UniqueTxs(s.chain) && |s.chain| > 0
    && s.records == map[] && s.endpoint == 0 && s.pass.None? && !s.dropped
  }

  lemma StableTransitive(a: Chain, b: Chain, c: Chain)
    requires StableBelow(a, b) && StableBelow(b, c)
    ensures StableBelow(a, c)
  {
  }

  /** Coverage carries over between chains that agree below a reorganisation's reach. */
  lemma CoverageMoves(c: Chain, c': Chain, r: Records, hi: nat)
    requires StableBelow(c, c') && hi <= |c| && (hi == 0 || hi <= |c| - MAX_REORG_BLOCKS)
    requires CoveredBetween(c, r, 0, hi)
    ensures CoveredBetween(c', r, 0, hi)
  {
    forall h: nat | 0 <= h < hi && h < |c'| ensures CoveredAt(c', r, h) {
      assert CoveredAt(c, r, h) && c'[h] == c[h];
    }
  }

  lemma CoverageShrinks(c: Chain, r: Records, lo: nat, hi: nat)
    requires lo <= hi && CoveredBetween(c, r, 0, hi)
    ensures CoveredBetween(c, r, 0, lo)
  {
  }

  lemma MovesKeep(s: State, s': State)
    requires Inv(s) && ChainMoves(s, s')
    ensures Inv(s')
  {
    if !s.dropped {
      CoverageMoves(s.chain, s'.chain, s.records, StartOf(s.endpoint));
    }
    if s.pass.Some? {
      StableTransitive(s.pass.value.view, s.chain, s'.chain);
    }
  }

  lemma IndexingKeeps(s: State, s': State)
    requires Inv(s) && IndexesBlock(s, s')
    ensures Inv(s')
  {
    var p := s.pass.value;
    BlockKeepsCoverage(p.view, s.records, s'.records, 0, p.next);
    assert CoveredAt(p.view, s'.records, p.next);
    assert CoveredBetween(p.view, s'.records, 0, p.next + 1);
    CoverageShrinks(p.view, s'.records, StartOf(p.next), p.next + 1);
    CoverageMoves(p.view, s.chain, s'.records, StartOf(p.next));
  }

  lemma AbandoningKeeps(s: State, s': State)
    requires Inv(s) && AbandonsPass(s, s')
    ensures Inv(s')
  {
    var p := s.pass.value;
    if s'.records != s.records {
      BlockKeepsCoverage(p.view, s.records, s'.records, 0, p.next);
      CoverageShrinks(p.view, s'.records, StartOf(s.endpoint), p.next);
      CoverageMoves(p.view, s.chain, s'.records, StartOf(s.endpoint));
    }
  }

  lemma PassingOverKeeps(s: State, s': State)
    requires Inv(s) && PassesOver(s, s')
    ensures Inv(s')
  {
    var p := s.pass.value;
    assert CoveredAt(p.view, s.records, p.next);
    assert CoveredBetween(p.view, s.records, 0, p.next + 1);
  }

  lemma StepKeeps(s: State, s': State)
    requires Inv(s) && Step(s, s')
    ensures Inv(s')
  {
    if ChainMoves(s, s') {
      MovesKeep(s, s');
    } else if IndexesBlock(s, s') {
      IndexingKeeps(s, s');
    } else if AbandonsPass(s, s') {
      AbandoningKeeps(s, s');
    } else if PassesOver(s, s') {
      PassingOverKeeps(s, s');
    } else if Resets(s, s') {
      assert StartOf(0) == 0;
    }
  }

  ghost predicate IsRun(run: seq<State>) {
    |run| > 0 && Init(run[0]) && forall i | 0 <= i < |run| - 1 :: Step(run[i], run[i + 1])
  }

  /** In every run, everything below the next pass's start is always recorded under its current height. */
  lemma {:induction false} AlwaysUpToDate(run: seq<State>, i: nat)
    requires IsRun(run) && i < |run|
    ensures Inv(run[i])
  {
    if i > 0 {
      AlwaysUpToDate(run, i - 1);
      StepKeeps(run[i - 1], run[i]);
    } else {
      assert StartOf(0) == 0;
    }
  }

  /**
   When a pass finishes, every wallet transaction of the view it read is recorded under its height,
   and so is every one of the current chain below a reorganisation's reach; all of it, if the chain
   did not move meanwhile and the pass went to the tip.
   */
  lemma FinishedPassCovers(run: seq<State>, i: nat)
    requires IsRun(run) && i + 1 < |run| && FinishesPass(run[i], run[i + 1])
    ensures var p, s := run[i].pass.value, run[i + 1];
            && CoveredBetween(p.view, s.records, 0, p.endHeight + 1)
            && (forall h: nat | h <= p.endHeight && h < |p.view| - MAX_REORG_BLOCKS && h < |s.chain| ::
                 CoveredAt(s.chain, s.records, h))
            && (s.chain == p.view && p.endHeight + 1 == |p.view| ==> CoveredBetween(s.chain, s.records, 0, |s.chain|))
  {
    AlwaysUpToDate(run, i);
    var p, s := run[i].pass.value, run[i + 1];
    CoverageShrinks(p.view, s.records, p.endHeight + 1, p.next);
    forall h: nat | h <= p.endHeight && h < |p.view| - MAX_REORG_BLOCKS && h < |s.chain|
      ensures CoveredAt(s.chain, s.records, h)
    {
      assert CoveredAt(p.view, s.records, h) && s.chain[h] == p.view[h];
    }
  }

  /** What IndexBlock promises makes the range callback a step: the next block is indexed, or the pass is over. */
  lemma CallbackIsStep(s: State, records: Records, endpoint: int, ok: bool)
    requires MidPass(s)
    requires var p := s.pass.value;
             && Untouched(s.records, records, p.view[p.next])
             && (ok ==> Indexed(s.records, records, p.view[p.next], p.next))
             && endpoint == if ok then p.next else s.endpoint
    ensures var p := s.pass.value;
            Step(s, s.(records := records, endpoint := endpoint, pass := if ok then Some(p.(next := p.next + 1)) else None))
  {
    var p := s.pass.value;
    var s' := s.(records := records, endpoint := endpoint, pass := if ok then Some(p.(next := p.next + 1)) else None);
    if ok {
      assert IndexesBlock(s, s');
    } else {
      assert AbandonsPass(s, s');
    }
  }

  /** What ClearSavedTransactions promises makes each of its outcomes steps; the last is the failing reset. */
  lemma ClearingIsSteps(s: State, records: Records, endpoint: int, dropFails: bool, resetFails: bool)
    requires s.pass.None? && !s.dropped
    requires records == (if dropFails then s.records else map[])
    requires endpoint == if !dropFails && !resetFails then 0 else s.endpoint
    ensures var s' := s.(records := records, endpoint := endpoint);
            if dropFails then s' == s
            else exists t :: Drops(s, t) && if resetFails then FailsToReset(t, s') else Resets(t, s')
  {
    if !dropFails {
      var t := s.(records := map[], dropped := true);
      assert Drops(s, t);
    }
  }

  /** A single pass, however it ends, keeps the index up to date for the next one. */
  lemma AnyPassKeepsUpToDate(chain: Chain, r: Records, endpoint: int, r': Records, endpoint': int, k: nat)
    requires CoveredBetween(chain, r, 0, StartOf(endpoint)) && StartOf(endpoint) <= k
    requires CoveredBetween(chain, r', StartOf(endpoint), k) && UntouchedBelow(chain, r, r', StartOf(endpoint))
    requires endpoint' == endpoint || StartOf(endpoint) <= endpoint' < k
    ensures CoveredBetween(chain, r', 0, k) && CoveredBetween(chain, r', 0, StartOf(endpoint'))
  {
    forall h: nat | 0 <= h < k && h < |chain| ensures CoveredAt(chain, r', h) {
      if h < StartOf(endpoint) {
        assert CoveredAt(chain, r, h);
      }
    }
  }

  // ---------------------------------------------------------------- a reset that fails

  /**
   If storing the endpoint fails after the records were dropped, the index stays up to date exactly
   when no block below the next pass's start has wallet transactions.
   */
  lemma FailedResetExactly(s0: State, s1: State, s2: State)
    requires Inv(s0) && Drops(s0, s1) && FailsToReset(s1, s2)
    ensures UpToDate(s2) <==> forall h: nat | h < StartOf(s0.endpoint) :: s0.chain[h] == []
  {
    if UpToDate(s2) {
      forall h: nat | h < StartOf(s0.endpoint) ensures s0.chain[h] == [] {
        assert CoveredAt(s2.chain, s2.records, h);
        assert s0.chain[h] == [] || !RecordedAt(s2.records, s0.chain[h], h, 0);
      }
    }
  }

  /** A failed reset can leave a transaction unindexed even after a later pass finishes. */
  lemma FailedResetLosesTransactions() returns (s: State, tx: Tx)
    ensures exists s0, s1, s2, s3, s4 ::
      && Inv(s0) && Drops(s0, s1) && FailsToReset(s1, s2) && BeginsPass(s2, s3, 7)
      && PassesOverAll(s3, s4) && FinishesPass(s4, s)
    ensures tx in s.chain[0] && tx.hash !in s.records
  {
    tx := Tx(1, 5);
    var chain: Chain := [[tx], [], [], [], [], [], [], []];
    var r: Records := map[1 := Record(0, 5)];
    var s0 := State(chain, r, 7, None, false);
    assert StartOf(7) == 1;
    assert forall h: nat | 0 < h < 8 :: chain[h] == [];
    assert UniqueTxs(chain);
    assert Inv(s0);
    var s1 := s0.(records := map[], dropped := true);
    var s2 := s1.(dropped := false);
    var s3 := s2.(pass := Some(Pass(chain, 1, 7)));
    var s4 := s3.(pass := Some(Pass(chain, 8, 7)));
    s := s4.(pass := None);
    assert Drops(s0, s1) && FailsToReset(s1, s2) && BeginsPass(s2, s3, 7) && FinishesPass(s4, s);
    assert PassesOverAll(s3, s4);
  }

  /** The rest of the pass meets no wallet transactions and is passed over. */
  ghost predicate PassesOverAll(s: State, s': State) {
    && s.pass.Some? && s.pass.value.endHeight < |s.pass.value.view|
    && var p := s.pass.value;
       && (forall h: nat | p.next <= h <= p.endHeight :: p.view[h] == [])
       && s' == s.(pass := Some(p.(next := p.endHeight + 1)))
  }
}
