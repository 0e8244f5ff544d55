/**
 What scanning a transaction, a block or a chain of blocks means, independently of
 how the syncer schedules the work (spv/rescan.go).
 */
module Scan {
  import opened Common

  datatype Tree = RegularTree | StakeTree

  datatype OutPoint = OutPoint(hash: nat, index: nat, tree: Tree)

  /** An address together with the script that pays to it; None when no script can be built. */
  datatype Address = Address(id: nat, script: Option<seq<nat>>)

  /** The addresses extracted from an output script; None when the script cannot be parsed. */
  datatype Output = Output(addrs: Option<seq<Address>>)

  datatype StakeType = NotStake | TicketPurchase | Vote | Revocation

  datatype Tx = Tx(hash: nat, inputs: seq<OutPoint>, outputs: seq<Output>, stakeType: StakeType)

  datatype Block = Block(stake: seq<Tx>, regular: seq<Tx>)

  /** An element of compact-filter data: an output script or a serialised outpoint. */
  datatype Data = ScriptData(script: seq<nat>) | OutData(op: OutPoint)

  /** The precise rescan filter: watched addresses and watched unspent outpoints. */
  datatype WatchSet = WatchSet(addrs: set<Address>, outs: set<OutPoint>)

  /** A transaction at its position in one of the two trees of a block. */
  datatype Item = Item(tx: Tx, pos: nat, tree: Tree)

  datatype ScanResult = ScanResult(watch: WatchSet, matches: seq<Tx>, added: seq<OutPoint>)

  // ---------------------------------------------------------------- one transaction

  function TypeOf(it: Item): StakeType {
    if it.tree == StakeTree then it.tx.stakeType else NotStake
  }

  /** The inputs that reference previous outputs: none of a coinbase, all but the stakebase of a vote. */
  function CheckedInputs(it: Item): seq<OutPoint> {
    if it.pos == 0 && TypeOf(it) == NotStake then []
    else if TypeOf(it) == Vote && |it.tx.inputs| > 0 then it.tx.inputs[1..]
    else it.tx.inputs
  }

  predicate OutputPays(addrs: set<Address>, o: Output) {
    o.addrs.Some? && exists a :: a in o.addrs.value && a in addrs
  }

  predicate Pays(addrs: set<Address>, tx: Tx) {
    exists i :: 0 <= i < |tx.outputs| && OutputPays(addrs, tx.outputs[i])
  }

  predicate Spends(outs: set<OutPoint>, inputs: seq<OutPoint>) {
    exists op :: op in inputs && op in outs
  }

  predicate Matched(w: WatchSet, it: Item) {
    Spends(w.outs, CheckedInputs(it)) || Pays(w.addrs, it.tx)
  }

  function OutPointOf(it: Item, i: nat): OutPoint {
    OutPoint(it.tx.hash, i, it.tree)
  }

  /** The outpoints that the first n outputs of a transaction add to the watch set, in order. */
  function AddedBy(w: WatchSet, it: Item, n: nat): seq<OutPoint>
    requires n <= |it.tx.outputs|
  {
    if n == 0 then []
    else
      var op := OutPointOf(it, n - 1);
      AddedBy(w, it, n - 1)
      + (if OutputPays(w.addrs, it.tx.outputs[n - 1]) && op !in w.outs then [op] else [])
  }

  function Grow(w: WatchSet, ops: seq<OutPoint>): WatchSet {
    w.(outs := w.outs + set op | op in ops)
  }

  function ItemAdds(w: WatchSet, it: Item): seq<OutPoint> {
    AddedBy(w, it, |it.tx.outputs|)
  }

  // ---------------------------------------------------------------- sequences of transactions

  function Items(txs: seq<Tx>, tree: Tree): seq<Item> {
    seq(|txs|, i requires 0 <= i < |txs| => Item(txs[i], i, tree))
  }

  /** Scan order within a block: the stake tree first, then the regular tree. */
  function BlockItems(b: Block): seq<Item> {
    Items(b.stake, StakeTree) + Items(b.regular, RegularTree)
  }

  /** The result of scanning one more item after r. */
  function Step(r: ScanResult, it: Item): ScanResult {
    ScanResult(Grow(r.watch, ItemAdds(r.watch, it)),
               r.matches + (if Matched(r.watch, it) then [it.tx] else []),
               r.added + ItemAdds(r.watch, it))
  }

  function ScanItems(w: WatchSet, items: seq<Item>): ScanResult {
    if |items| == 0 then ScanResult(w, [], [])
    else
      Step(ScanItems(w, items[..|items| - 1]), items[|items| - 1])
  }

  function ScanBlock(w: WatchSet, b: Block): ScanResult {
    ScanItems(w, BlockItems(b))
  }

  // ---------------------------------------------------------------- declarative meaning

  /** Output i pays a, one of the addresses. */
  ghost predicate PaysAt(addrs: set<Address>, tx: Tx, i: nat, a: Address) {
    i < |tx.outputs| && tx.outputs[i].addrs.Some? && a in tx.outputs[i].addrs.value && a in addrs
  }

  /**
   Input j references a previous output: the item is not the first of its tree, unless it is a stake
   transaction of the stake tree, and it is not the stakebase of a vote of the stake tree.
   */
  ghost predicate CountsAt(it: Item, j: nat) {
    && j < |it.tx.inputs|
    && (it.pos == 0 ==> it.tree == StakeTree && it.tx.stakeType != NotStake)
    && (it.tree == StakeTree && it.tx.stakeType == Vote ==> j > 0)
  }

  lemma PaysMeans(addrs: set<Address>, tx: Tx)
    ensures Pays(addrs, tx) <==> exists i: nat, a :: PaysAt(addrs, tx, i, a)
    ensures forall i: nat | i < |tx.outputs| :: OutputPays(addrs, tx.outputs[i]) <==> exists a :: PaysAt(addrs, tx, i, a)
  {
    forall i: nat | i < |tx.outputs|
      ensures OutputPays(addrs, tx.outputs[i]) <==> exists a :: PaysAt(addrs, tx, i, a)
    {
      if OutputPays(addrs, tx.outputs[i]) {
        var a :| a in tx.outputs[i].addrs.value && a in addrs;
        assert PaysAt(addrs, tx, i, a);
      }
    }
    if Pays(addrs, tx) {
      var i :| 0 <= i < |tx.outputs| && OutputPays(addrs, tx.outputs[i]);
      var a :| PaysAt(addrs, tx, i, a);
    }
    if i: nat, a :| PaysAt(addrs, tx, i, a) {
      assert OutputPays(addrs, tx.outputs[i]);
    }
  }

  /** The checked inputs are exactly those that reference a previous output. */
  lemma CheckedInputsMean(it: Item, op: OutPoint)
    ensures op in CheckedInputs(it) <==> exists j: nat :: CountsAt(it, j) && it.tx.inputs[j] == op
  {
    var checked := CheckedInputs(it);
    var skipped := if TypeOf(it) == Vote && |it.tx.inputs| > 0 then 1 else 0;
    if op in checked {
      var k :| 0 <= k < |checked| && checked[k] == op;
      assert CountsAt(it, k + skipped) && it.tx.inputs[k + skipped] == op;
    }
    if j: nat :| CountsAt(it, j) && it.tx.inputs[j] == op {
      assert checked[j - skipped] == op;
    }
  }

  lemma SpendsMeans(outs: set<OutPoint>, it: Item)
    ensures Spends(outs, CheckedInputs(it)) <==> exists j: nat :: CountsAt(it, j) && it.tx.inputs[j] in outs
  {
    forall op ensures op in CheckedInputs(it) <==> exists j: nat :: CountsAt(it, j) && it.tx.inputs[j] == op {
      CheckedInputsMean(it, op);
    }
    if Spends(outs, CheckedInputs(it)) {
      var op :| op in CheckedInputs(it) && op in outs;
      var j: nat :| CountsAt(it, j) && it.tx.inputs[j] == op;
    }
    if j: nat :| CountsAt(it, j) && it.tx.inputs[j] in outs {
      assert it.tx.inputs[j] in CheckedInputs(it);
    }
  }

  /** Output i of item m pays a watched address and is the outpoint op. */
  ghost predicate Creates(addrs: set<Address>, items: seq<Item>, m: nat, op: OutPoint) {
    && m < |items|
    && op.hash == items[m].tx.hash && op.tree == items[m].tree
    && exists a :: PaysAt(addrs, items[m].tx, op.index, a)
  }

  /** op is watched by the time the first n items are scanned. */
  ghost predicate KnownAfter(w: WatchSet, items: seq<Item>, n: nat, op: OutPoint) {
    op in w.outs || exists m: nat :: m < n && Creates(w.addrs, items, m, op)
  }

  /** The n-th item pays the wallet, or a checked input spends something watched before it. */
  ghost predicate Relevant(w: WatchSet, items: seq<Item>, n: nat)
    requires n < |items|
  {
    || (exists i: nat, a :: PaysAt(w.addrs, items[n].tx, i, a))
    || exists j: nat :: CountsAt(items[n], j) && KnownAfter(w, items, n, items[n].tx.inputs[j])
  }

  /** The relevant transactions among the first n items, in scan order. */
  ghost function RelevantTxs(w: WatchSet, items: seq<Item>, n: nat): seq<Tx>
    requires n <= |items|
  {
    if n == 0 then []
    else RelevantTxs(w, items, n - 1) + (if Relevant(w, items, n - 1) then [items[n - 1].tx] else [])
  }

  lemma {:induction false} AddedByMeans(w: WatchSet, it: Item, n: nat)
    requires n <= |it.tx.outputs|
    ensures forall op :: op in AddedBy(w, it, n) <==>
      (op !in w.outs && op.index < n && op == OutPointOf(it, op.index)
       && OutputPays(w.addrs, it.tx.outputs[op.index]))
    ensures Distinct(AddedBy(w, it, n))
  {
    if n > 0 {
      AddedByMeans(w, it, n - 1);
    }
  }

  /** Scanning never forgets, keeps the addresses, and reports exactly the growth of the watch set. */
  lemma {:induction false} AddedIsGrowth(w: WatchSet, items: seq<Item>)
    ensures var r := ScanItems(w, items);
            && r.watch == Grow(w, r.added)
            && r.watch.addrs == w.addrs
            && Distinct(r.added)
            && (forall op :: op in r.added <==> op in r.watch.outs && op !in w.outs)
  {
    if |items| > 0 {
      var front, it := items[..|items| - 1], items[|items| - 1];
      AddedIsGrowth(w, front);
      var r := ScanItems(w, front);
      AddedByMeans(r.watch, it, |it.tx.outputs|);
      assert ScanItems(w, items).added == r.added + ItemAdds(r.watch, it);
    }
  }

  lemma ItemAddsMeans(w: WatchSet, items: seq<Item>, m: nat, op: OutPoint)
    requires m < |items|
    ensures op in ItemAdds(w, items[m]) <==> op !in w.outs && Creates(w.addrs, items, m, op)
  {
    AddedByMeans(w, items[m], |items[m].tx.outputs|);
    PaysMeans(w.addrs, items[m].tx);
  }

  lemma KnownStep(w: WatchSet, items: seq<Item>, n: nat, op: OutPoint)
    requires 0 < n <= |items|
    ensures KnownAfter(w, items, n, op) <==> KnownAfter(w, items, n - 1, op) || Creates(w.addrs, items, n - 1, op)
  {
  }

  lemma PrefixStep(w: WatchSet, items: seq<Item>, n: nat)
    requires 0 < n <= |items|
    ensures ScanItems(w, items[..n]) == Step(ScanItems(w, items[..n - 1]), items[n - 1])
  {
    assert items[..n][..n - 1] == items[..n - 1];
  }

  /** After any prefix, the watch set holds exactly the outpoints known by then. */
  lemma {:induction false} WatchMeans(w: WatchSet, items: seq<Item>, n: nat)
    requires n <= |items|
    ensures var r := ScanItems(w, items[..n]).watch;
            r.addrs == w.addrs && forall op :: op in r.outs <==> KnownAfter(w, items, n, op)
  {
    if n > 0 {
      WatchMeans(w, items, n - 1);
      PrefixStep(w, items, n);
      var r := ScanItems(w, items[..n - 1]).watch;
      forall op
        ensures op in Grow(r, ItemAdds(r, items[n - 1])).outs <==> KnownAfter(w, items, n, op)
      {
        ItemAddsMeans(r, items, n - 1, op);
        KnownStep(w, items, n, op);
      }
    }
  }

  /** An item matches what is watched before it exactly if it is relevant. */
  lemma MatchedIsRelevant(w: WatchSet, items: seq<Item>, n: nat, r: WatchSet)
    requires n < |items| && r.addrs == w.addrs && forall op :: op in r.outs <==> KnownAfter(w, items, n, op)
    ensures Matched(r, items[n]) <==> Relevant(w, items, n)
  {
    PaysMeans(w.addrs, items[n].tx);
    SpendsMeans(r.outs, items[n]);
  }

  /** The items of a block: the stake tree first, then the regular tree, each at its position in its tree. */
  lemma BlockItemsMean(b: Block, k: nat)
    ensures |BlockItems(b)| == |b.stake| + |b.regular|
    ensures k < |b.stake| ==> BlockItems(b)[k] == Item(b.stake[k], k, StakeTree)
    ensures k < |b.regular| ==> BlockItems(b)[|b.stake| + k] == Item(b.regular[k], k, RegularTree)
  {
  }

  /** A scan reports exactly the relevant transactions, each once and in scan order. */
  lemma {:induction false} MatchesAreRelevant(w: WatchSet, items: seq<Item>, n: nat)
    requires n <= |items|
    ensures ScanItems(w, items[..n]).matches == RelevantTxs(w, items, n)
  {
    if n > 0 {
      MatchesAreRelevant(w, items, n - 1);
      WatchMeans(w, items, n - 1);
      PrefixStep(w, items, n);
      MatchedIsRelevant(w, items, n - 1, ScanItems(w, items[..n - 1]).watch);
    }
  }

  lemma BlockMatchesAreRelevant(w: WatchSet, b: Block)
    ensures ScanBlock(w, b).matches == RelevantTxs(w, BlockItems(b), |BlockItems(b)|)
  {
    var items := BlockItems(b);
    MatchesAreRelevant(w, items, |items|);
    assert items[..|items|] == items;
  }

  /** Whatever grows the watch set is also reported as a match. */
  lemma {:induction false} AddedImpliesMatched(w: WatchSet, items: seq<Item>)
    ensures ScanItems(w, items).added != [] ==> ScanItems(w, items).matches != []
  {
    if |items| > 0 {
      var front, it := items[..|items| - 1], items[|items| - 1];
      AddedImpliesMatched(w, front);
      var r := ScanItems(w, front).watch;
      if ItemAdds(r, it) != [] {
        AddedByMeans(r, it, |it.tx.outputs|);
        var op := ItemAdds(r, it)[0];
        assert op in ItemAdds(r, it);
        assert OutputPays(r.addrs, it.tx.outputs[op.index]);
        assert Pays(r.addrs, it.tx);
      }
    }
  }

  function After(r: ScanResult, q: ScanResult): ScanResult {
    ScanResult(q.watch, r.matches + q.matches, r.added + q.added)
  }

  lemma StepAfter(r: ScanResult, q: ScanResult, it: Item)
    ensures Step(After(r, q), it) == After(r, Step(q, it))
  {
  }

  /** Scanning two stretches one after the other is scanning their concatenation. */
  lemma {:induction false} ScanConcat(w: WatchSet, xs: seq<Item>, ys: seq<Item>)
    ensures ScanItems(w, xs + ys) == After(ScanItems(w, xs), ScanItems(ScanItems(w, xs).watch, ys))
    decreases |ys|
  {
    var r := ScanItems(w, xs);
    if |ys| == 0 {
      assert xs + ys == xs;
      assert r.matches + [] == r.matches && r.added + [] == r.added;
    } else {
      var front, it := ys[..|ys| - 1], ys[|ys| - 1];
      ScanConcat(w, xs, front);
      assert (xs + ys)[..|xs + ys| - 1] == xs + front && (xs + ys)[|xs + ys| - 1] == it;
      StepAfter(r, ScanItems(r.watch, front), it);
      assert ScanItems(w, xs + ys) == Step(ScanItems(w, xs + front), it);
      assert ScanItems(r.watch, ys) == Step(ScanItems(r.watch, front), it);
    }
  }
}
