/**
 Two meanings of scanning a chain of blocks (spv/sync.go, spv/backend.go): the reference scan, which
 downloads a block only when its compact filter hits something watched so far, and the exhaustive
 scan, which rescans every block.
 */
module ChainScan {
  import opened Common
  import opened Scan

  /**
   A block of the chain being scanned: what its compact filter answers about one element of data,
   whether the block was supplied up front, and the block itself.
   */
  datatype Node = Node(test: Data -> bool, have: bool, block: Block)

  /** A call that hands the transactions found in the block at an index to the wallet. */
  datatype Save = Save(index: nat, txs: seq<Tx>)

  /** Everything a watch set contributes to filter data. */
  function DataOf(w: WatchSet): set<Data> {
    (set a | a in w.addrs && a.script.Some? :: ScriptData(a.script.value))
    + (set op | op in w.outs :: OutData(op))
  }

  /** A script of a watched address, or a watched outpoint. */
  ghost predicate Watched(w: WatchSet, d: Data) {
    match d
    case ScriptData(s) => exists a :: a in w.addrs && a.script == Some(s)
    case OutData(op) => op in w.outs
  }

  lemma DataIsWatched(w: WatchSet, d: Data)
    ensures d in DataOf(w) <==> Watched(w, d)
  {
    if d in DataOf(w) && d.ScriptData? {
      var a :| a in w.addrs && a.script.Some? && ScriptData(a.script.value) == d;
    }
  }

  /** Every watched address can be matched through a script. */
  ghost predicate Scripted(w: WatchSet) {
    forall a :: a in w.addrs ==> a.script.Some?
  }

  ghost predicate TestAny(n: Node, data: set<Data>) {
    exists d :: d in data && n.test(d)
  }

  /** The block is rescanned: it was supplied, or its filter hits all the data watched so far. */
  ghost predicate Visits(w: WatchSet, n: Node) {
    n.have || TestAny(n, DataOf(w))
  }

  // ---------------------------------------------------------------- reference scan

  ghost function RefWatch(w: WatchSet, nodes: seq<Node>, n: nat): WatchSet
    requires n <= |nodes|
  {
    if n == 0 then w
    else
      var p := RefWatch(w, nodes, n - 1);
      if Visits(p, nodes[n - 1]) then ScanBlock(p, nodes[n - 1].block).watch else p
  }

  ghost predicate RefVisits(w: WatchSet, nodes: seq<Node>, i: nat)
    requires i < |nodes|
  {
    Visits(RefWatch(w, nodes, i), nodes[i])
  }

  /** What the reference scan reports for block i; nothing when the block is skipped. */
  ghost function RefMatches(w: WatchSet, nodes: seq<Node>, i: nat): seq<Tx>
    requires i < |nodes|
  {
    if RefVisits(w, nodes, i) then ScanBlock(RefWatch(w, nodes, i), nodes[i].block).matches else []
  }

  /** What the reference scan reports for each of the first n blocks. */
  ghost function RefFound(w: WatchSet, nodes: seq<Node>, n: nat): seq<seq<Tx>>
    requires n <= |nodes|
  {
    seq(n, i requires 0 <= i < n => RefMatches(w, nodes, i))
  }

  ghost function RefVisited(w: WatchSet, nodes: seq<Node>, n: nat): seq<bool>
    requires n <= |nodes|
  {
    seq(n, i requires 0 <= i < n => RefVisits(w, nodes, i))
  }

  /** The positions that are set, in increasing order. */
  ghost function Positions(flags: seq<bool>): seq<nat> {
    if |flags| == 0 then []
    else
      var n := |flags| - 1;
      Positions(flags[..n]) + (if flags[n] then [n as nat] else [])
  }

  /** Per-block results as the calls that hand the non-empty ones over, in order. */
  ghost function SavesOf(found: seq<seq<Tx>>): seq<Save> {
    if |found| == 0 then []
    else
      var n := |found| - 1;
      SavesOf(found[..n]) + (if found[n] != [] then [Save(n, found[n])] else [])
  }

  /** A run of the reference scan, block by block: the watch set before each block and after the last. */
  datatype Run = Run(watch: seq<WatchSet>, visited: seq<bool>, found: seq<seq<Tx>>)

  ghost predicate RunStep(r: Run, nodes: seq<Node>, k: nat)
    requires k < |nodes| == |r.visited| == |r.found| && |r.watch| == |nodes| + 1
  {
    var p, q := r.watch[k], ScanBlock(r.watch[k], nodes[k].block);
    && r.visited[k] == Visits(p, nodes[k])
    && r.found[k] == (if r.visited[k] then q.matches else [])
    && r.watch[k + 1] == (if r.visited[k] then q.watch else p)
  }

  ghost predicate IsRun(r: Run, nodes: seq<Node>) {
    && |nodes| == |r.visited| == |r.found| && |r.watch| == |nodes| + 1
    && forall k: nat | k < |nodes| :: RunStep(r, nodes, k)
  }

  ghost function RunOf(w: WatchSet, nodes: seq<Node>): Run {
    Run(seq(|nodes| + 1, i requires 0 <= i <= |nodes| => RefWatch(w, nodes, i)),
        RefVisited(w, nodes, |nodes|), RefFound(w, nodes, |nodes|))
  }

  lemma RunOfIsRun(w: WatchSet, nodes: seq<Node>)
    ensures IsRun(RunOf(w, nodes), nodes)
  {
    forall k: nat | k < |nodes| ensures RunStep(RunOf(w, nodes), nodes, k) {
    }
  }

  lemma RunPrefix(w: WatchSet, nodes: seq<Node>, k: nat)
    requires k <= |nodes|
    ensures var r := RunOf(w, nodes);
            && r.watch[k] == RefWatch(w, nodes, k)
            && r.visited[..k] == RefVisited(w, nodes, k) && r.found[..k] == RefFound(w, nodes, k)
  {
  }

  // ---------------------------------------------------------------- exhaustive scan

  ghost function BlocksOf(nodes: seq<Node>): (blocks: seq<Block>)
    ensures |blocks| == |nodes|
  {
    seq(|nodes|, i requires 0 <= i < |nodes| => nodes[i].block)
  }

  ghost function ExWatch(w: WatchSet, blocks: seq<Block>, n: nat): WatchSet
    requires n <= |blocks|
  {
    if n == 0 then w else ScanBlock(ExWatch(w, blocks, n - 1), blocks[n - 1]).watch
  }

  ghost function ExMatches(w: WatchSet, blocks: seq<Block>, i: nat): seq<Tx>
    requires i < |blocks|
  {
    ScanBlock(ExWatch(w, blocks, i), blocks[i]).matches
  }

  ghost function ExFound(w: WatchSet, blocks: seq<Block>, n: nat): seq<seq<Tx>>
    requires n <= |blocks|
  {
    seq(n, i requires 0 <= i < n => ExMatches(w, blocks, i))
  }

  /** All transactions of the first n blocks, in scan order. */
  ghost function ChainItems(blocks: seq<Block>, n: nat): seq<Item>
    requires n <= |blocks|
  {
    if n == 0 then [] else ChainItems(blocks, n - 1) + BlockItems(blocks[n - 1])
  }

  ghost function AllMatches(w: WatchSet, blocks: seq<Block>, n: nat): seq<Tx>
    requires n <= |blocks|
  {
    if n == 0 then [] else AllMatches(w, blocks, n - 1) + ExMatches(w, blocks, n - 1)
  }

  /** What scan makes of items followed by a block is what it makes of the items, and then of the block. */
  ghost predicate ExtendsAt(scan: seq<Item> -> ScanResult, items: seq<Item>, block: Block) {
    var r, s := scan(items), ScanBlock(scan(items).watch, block);
    var t := scan(items + BlockItems(block));
    t.watch == s.watch && t.matches == r.matches + s.matches
  }

  /** A scan that extends block by block does to a chain what the exhaustive scan does. */
  lemma {:induction false} BlockwiseIsExhaustive(scan: seq<Item> -> ScanResult, w: WatchSet, blocks: seq<Block>, n: nat)
    requires n <= |blocks| && scan([]) == ScanResult(w, [], []) && forall xs, b :: ExtendsAt(scan, xs, b)
    ensures ExWatch(w, blocks, n) == scan(ChainItems(blocks, n)).watch
    ensures AllMatches(w, blocks, n) == scan(ChainItems(blocks, n)).matches
  {
    if n > 0 {
      BlockwiseIsExhaustive(scan, w, blocks, n - 1);
      assert ExtendsAt(scan, ChainItems(blocks, n - 1), blocks[n - 1]);
    }
  }

  lemma ExhaustiveIsOneScan(w: WatchSet, blocks: seq<Block>, n: nat)
    requires n <= |blocks|
    ensures ExWatch(w, blocks, n) == ScanItems(w, ChainItems(blocks, n)).watch
    ensures AllMatches(w, blocks, n) == ScanItems(w, ChainItems(blocks, n)).matches
  {
    var scan := items => ScanItems(w, items);
    forall xs, b ensures ExtendsAt(scan, xs, b) {
      ScanConcat(w, xs, BlockItems(b));
    }
    BlockwiseIsExhaustive(scan, w, blocks, n);
  }

  /**
   The exhaustive scan of any prefix of a chain reports exactly the transactions that pay a watched
   address or spend an outpoint watched initially or created for a watched address earlier.
   */
  lemma ExhaustiveMeaning(w: WatchSet, blocks: seq<Block>, n: nat)
    requires n <= |blocks|
    ensures AllMatches(w, blocks, n) == RelevantTxs(w, ChainItems(blocks, n), |ChainItems(blocks, n)|)
    ensures var items := ChainItems(blocks, n);
            forall op :: (op in ExWatch(w, blocks, n).outs) == KnownAfter(w, items, |items|, op)
  {
    var items := ChainItems(blocks, n);
    ExhaustiveIsOneScan(w, blocks, n);
    assert items[..|items|] == items;
    MatchesAreRelevant(w, items, |items|);
    WatchMeans(w, items, |items|);
  }

  // ---------------------------------------------------------------- completeness

  /** The item carries d: an output paying the script's address, or a checked input spending the outpoint. */
  ghost predicate Carries(it: Item, d: Data) {
    match d
    case ScriptData(s) =>
      exists i, a :: 0 <= i < |it.tx.outputs| && it.tx.outputs[i].addrs.Some?
                     && a in it.tx.outputs[i].addrs.value && a.script == Some(s)
    case OutData(op) => exists j: nat :: CountsAt(it, j) && it.tx.inputs[j] == op
  }

  /** The filter of a block hits every element of data the block carries. */
  ghost predicate NoFalseNegatives(n: Node) {
    forall it, d :: it in BlockItems(n.block) && Carries(it, d) ==> n.test(d)
  }

  ghost predicate Carried(items: seq<Item>, w: WatchSet) {
    exists it, d :: it in items && d in DataOf(w) && Carries(it, d)
  }

  lemma ItemQuiet(w: WatchSet, it: Item)
    requires Scripted(w) && forall d :: d in DataOf(w) ==> !Carries(it, d)
    ensures !Matched(w, it) && ItemAdds(w, it) == []
  {
    if Spends(w.outs, CheckedInputs(it)) {
      var op :| op in CheckedInputs(it) && op in w.outs;
      CheckedInputsMean(it, op);
      assert OutData(op) in DataOf(w) && Carries(it, OutData(op));
    }
    forall i | 0 <= i < |it.tx.outputs|
      ensures !OutputPays(w.addrs, it.tx.outputs[i])
    {
      if OutputPays(w.addrs, it.tx.outputs[i]) {
        var a :| a in it.tx.outputs[i].addrs.value && a in w.addrs;
        assert ScriptData(a.script.value) in DataOf(w) && Carries(it, ScriptData(a.script.value));
      }
    }
    AddedByMeans(w, it, |it.tx.outputs|);
    EmptyOrHasElement(ItemAdds(w, it));
  }

  /** Transactions that carry nothing watched neither match nor grow the watch set. */
  lemma {:induction false} Quiet(w: WatchSet, items: seq<Item>)
    requires Scripted(w) && !Carried(items, w)
    ensures ScanItems(w, items) == ScanResult(w, [], [])
  {
    if |items| > 0 {
      var front, it := items[..|items| - 1], items[|items| - 1];
      assert !Carried(front, w);
      Quiet(w, front);
      ItemQuiet(w, it);
      assert ScanItems(w, items) == Step(ScanItems(w, front), it);
      assert Grow(w, []) == w;
    }
  }

  lemma SkippedIsQuiet(w: WatchSet, n: Node)
    requires Scripted(w) && NoFalseNegatives(n) && !Visits(w, n)
    ensures ScanBlock(w, n.block) == ScanResult(w, [], [])
  {
    Quiet(w, BlockItems(n.block));
  }

  /** Every block the reference scan skips would have matched nothing. */
  ghost predicate SkipsOnlyQuiet(w: WatchSet, nodes: seq<Node>, n: nat)
    requires n <= |nodes|
  {
    forall i: nat :: i < n && !RefVisits(w, nodes, i) ==>
      ScanBlock(RefWatch(w, nodes, i), nodes[i].block).matches == []
  }

  /** Block i is reported alike by both scans, and both watch the same data before and after it. */
  ghost predicate AgreeAt(w: WatchSet, nodes: seq<Node>, i: nat)
    requires i < |nodes|
  {
    && RefMatches(w, nodes, i) == ExMatches(w, BlocksOf(nodes), i)
    && RefWatch(w, nodes, i) == ExWatch(w, BlocksOf(nodes), i)
    && RefWatch(w, nodes, i + 1) == ExWatch(w, BlocksOf(nodes), i + 1)
  }

  lemma NoMatchesNoGrowth(w: WatchSet, b: Block)
    requires ScanBlock(w, b).matches == []
    ensures ScanBlock(w, b).watch == w
  {
    AddedImpliesMatched(w, BlockItems(b));
    AddedIsGrowth(w, BlockItems(b));
    assert ScanBlock(w, b).watch.outs == w.outs;
  }

  lemma QuietSkipAgrees(w: WatchSet, nodes: seq<Node>, i: nat)
    requires i < |nodes| && RefWatch(w, nodes, i) == ExWatch(w, BlocksOf(nodes), i)
    requires RefVisits(w, nodes, i) || ScanBlock(RefWatch(w, nodes, i), nodes[i].block).matches == []
    ensures AgreeAt(w, nodes, i)
  {
    var p := RefWatch(w, nodes, i);
    if !Visits(p, nodes[i]) {
      NoMatchesNoGrowth(p, nodes[i].block);
    }
    assert RefMatches(w, nodes, i) == ScanBlock(p, nodes[i].block).matches;
    assert RefWatch(w, nodes, i + 1) == ScanBlock(p, nodes[i].block).watch;
  }

  lemma {:induction false} QuietSkipsAgree(w: WatchSet, nodes: seq<Node>, n: nat)
    requires n <= |nodes| && SkipsOnlyQuiet(w, nodes, n)
    ensures RefWatch(w, nodes, n) == ExWatch(w, BlocksOf(nodes), n)
  {
    if n > 0 {
      var i: nat := n - 1;
      QuietSkipsAgree(w, nodes, i);
      QuietSkipAgrees(w, nodes, i);
      assert AgreeAt(w, nodes, i);
      assert i + 1 == n;
    }
  }

  /**
   With no assumption on filters: scanning by filters is exhaustive exactly when no skipped block
   would have matched.
   */
  lemma ExactlyWhenSkipsAreQuiet(w: WatchSet, nodes: seq<Node>, n: nat)
    requires n <= |nodes|
    ensures SkipsOnlyQuiet(w, nodes, n) <==> forall i: nat :: i < n ==> AgreeAt(w, nodes, i)
  {
    if SkipsOnlyQuiet(w, nodes, n) {
      forall i: nat | i < n ensures AgreeAt(w, nodes, i) {
        QuietSkipsAgree(w, nodes, i);
        QuietSkipAgrees(w, nodes, i);
      }
    }
    if forall i: nat :: i < n ==> AgreeAt(w, nodes, i) {
      forall i: nat | i < n && !RefVisits(w, nodes, i)
        ensures ScanBlock(RefWatch(w, nodes, i), nodes[i].block).matches == []
      {
        assert AgreeAt(w, nodes, i);
      }
    }
  }

  lemma {:induction false} NoneRelevant(w: WatchSet, items: seq<Item>, n: nat)
    requires n <= |items|
    ensures RelevantTxs(w, items, n) == [] <==> forall m: nat | m < n :: !Relevant(w, items, m)
  {
    if n > 0 {
      NoneRelevant(w, items, n - 1);
      var last: nat := n - 1;
      assert (forall m: nat | m < n :: !Relevant(w, items, m))
        <==> (forall m: nat | m < last :: !Relevant(w, items, m)) && !Relevant(w, items, last);
    }
  }

  /** The filter of block i misses: it hits nothing watched, yet item m of the block is relevant. */
  ghost predicate MissesAt(w: WatchSet, nodes: seq<Node>, i: nat, m: nat) {
    && i < |nodes| && m < |BlockItems(nodes[i].block)|
    && !RefVisits(w, nodes, i)
    && Relevant(RefWatch(w, nodes, i), BlockItems(nodes[i].block), m)
  }

  lemma MissesNothingIsQuiet(w: WatchSet, nodes: seq<Node>, n: nat, i: nat)
    requires i < n <= |nodes| && !RefVisits(w, nodes, i)
    ensures ScanBlock(RefWatch(w, nodes, i), nodes[i].block).matches == [] <==> forall m: nat :: !MissesAt(w, nodes, i, m)
  {
    var p, items := RefWatch(w, nodes, i), BlockItems(nodes[i].block);
    BlockMatchesAreRelevant(p, nodes[i].block);
    NoneRelevant(p, items, |items|);
    if forall m: nat :: !MissesAt(w, nodes, i, m) {
      forall m: nat | m < |items| ensures !Relevant(p, items, m) {
        assert !MissesAt(w, nodes, i, m);
      }
    }
  }

  /**
   With no assumption on filters: scanning by filters is exhaustive exactly when no filter misses a transaction
   that pays a watched address or spends an outpoint known by then.
   */
  lemma ExactlyWhenNothingIsMissed(w: WatchSet, nodes: seq<Node>, n: nat)
    requires n <= |nodes|
    ensures (forall i: nat, m: nat | i < n :: !MissesAt(w, nodes, i, m)) <==> forall i: nat :: i < n ==> AgreeAt(w, nodes, i)
  {
    ExactlyWhenSkipsAreQuiet(w, nodes, n);
    forall i: nat | i < n && !RefVisits(w, nodes, i)
      ensures ScanBlock(RefWatch(w, nodes, i), nodes[i].block).matches == [] <==> forall m: nat :: !MissesAt(w, nodes, i, m)
    {
      MissesNothingIsQuiet(w, nodes, n, i);
    }
  }

  /** A chain whose one filter misses a payment to a watched address. */
  lemma MissedPayment() returns (w: WatchSet, nodes: seq<Node>)
    ensures |nodes| == 1 && Scripted(w) && MissesAt(w, nodes, 0, 0) && !AgreeAt(w, nodes, 0)
  {
    var a := Address(1, Some([1]));
    var tx := Tx(7, [], [Output(Some([a]))], NotStake);
    w := WatchSet({a}, {});
    nodes := [Node(_ => false, false, Block([], [tx]))];
    assert BlockItems(nodes[0].block) == [Item(tx, 0, RegularTree)];
    assert PaysAt(w.addrs, tx, 0, a);
    assert MissesAt(w, nodes, 0, 0);
    ExactlyWhenNothingIsMissed(w, nodes, 1);
    var i: nat :| i < 1 && !AgreeAt(w, nodes, i);
  }

  lemma {:induction false} ScriptedThroughout(w: WatchSet, nodes: seq<Node>, n: nat)
    requires n <= |nodes| && Scripted(w)
    ensures Scripted(RefWatch(w, nodes, n)) && RefWatch(w, nodes, n).addrs == w.addrs
  {
    if n > 0 {
      ScriptedThroughout(w, nodes, n - 1);
      AddedIsGrowth(RefWatch(w, nodes, n - 1), BlockItems(nodes[n - 1].block));
    }
  }

  /** When no filter has a false negative, the reference scan finds what the exhaustive scan finds. */
  lemma CompleteWithoutFalseNegatives(w: WatchSet, nodes: seq<Node>, n: nat)
    requires n <= |nodes| && Scripted(w) && forall n :: n in nodes ==> NoFalseNegatives(n)
    ensures RefWatch(w, nodes, n) == ExWatch(w, BlocksOf(nodes), n)
    ensures RefFound(w, nodes, n) == ExFound(w, BlocksOf(nodes), n)
  {
    forall i: nat | i < n && !RefVisits(w, nodes, i)
      ensures ScanBlock(RefWatch(w, nodes, i), nodes[i].block).matches == []
    {
      ScriptedThroughout(w, nodes, i);
      SkippedIsQuiet(RefWatch(w, nodes, i), nodes[i]);
    }
    QuietSkipsAgree(w, nodes, n);
    ExactlyWhenSkipsAreQuiet(w, nodes, n);
    forall i: nat | i < n ensures RefMatches(w, nodes, i) == ExMatches(w, BlocksOf(nodes), i) {
      assert AgreeAt(w, nodes, i);
    }
  }

  /** Saves happen at strictly increasing indices, exactly where there is something to save. */
  lemma {:induction false} SavesOfMeaning(found: seq<seq<Tx>>)
    ensures var s := SavesOf(found);
            && (forall a, b | 0 <= a < b < |s| :: s[a].index < s[b].index)
            && (forall c :: c in s <==> c.index < |found| && c.txs == found[c.index] && c.txs != [])
  {
    if |found| > 0 {
      var n := |found| - 1;
      SavesOfMeaning(found[..n]);
      var s := SavesOf(found[..n]);
      forall a | 0 <= a < |s| ensures s[a].index < n {
        assert s[a] in s;
      }
    }
  }

  lemma {:induction false} PositionsMeaning(flags: seq<bool>)
    ensures var s := Positions(flags);
            && (forall a, b | 0 <= a < b < |s| :: s[a] < s[b])
            && (forall i: nat :: i in s <==> i < |flags| && flags[i])
  {
    if |flags| > 0 {
      var n := |flags| - 1;
      PositionsMeaning(flags[..n]);
      var s := Positions(flags[..n]);
      forall a | 0 <= a < |s| ensures s[a] < n {
        assert s[a] in s;
      }
    }
  }
}
