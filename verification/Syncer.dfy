/**
 The part of the SPV syncer that finds wallet transactions in blocks (spv/rescan.go, spv/backend.go,
 spv/sync.go): two parallel watch structures per wallet, the block rescan that grows them, and the
 two scans that download only the blocks whose filters hit.
 */
module SpvSyncer {
  import opened Common
  import opened Scan
  import opened ChainScan

  datatype BlockFilter = BlockFilter(n: nat, hits: Data -> bool)

  datatype BlockNode = BlockNode(hash: nat, filter: BlockFilter)

  /** What one request for blocks leads to; the block at an Invalid index fails validation. */
  datatype Reply = Delivered | Lost | Invalid(at: nat)

  /** What the network does in one round of scanChain: the reply, and whether the context is done after it. */
  datatype Round = Round(reply: Reply, cancelled: bool)

  datatype ScanError = PeerLost | InvalidBlock | Cancelled

  /** The elements of filter data, without their order. */
  ghost function Elements(data: seq<Data>): set<Data> {
    set d | d in data
  }

  /** Wallet id's filter and filter data grew by ops, in parallel, and no other wallet's changed. */
  ghost predicate Grown(f: map<int, WatchSet>, d: map<int, seq<Data>>,
                        f': map<int, WatchSet>, d': map<int, seq<Data>>, id: int, ops: seq<OutPoint>)
    requires id in f && id in d
  {
    f' == f[id := Grow(f[id], ops)] && d' == d[id := d[id] + OutsData(ops)]
  }

  lemma GrownNone(f: map<int, WatchSet>, d: map<int, seq<Data>>, id: int)
    requires id in f && id in d
    ensures Grown(f, d, f, d, id, [])
  {
    assert Grow(f[id], []) == f[id];
    assert d[id] + OutsData([]) == d[id];
  }

  lemma GrownTwice(f: map<int, WatchSet>, d: map<int, seq<Data>>, f1: map<int, WatchSet>, d1: map<int, seq<Data>>,
                   f2: map<int, WatchSet>, d2: map<int, seq<Data>>, id: int, xs: seq<OutPoint>, ys: seq<OutPoint>)
    requires id in f && id in d && Grown(f, d, f1, d1, id, xs) && Grown(f1, d1, f2, d2, id, ys)
    ensures Grown(f, d, f2, d2, id, xs + ys)
  {
    assert Grow(Grow(f[id], xs), ys) == Grow(f[id], xs + ys);
    OutsDataConcat(d[id], xs, ys);
  }

  lemma OutsDataConcat(pre: seq<Data>, xs: seq<OutPoint>, ys: seq<OutPoint>)
    ensures pre + OutsData(xs + ys) == pre + OutsData(xs) + OutsData(ys)
  {
    assert OutsData(xs + ys) == OutsData(xs) + OutsData(ys);
  }

  function OutsData(ops: seq<OutPoint>): seq<Data> {
    seq(|ops|, i requires 0 <= i < |ops| => OutData(ops[i]))
  }

  /** A watch set extended with every address that has a script and every outpoint. */
  function LoadAll(w: WatchSet, addrs: seq<Address>, outpoints: seq<OutPoint>): WatchSet {
    WatchSet(w.addrs + (set a | a in addrs && a.script.Some?), w.outs + (set op | op in outpoints))
  }

  lemma LoadOneAddress(w: WatchSet, addrs: seq<Address>, i: nat)
    requires i < |addrs|
    ensures var l := LoadAll(w, addrs[..i], []);
            LoadAll(w, addrs[..i + 1], []) == l.(addrs := l.addrs + if addrs[i].script.Some? then {addrs[i]} else {})
  {
    assert addrs[..i + 1] == addrs[..i] + [addrs[i]];
  }

  lemma LoadOneOutPoint(w: WatchSet, outpoints: seq<OutPoint>, i: nat)
    requires i < |outpoints|
    ensures var l := LoadAll(w, [], outpoints[..i]);
            LoadAll(w, [], outpoints[..i + 1]) == l.(outs := l.outs + {outpoints[i]})
  {
    assert outpoints[..i + 1] == outpoints[..i] + [outpoints[i]];
  }

  predicate MatchAny(f: BlockFilter, data: seq<Data>) {
    exists d :: d in data && f.hits(d)
  }

  /** A chain of filters as the reference scan sees it, where blockOf gives the block of each hash. */
  ghost function ScanView(chain: seq<BlockNode>, bmap: map<nat, Block>, blockOf: nat -> Block): seq<Node> {
    seq(|chain|, i requires 0 <= i < |chain| =>
      Node((d: Data) => chain[i].filter.n != 0 && chain[i].filter.hits(d), chain[i].hash in bmap, blockOf(chain[i].hash)))
  }

  ghost function RescanView(hashes: seq<nat>, filters: seq<BlockFilter>, blockOf: nat -> Block): seq<Node>
    requires |filters| == |hashes|
  {
    seq(|hashes|, i requires 0 <= i < |hashes| => Node(filters[i].hits, false, blockOf(hashes[i])))
  }

  /** From an index on, exactly the blocks supplied or hit by the tested data are fetched. */
  ghost predicate FetchedExactly(fetched: seq<Option<Block>>, nodes: seq<Node>, tested: set<Data>, from: nat) {
    && |fetched| == |nodes|
    && forall i: nat | from <= i < |nodes| ::
         && (fetched[i].Some? <==> nodes[i].have || TestAny(nodes[i], tested))
         && (fetched[i].Some? ==> fetched[i].value == nodes[i].block)
  }

  /** found holds the matches of exactly the visited blocks among the first n. */
  ghost predicate FoundExactly(found: map<nat, seq<Tx>>, chain: seq<BlockNode>, run: Run, n: nat)
    requires n <= |chain| == |run.visited| == |run.found|
  {
    && (forall h :: h in found ==> exists i: nat :: i < n && chain[i].hash == h)
    && forall i: nat | i < n ::
         && (chain[i].hash in found <==> run.visited[i])
         && (chain[i].hash in found ==> found[chain[i].hash] == run.found[i])
  }

  // ---------------------------------------------------------------- the scans, said on their own arguments

  /** The block is rescanned: it was supplied, or its filter is not empty and hits something watched by then. */
  ghost predicate Consulted(n: BlockNode, bmap: map<nat, Block>, w: WatchSet) {
    n.hash in bmap || (n.filter.n != 0 && exists d :: Watched(w, d) && n.filter.hits(d))
  }

  /** The watch sets before each block of a scan and after the last: only a rescanned block changes it. */
  ghost predicate ScanTrace(chain: seq<BlockNode>, bmap: map<nat, Block>, blockOf: nat -> Block, watch: seq<WatchSet>) {
    && |watch| == |chain| + 1
    && forall i: nat | i < |chain| :: ScanTraceAt(chain, bmap, blockOf, watch, i)
  }

  ghost predicate ScanTraceAt(chain: seq<BlockNode>, bmap: map<nat, Block>, blockOf: nat -> Block, watch: seq<WatchSet>, i: nat)
    requires i < |chain| && i + 1 < |watch|
  {
    watch[i + 1] == if Consulted(chain[i], bmap, watch[i]) then ScanBlock(watch[i], blockOf(chain[i].hash)).watch
                    else watch[i]
  }

  /** The results of such a scan: exactly the rescanned blocks, each with its matches. */
  ghost predicate FoundAlong(chain: seq<BlockNode>, bmap: map<nat, Block>, blockOf: nat -> Block, watch: seq<WatchSet>,
                             found: map<nat, seq<Tx>>)
    requires |watch| == |chain| + 1
  {
    && (forall h :: h in found ==> exists i: nat :: i < |chain| && chain[i].hash == h)
    && forall i: nat | i < |chain| ::
         && (chain[i].hash in found <==> Consulted(chain[i], bmap, watch[i]))
         && (chain[i].hash in found ==> found[chain[i].hash] == ScanBlock(watch[i], blockOf(chain[i].hash)).matches)
  }

  lemma ScanViewAt(chain: seq<BlockNode>, bmap: map<nat, Block>, blockOf: nat -> Block, i: nat, w: WatchSet)
    requires i < |chain|
    ensures var node := ScanView(chain, bmap, blockOf)[i];
            (Visits(w, node) <==> Consulted(chain[i], bmap, w)) && node.block == blockOf(chain[i].hash)
  {
    var node := ScanView(chain, bmap, blockOf)[i];
    forall d ensures d in DataOf(w) <==> Watched(w, d) {
      DataIsWatched(w, d);
    }
    assert forall d :: node.test(d) <==> chain[i].filter.n != 0 && chain[i].filter.hits(d);
    if TestAny(node, DataOf(w)) {
      var d :| d in DataOf(w) && node.test(d);
      assert Watched(w, d) && chain[i].filter.hits(d);
    }
    if d :| chain[i].filter.n != 0 && Watched(w, d) && chain[i].filter.hits(d) {
      assert d in DataOf(w) && node.test(d);
    }
  }

  /** The reference run is the scan said on the chain's own filters and blocks. */
  lemma RunIsScanTrace(chain: seq<BlockNode>, bmap: map<nat, Block>, blockOf: nat -> Block, run: Run,
                       found: map<nat, seq<Tx>>)
    requires IsRun(run, ScanView(chain, bmap, blockOf)) && FoundExactly(found, chain, run, |chain|)
    ensures ScanTrace(chain, bmap, blockOf, run.watch) && FoundAlong(chain, bmap, blockOf, run.watch, found)
  {
    forall i: nat | i < |chain|
      ensures ScanTraceAt(chain, bmap, blockOf, run.watch, i)
      ensures run.visited[i] <==> Consulted(chain[i], bmap, run.watch[i])
      ensures run.visited[i] ==> run.found[i] == ScanBlock(run.watch[i], blockOf(chain[i].hash)).matches
    {
      assert RunStep(run, ScanView(chain, bmap, blockOf), i);
      ScanViewAt(chain, bmap, blockOf, i, run.watch[i]);
    }
  }

  /** The filter of a block hits something watched by then. */
  ghost predicate FilterHits(cfilter: Option<BlockFilter>, w: WatchSet) {
    cfilter.Some? && exists d :: Watched(w, d) && cfilter.value.hits(d)
  }

  ghost predicate RescanTrace(hashes: seq<nat>, cfilters: seq<Option<BlockFilter>>, blockOf: nat -> Block,
                              watch: seq<WatchSet>)
    requires |cfilters| == |hashes|
  {
    && |watch| == |hashes| + 1
    && forall i: nat | i < |hashes| :: RescanTraceAt(hashes, cfilters, blockOf, watch, i)
  }

  ghost predicate RescanTraceAt(hashes: seq<nat>, cfilters: seq<Option<BlockFilter>>, blockOf: nat -> Block,
                                watch: seq<WatchSet>, i: nat)
    requires i < |hashes| == |cfilters| && i + 1 < |watch|
  {
    watch[i + 1] == if FilterHits(cfilters[i], watch[i]) then ScanBlock(watch[i], blockOf(hashes[i])).watch else watch[i]
  }

  /** The saves and rescans of such a rescan up to block k, in strictly increasing order. */
  ghost predicate SavedAlong(hashes: seq<nat>, cfilters: seq<Option<BlockFilter>>, blockOf: nat -> Block,
                             watch: seq<WatchSet>, k: nat, saves: seq<Save>, rescanned: seq<nat>)
    requires k <= |hashes| == |cfilters| && |watch| == |hashes| + 1
  {
    && (forall a, b | 0 <= a < b < |saves| :: saves[a].index < saves[b].index)
    && (forall c :: c in saves <==>
          && c.index < k && FilterHits(cfilters[c.index], watch[c.index])
          && c.txs == ScanBlock(watch[c.index], blockOf(hashes[c.index])).matches && c.txs != [])
    && (forall a, b | 0 <= a < b < |rescanned| :: rescanned[a] < rescanned[b])
    && (forall i: nat :: i in rescanned <==> i < k && FilterHits(cfilters[i], watch[i]))
  }

  lemma RescanViewAt(hashes: seq<nat>, filters: seq<BlockFilter>, blockOf: nat -> Block, i: nat, w: WatchSet)
    requires i < |hashes| == |filters|
    ensures var node := RescanView(hashes, filters, blockOf)[i];
            (Visits(w, node) <==> FilterHits(Some(filters[i]), w)) && node.block == blockOf(hashes[i])
  {
    var node := RescanView(hashes, filters, blockOf)[i];
    forall d ensures d in DataOf(w) <==> Watched(w, d) {
      DataIsWatched(w, d);
    }
    if TestAny(node, DataOf(w)) {
      var d :| d in DataOf(w) && node.test(d);
      assert Watched(w, d) && filters[i].hits(d);
    }
    if d :| Watched(w, d) && filters[i].hits(d) {
      assert d in DataOf(w) && node.test(d);
    }
  }

  /** The reference run is the rescan said on the saved filters and the blocks. */
  lemma RunIsRescanTrace(hashes: seq<nat>, cfilters: seq<Option<BlockFilter>>, filters: seq<BlockFilter>,
                         blockOf: nat -> Block, run: Run, k: nat, saves: seq<Save>, rescanned: seq<nat>)
    requires |filters| == |hashes| == |cfilters| && forall i | 0 <= i < |hashes| :: cfilters[i] == Some(filters[i])
    requires IsRun(run, RescanView(hashes, filters, blockOf)) && RescannedTo(run, k, saves, rescanned)
    ensures RescanTrace(hashes, cfilters, blockOf, run.watch)
    ensures SavedAlong(hashes, cfilters, blockOf, run.watch, k, saves, rescanned)
  {
    forall i: nat | i < |hashes|
      ensures RescanTraceAt(hashes, cfilters, blockOf, run.watch, i)
      ensures run.visited[i] <==> FilterHits(cfilters[i], run.watch[i])
      ensures run.found[i] == if run.visited[i] then ScanBlock(run.watch[i], blockOf(hashes[i])).matches else []
    {
      assert RunStep(run, RescanView(hashes, filters, blockOf), i);
      RescanViewAt(hashes, filters, blockOf, i, run.watch[i]);
    }
    SavesOfMeaning(run.found[..k]);
    PositionsMeaning(run.visited[..k]);
  }

  lemma RescanGrowth(w: WatchSet, b: Block)
    ensures var r := ScanBlock(w, b);
            && DataOf(r.watch) == DataOf(w) + Elements(OutsData(r.added))
            && (Scripted(w) ==> Scripted(r.watch))
            && (OutsData(r.added) == [] ==> r.watch == w)
            && (OutsData(r.added) != [] ==> r.matches != [])
  {
    AddedIsGrowth(w, BlockItems(b));
    AddedImpliesMatched(w, BlockItems(b));
    var r := ScanBlock(w, b);
    var ds := OutsData(r.added);
    assert |ds| == |r.added|;
    if ds == [] {
      assert r.added == [];
      assert r.watch.outs == w.outs;
    }
    forall d | d in DataOf(w) + Elements(ds) ensures d in DataOf(r.watch) {
    }
    forall d | d in DataOf(r.watch) ensures d in DataOf(w) + Elements(ds) {
      if d.OutData? && d.op !in w.outs {
        var i :| 0 <= i < |r.added| && r.added[i] == d.op;
        assert ds[i] == d;
      }
    }
  }

  class Syncer {
    var wallets: set<int>
    var rescanFilter: map<int, WatchSet>
    var filterData: map<int, seq<Data>>

    /** The filter data of each wallet is exactly what its precise filter watches. */
    ghost predicate Valid()
      reads this
    {
      && rescanFilter.Keys == filterData.Keys
      && wallets <= rescanFilter.Keys
      && forall id | id in rescanFilter.Keys ::
           Elements(filterData[id]) == DataOf(rescanFilter[id]) && Scripted(rescanFilter[id])
    }

    constructor (ids: set<int>)
      ensures Valid()
      ensures wallets == ids
      ensures rescanFilter == map id | id in ids :: WatchSet({}, {})
    {
      wallets := ids;
      rescanFilter := map id | id in ids :: WatchSet({}, {});
      filterData := map id | id in ids :: [];
    }

    /** Watches an address in both structures, if it has a script. */
    method WatchAddress(id: int, a: Address)
      requires Valid() && id in rescanFilter
      modifies this`rescanFilter, this`filterData
      ensures Valid()
      ensures var w := old(rescanFilter[id]);
              rescanFilter == old(rescanFilter)[id := w.(addrs := w.addrs + if a.script.Some? then {a} else {})]
    {
      if a.script.Some? {
        ghost var w := rescanFilter[id];
        rescanFilter := rescanFilter[id := rescanFilter[id].(addrs := rescanFilter[id].addrs + {a})];
        filterData := filterData[id := filterData[id] + [ScriptData(a.script.value)]];
        assert DataOf(rescanFilter[id]) == DataOf(w) + {ScriptData(a.script.value)};
      } else {
        assert rescanFilter[id].addrs + {} == rescanFilter[id].addrs;
      }
    }

    method WatchOutPoint(id: int, op: OutPoint)
      requires Valid() && id in rescanFilter
      modifies this`rescanFilter, this`filterData
      ensures Valid()
      ensures var w := old(rescanFilter[id]);
              rescanFilter == old(rescanFilter)[id := w.(outs := w.outs + {op})]
    {
      ghost var w := rescanFilter[id];
      rescanFilter := rescanFilter[id := rescanFilter[id].(outs := rescanFilter[id].outs + {op})];
      filterData := filterData[id := filterData[id] + [OutData(op)]];
      assert DataOf(rescanFilter[id]) == DataOf(w) + {OutData(op)};
    }

    method WatchAddresses(id: int, addrs: seq<Address>)
      requires Valid() && id in rescanFilter
      modifies this`rescanFilter, this`filterData
      ensures Valid()
      ensures rescanFilter == old(rescanFilter)[id := LoadAll(old(rescanFilter)[id], addrs, [])]
    {
      ghost var f := rescanFilter;
      assert LoadAll(f[id], [], []) == f[id];
      for i := 0 to |addrs|
        invariant Valid()
        invariant rescanFilter == f[id := LoadAll(f[id], addrs[..i], [])]
      {
        LoadOneAddress(f[id], addrs, i);
        WatchAddress(id, addrs[i]);
      }
      assert addrs[..|addrs|] == addrs;
    }

    method WatchOutPoints(id: int, outpoints: seq<OutPoint>)
      requires Valid() && id in rescanFilter
      modifies this`rescanFilter, this`filterData
      ensures Valid()
      ensures rescanFilter == old(rescanFilter)[id := LoadAll(old(rescanFilter)[id], [], outpoints)]
    {
      ghost var f := rescanFilter;
      assert LoadAll(f[id], [], []) == f[id];
      for i := 0 to |outpoints|
        invariant Valid()
        invariant rescanFilter == f[id := LoadAll(f[id], [], outpoints[..i])]
      {
        LoadOneOutPoint(f[id], outpoints, i);
        WatchOutPoint(id, outpoints[i]);
      }
      assert outpoints[..|outpoints|] == outpoints;
    }

    /** Empties both structures of a wallet that reloads or has none. */
    method StartFilter(id: int, reload: bool)
      requires Valid()
      modifies this`rescanFilter, this`filterData
      ensures Valid()
      ensures rescanFilter == if reload || id !in old(rescanFilter) then old(rescanFilter)[id := WatchSet({}, {})]
                              else old(rescanFilter)
    {
      if reload || id !in rescanFilter {
        rescanFilter := rescanFilter[id := WatchSet({}, {})];
        filterData := filterData[id := []];
      }
    }

    /** Adds addresses that have a script, and outpoints, to both structures; a reload starts from nothing. */
    method LoadTxFilter(id: int, reload: bool, addrs: seq<Address>, outpoints: seq<OutPoint>)
      requires Valid()
      modifies this`rescanFilter, this`filterData
      ensures Valid()
      ensures var w := if reload || id !in old(rescanFilter) then WatchSet({}, {}) else old(rescanFilter)[id];
              rescanFilter == old(rescanFilter)[id := LoadAll(w, addrs, outpoints)]
      ensures id in rescanFilter
      ensures forall a :: a in rescanFilter[id].addrs <==>
                (!reload && id in old(rescanFilter) && a in old(rescanFilter)[id].addrs) || (a in addrs && a.script.Some?)
      ensures forall op :: op in rescanFilter[id].outs <==>
                (!reload && id in old(rescanFilter) && op in old(rescanFilter)[id].outs) || op in outpoints
    {
      StartFilter(id, reload);
      ghost var w := rescanFilter[id];
      WatchAddresses(id, addrs);
      WatchOutPoints(id, outpoints);
      assert LoadAll(LoadAll(w, addrs, []), [], outpoints) == LoadAll(w, addrs, outpoints);
    }

    /** The addresses of output n: the first watched one makes its outpoint watched and recorded. */
    method CheckOutput(it: Item, n: nat, id: int, fadded: seq<Data>) returns (fadded': seq<Data>, paid: bool)
      requires id in rescanFilter && id in filterData && n < |it.tx.outputs|
      modifies this`rescanFilter, this`filterData
      ensures var add := NewOutPoint(old(rescanFilter[id]), it, n);
              && Grown(old(rescanFilter), old(filterData), rescanFilter, filterData, id, add)
              && fadded' == fadded + OutsData(add)
      ensures paid <==> OutputPays(old(rescanFilter[id]).addrs, it.tx.outputs[n])
    {
      fadded', paid := fadded, false;
      var out := it.tx.outputs[n];
      var op := OutPointOf(it, n);
      ghost var w := rescanFilter[id];
      GrownNone(rescanFilter, filterData, id);
      assert fadded + OutsData([]) == fadded;
      if out.addrs.None? {
        return;
      }
      assert OutsData([op]) == [OutData(op)];
      assert Grow(w, [op]) == w.(outs := w.outs + {op});
      var addrs := out.addrs.value;
      for k := 0 to |addrs|
        invariant paid <==> exists a :: a in addrs[..k] && a in w.addrs
        invariant var add := if paid && op !in w.outs then [op] else [];
                  && Grown(old(rescanFilter), old(filterData), rescanFilter, filterData, id, add)
                  && fadded' == fadded + OutsData(add)
      {
        assert addrs[..k + 1] == addrs[..k] + [addrs[k]];
        if addrs[k] in rescanFilter[id].addrs {
          if op !in rescanFilter[id].outs {
            rescanFilter := rescanFilter[id := rescanFilter[id].(outs := rescanFilter[id].outs + {op})];
            filterData := filterData[id := filterData[id] + [OutData(op)]];
            fadded' := fadded' + [OutData(op)];
          }
          paid := true;
        }
      }
      assert addrs[..|addrs|] == addrs;
    }

    /** Whether one of the inputs spends a watched outpoint, appending the transaction once if so. */
    method CheckInputs(it: Item, id: int, matches: seq<Tx>) returns (matches': seq<Tx>, added: bool)
      requires id in rescanFilter
      ensures added <==> Spends(rescanFilter[id].outs, CheckedInputs(it))
      ensures added <==> exists j: nat :: CountsAt(it, j) && it.tx.inputs[j] in rescanFilter[id].outs
      ensures matches' == matches + (if added then [it.tx] else [])
    {
      SpendsMeans(rescanFilter[id].outs, it);
      matches', added := matches, false;
      var inputs := it.tx.inputs;
      if it.pos == 0 && TypeOf(it) == NotStake {
        return;
      }
      if TypeOf(it) == Vote && |inputs| > 0 {
        inputs := inputs[1..];
      }
      for j := 0 to |inputs|
        invariant added <==> exists op :: op in inputs[..j] && op in rescanFilter[id].outs
        invariant matches' == matches + (if added then [it.tx] else [])
      {
        assert inputs[..j + 1] == inputs[..j] + [inputs[j]];
        if inputs[j] in rescanFilter[id].outs {
          if !added {
            matches' := matches' + [it.tx];
            added := true;
          }
        }
      }
      assert inputs[..|inputs|] == inputs;
    }

    /** One transaction: checked inputs first, then outputs. */
    method CheckTransaction(it: Item, id: int, matches: seq<Tx>, fadded: seq<Data>)
      returns (matches': seq<Tx>, fadded': seq<Data>)
      requires id in rescanFilter && id in filterData
      modifies this`rescanFilter, this`filterData
      ensures var w := old(rescanFilter[id]);
              && Grown(old(rescanFilter), old(filterData), rescanFilter, filterData, id, ItemAdds(w, it))
              && matches' == matches + (if Matched(w, it) then [it.tx] else [])
              && fadded' == fadded + OutsData(ItemAdds(w, it))
    {
      ghost var w := rescanFilter[id];
      var added;
      matches', added := CheckInputs(it, id, matches);
      fadded' := fadded;
      GrownNone(rescanFilter, filterData, id);
      assert fadded + OutsData([]) == fadded;
      for n := 0 to |it.tx.outputs|
        invariant added <==> Spends(w.outs, CheckedInputs(it)) || PaysWithin(w.addrs, it.tx, n)
        invariant matches' == matches + (if added then [it.tx] else [])
        invariant Grown(old(rescanFilter), old(filterData), rescanFilter, filterData, id, AddedBy(w, it, n))
        invariant fadded' == fadded + OutsData(AddedBy(w, it, n))
      {
        var paid;
        ghost var f, d := rescanFilter, filterData;
        NewOutPointAfter(w, it, n);
        fadded', paid := CheckOutput(it, n, id, fadded');
        ghost var add := NewOutPoint(w, it, n);
        GrownTwice(old(rescanFilter), old(filterData), f, d, rescanFilter, filterData, id, AddedBy(w, it, n), add);
        OutsDataConcat(fadded, AddedBy(w, it, n), add);
        assert PaysWithin(w.addrs, it.tx, n + 1) <==> paid || PaysWithin(w.addrs, it.tx, n);
        if paid && !added {
          matches' := matches' + [it.tx];
          added := true;
        }
      }
    }

    /** Scans one tree of a block, appending to the matches and to the new filter data. */
    method RescanCheckTransactions(matches: seq<Tx>, fadded: seq<Data>, txs: seq<Tx>, tree: Tree, id: int)
      returns (matches': seq<Tx>, fadded': seq<Data>)
      requires id in rescanFilter && id in filterData
      modifies this`rescanFilter, this`filterData
      ensures var r := ScanItems(old(rescanFilter[id]), Items(txs, tree));
              && Grown(old(rescanFilter), old(filterData), rescanFilter, filterData, id, r.added)
              && matches' == matches + r.matches
              && fadded' == fadded + OutsData(r.added)
    {
      matches', fadded' := matches, fadded;
      ghost var w := rescanFilter[id];
      ghost var items := Items(txs, tree);
      ghost var r := ScanItems(w, items[..0]);
      GrownNone(rescanFilter, filterData, id);
      assert fadded + OutsData([]) == fadded;
      for i := 0 to |txs|
        invariant r == ScanItems(w, items[..i])
        invariant Grown(old(rescanFilter), old(filterData), rescanFilter, filterData, id, r.added)
        invariant matches' == matches + r.matches && fadded' == fadded + OutsData(r.added)
      {
        ghost var f, d := rescanFilter, filterData;
        AddedIsGrowth(w, items[..i]);
        PrefixStep(w, items, i + 1);
        matches', fadded' := CheckTransaction(Item(txs[i], i, tree), id, matches', fadded');
        GrownTwice(old(rescanFilter), old(filterData), f, d, rescanFilter, filterData, id, r.added, ItemAdds(r.watch, items[i]));
        OutsDataConcat(fadded, r.added, ItemAdds(r.watch, items[i]));
        r := Step(r, items[i]);
      }
      assert items[..|txs|] == items;
    }

    /** Rescans a block: the stake tree, then the regular tree. */
    method RescanBlock(b: Block, id: int) returns (matches: seq<Tx>, fadded: seq<Data>)
      requires Valid() && id in rescanFilter
      modifies this`rescanFilter, this`filterData
      ensures Valid()
      ensures var r := ScanBlock(old(rescanFilter[id]), b);
              && rescanFilter == old(rescanFilter)[id := r.watch]
              && matches == r.matches
              && fadded == OutsData(r.added)
    {
      ghost var f, d := rescanFilter, filterData;
      matches, fadded := RescanCheckTransactions([], [], b.stake, StakeTree, id);
      ghost var f1, d1 := rescanFilter, filterData;
      matches, fadded := RescanCheckTransactions(matches, fadded, b.regular, RegularTree, id);
      RescanBlockMeans(f, d, f1, d1, rescanFilter, filterData, id, b);
    }

    /** Rescans the fetched blocks in order from an index, stopping after the first that grows the watch set. */
    method RescanFetched(chain: seq<BlockNode>, fetched: seq<Option<Block>>, from: nat, id: int, found: map<nat, seq<Tx>>,
                         ghost nodes: seq<Node>, ghost run: Run, ghost tested: set<Data>)
      returns (found': map<nat, seq<Tx>>, next: nat, fadded: seq<Data>)
      requires Valid() && id in rescanFilter && from <= |chain| == |nodes| && IsRun(run, nodes)
      requires forall i, j | 0 <= i < j < |chain| :: chain[i].hash != chain[j].hash
      requires rescanFilter[id] == run.watch[from] && DataOf(run.watch[from]) == tested
      requires FetchedExactly(fetched, nodes, tested, from) && FoundExactly(found, chain, run, from)
      modifies this`rescanFilter, this`filterData
      ensures Valid()
      ensures from <= next <= |chain| && rescanFilter == old(rescanFilter)[id := run.watch[next]]
      ensures FoundExactly(found', chain, run, next)
      ensures DataOf(run.watch[next]) == tested + Elements(fadded)
      ensures if fadded == [] then next == |chain| else from < next
    {
      found' := found;
      next := from;
      while next < |chain|
        invariant from <= next <= |chain| && Valid()
        invariant rescanFilter == old(rescanFilter)[id := run.watch[next]]
        invariant FoundExactly(found', chain, run, next)
        invariant DataOf(run.watch[next]) == tested
      {
        VisitStep(run, nodes, from, next, fetched, tested);
        if fetched[next].Some? {
          var matches;
          RescanGrowth(run.watch[next], nodes[next].block);
          matches, fadded := RescanBlock(fetched[next].value, id);
          FoundOneMore(found', chain, run, next);
          found' := found'[chain[next].hash := matches];
          if fadded != [] {
            next := next + 1;
            return;
          }
        }
        next := next + 1;
      }
      fadded := [];
    }

    /** The rounds of a scan: test the current data, download the hits, rescan up to the next growth. */
    method ScanRounds(chain: seq<BlockNode>, bmap: map<nat, Block>, id: int, blockOf: nat -> Block, net: nat -> Round,
                      ghost nodes: seq<Node>, ghost run: Run)
      returns (r: Result<map<nat, seq<Tx>>, ScanError>)
      requires Valid() && id in rescanFilter
      requires forall i, j | 0 <= i < j < |chain| :: chain[i].hash != chain[j].hash
      requires forall h | h in bmap :: bmap[h] == blockOf(h)
      requires nodes == ScanView(chain, bmap, blockOf) && IsRun(run, nodes) && run.watch[0] == rescanFilter[id]
      modifies this`rescanFilter, this`filterData
      ensures Valid()
      ensures (forall n :: net(n) == Round(Delivered, false)) ==> r.Ok?
      ensures (forall n :: net(n).cancelled) && chain != [] ==> r.Err?
      ensures if r.Ok? then
                && rescanFilter == old(rescanFilter)[id := run.watch[|chain|]]
                && FoundExactly(r.value, chain, run, |chain|)
              else
                exists k: nat :: k <= |chain| && rescanFilter == old(rescanFilter)[id := run.watch[k]]
    {
      var found: map<nat, seq<Tx>> := map[];
      var data := filterData[id];
      var fetched := SuppliedBlocks(chain, bmap, blockOf);
      var idx, round := 0, 0;
      ghost var tested: set<Data> := {};
      while idx < |chain|
        invariant 0 <= idx <= |chain| && Valid()
        invariant (forall n :: net(n).cancelled) ==> idx == 0
        invariant rescanFilter == old(rescanFilter)[id := run.watch[idx]]
        invariant FoundExactly(found, chain, run, idx)
        invariant FetchedExactly(fetched[..], nodes, tested, idx)
        invariant DataOf(run.watch[idx]) == tested + Elements(data)
        decreases |chain| - idx
      {
        var err := FetchRound(chain, bmap, data, idx, fetched, blockOf, net(round).reply, tested);
        if err.Some? {
          return Err(err.value);
        }
        if net(round).cancelled {
          return Err(Cancelled);
        }
        round := round + 1;
        tested := tested + Elements(data);
        found, idx, data := RescanFetched(chain, fetched[..], idx, id, found, nodes, run, tested);
        if data == [] {
          break;
        }
      }
      return Ok(found);
    }

    /**
     Rescans every block of chain that was supplied or that the filters hit, downloading hits round
     by round. After a block grows the watch set, only the new data is tested, from the next block on.
     */
    method ScanChain(chain: seq<BlockNode>, bmap: map<nat, Block>, id: int, blockOf: nat -> Block, net: nat -> Round)
      returns (r: Result<map<nat, seq<Tx>>, ScanError>)
      requires Valid() && id in rescanFilter
      requires forall i, j | 0 <= i < j < |chain| :: chain[i].hash != chain[j].hash
      requires forall h | h in bmap :: bmap[h] == blockOf(h)
      modifies this`rescanFilter, this`filterData
      ensures Valid()
      ensures (forall n :: net(n) == Round(Delivered, false)) ==> r.Ok?
      ensures (forall n :: net(n).cancelled) && chain != [] ==> r.Err?
      ensures var run := RunOf(old(rescanFilter[id]), ScanView(chain, bmap, blockOf));
              if r.Ok? then
                && rescanFilter == old(rescanFilter)[id := run.watch[|chain|]]
                && FoundExactly(r.value, chain, run, |chain|)
              else
                exists k: nat :: k <= |chain| && rescanFilter == old(rescanFilter)[id := run.watch[k]]
      ensures r.Ok? ==> exists watch :: (
                && ScanTrace(chain, bmap, blockOf, watch) && watch[0] == old(rescanFilter[id])
                && rescanFilter == old(rescanFilter)[id := watch[|chain|]]
                && FoundAlong(chain, bmap, blockOf, watch, r.value))
    {
      ghost var nodes := ScanView(chain, bmap, blockOf);
      ghost var run := RunOf(rescanFilter[id], nodes);
      RunOfIsRun(rescanFilter[id], nodes);
      r := ScanRounds(chain, bmap, id, blockOf, net, nodes, run);
      if r.Ok? {
        RunIsScanTrace(chain, bmap, blockOf, run, r.value);
      }
    }

    /** Rescans block k, unless the context is done, and hands what it contains, if anything, to save. */
    method RescanOne(b: Block, k: nat, id: int, saves: seq<Save>, rescanned: seq<nat>,
                     cancelled: nat -> bool, saveFails: nat -> bool, ghost nodes: seq<Node>, ghost run: Run)
      returns (failed: bool, matched: seq<Tx>, fadded: seq<Data>, saves': seq<Save>, rescanned': seq<nat>, next: nat)
      requires Valid() && id in rescanFilter && k < |nodes| && IsRun(run, nodes)
      requires rescanFilter[id] == run.watch[k] && run.visited[k] && b == nodes[k].block
      requires RescannedTo(run, k, saves, rescanned) && StopsAtFailure(saves, rescanned, cancelled, saveFails, true)
      modifies this`rescanFilter, this`filterData
      ensures Valid()
      ensures next == (if cancelled(k) then k else k + 1) && rescanFilter == old(rescanFilter)[id := run.watch[next]]
      ensures RescannedTo(run, next, saves', rescanned')
      ensures StopsAtFailure(saves', rescanned', cancelled, saveFails, !failed)
      ensures failed <==> cancelled(k) || (matched != [] && saveFails(k))
      ensures cancelled(k) ==> saves' == saves && rescanned' == rescanned
      ensures !cancelled(k) ==>
        && saves' == saves + (if matched != [] then [Save(k, matched)] else []) && rescanned' == rescanned + [k]
        && DataOf(run.watch[k + 1]) == DataOf(run.watch[k]) + Elements(fadded)
      ensures matched == [] ==> fadded == []
    {
      failed, matched, fadded, saves', rescanned', next := true, [], [], saves, rescanned, k;
      if cancelled(k) {
        return;
      }
      assert RunStep(run, nodes, k);
      TraceStep(run, k, saves, rescanned);
      RescanGrowth(run.watch[k], b);
      matched, fadded := RescanBlock(b, id);
      rescanned', next := rescanned + [k], k + 1;
      if matched != [] {
        saves' := saves' + [Save(k, matched)];
      }
      failed := matched != [] && saveFails(k);
    }

    /**
     Rescans the fetched blocks in order from an index, saving what each contains, and stops after the
     first that grows the watch set, at a done context, or at a failing save.
     */
    method RescanAndSave(fetched: seq<Option<Block>>, from: nat, id: int, saves: seq<Save>, rescanned: seq<nat>,
                         cancelled: nat -> bool, saveFails: nat -> bool,
                         ghost nodes: seq<Node>, ghost run: Run, ghost tested: set<Data>)
      returns (failed: bool, saves': seq<Save>, rescanned': seq<nat>, next: nat, fadded: seq<Data>)
      requires Valid() && id in rescanFilter && from <= |nodes| && IsRun(run, nodes)
      requires FetchedExactly(fetched, nodes, tested, from) && DataOf(run.watch[from]) == tested
      requires rescanFilter[id] == run.watch[from] && RescannedTo(run, from, saves, rescanned)
      requires StopsAtFailure(saves, rescanned, cancelled, saveFails, true)
      modifies this`rescanFilter, this`filterData
      ensures Valid()
      ensures from <= next <= |nodes| && rescanFilter == old(rescanFilter)[id := run.watch[next]]
      ensures RescannedTo(run, next, saves', rescanned')
      ensures !failed ==> DataOf(run.watch[next]) == tested + Elements(fadded)
      ensures !failed ==> if fadded == [] then next == |nodes| else from < next
      ensures (forall k: nat :: !cancelled(k) && !saveFails(k)) ==> !failed
      ensures StopsAtFailure(saves', rescanned', cancelled, saveFails, !failed)
    {
      failed, saves', rescanned', next := false, saves, rescanned, from;
      while next < |fetched|
        invariant from <= next <= |nodes| && Valid() && !failed
        invariant rescanFilter == old(rescanFilter)[id := run.watch[next]]
        invariant RescannedTo(run, next, saves', rescanned')
        invariant DataOf(run.watch[next]) == tested
        invariant StopsAtFailure(saves', rescanned', cancelled, saveFails, true)
      {
        VisitStep(run, nodes, from, next, fetched, tested);
        if fetched[next].None? {
          TraceStep(run, next, saves', rescanned');
          next := next + 1;
          continue;
        }
        var matched;
        failed, matched, fadded, saves', rescanned', next :=
          RescanOne(fetched[next].value, next, id, saves', rescanned', cancelled, saveFails, nodes, run);
        if failed || (matched != [] && fadded != []) {
          return;
        }
      }
      fadded := [];
    }

    method RescanRounds(id: int, hashes: seq<nat>, filters: seq<BlockFilter>, blockOf: nat -> Block,
                        attempts: seq<Reply>, cancelled: nat -> bool, saveFails: nat -> bool,
                        ghost nodes: seq<Node>, ghost run: Run)
      returns (ok: bool, saves: seq<Save>, rescanned: seq<nat>)
      requires Valid() && |filters| == |hashes| && id in rescanFilter
      requires nodes == RescanView(hashes, filters, blockOf) && IsRun(run, nodes) && run.watch[0] == rescanFilter[id]
      modifies this`rescanFilter, this`filterData
      ensures Valid()
      ensures Smooth(attempts, |hashes|, cancelled, saveFails) ==> ok
      ensures StopsAtFailure(saves, rescanned, cancelled, saveFails, ok)
      ensures exists k: nat :: (
                && k <= |hashes| && (ok ==> k == |hashes|)
                && rescanFilter == old(rescanFilter)[id := run.watch[k]]
                && RescannedTo(run, k, saves, rescanned))
    {
      ok, saves, rescanned := false, [], [];
      var fetched := new Option<Block>[|hashes|](_ => None);
      var data := filterData[id];
      var idx, attempt := 0, 0;
      ghost var tested: set<Data> := {};
      while idx < |hashes|
        invariant 0 <= idx <= |hashes| && attempt <= |attempts| && Valid()
        invariant Smooth(attempts, |hashes|, cancelled, saveFails) ==> attempt <= idx
        invariant rescanFilter == old(rescanFilter)[id := run.watch[idx]]
        invariant RescannedTo(run, idx, saves, rescanned) && StopsAtFailure(saves, rescanned, cancelled, saveFails, true)
        invariant FetchedExactly(fetched[..], nodes, tested, idx)
        invariant DataOf(run.watch[idx]) == tested + Elements(data)
        decreases |hashes| - idx
      {
        var done;
        done, attempt := FetchWithRetries(hashes, filters, data, idx, fetched, blockOf, attempts, attempt, tested);
        if !done {
          return;
        }
        tested := tested + Elements(data);
        var failed;
        failed, saves, rescanned, idx, data :=
          RescanAndSave(fetched[..], idx, id, saves, rescanned, cancelled, saveFails, nodes, run, tested);
        if failed {
          return;
        }
        if data == [] {
          break;
        }
      }
      ok := true;
    }

    /**
     Rescans blocks by hash for a wallet, handing what each contains to save. The network answers the
     successive requests with attempts, after which no peer is left or the context is done.
     */
    method Rescan(id: int, hashes: seq<nat>, cfilters: seq<Option<BlockFilter>>, blockOf: nat -> Block,
                  attempts: seq<Reply>, cancelled: nat -> bool, saveFails: nat -> bool)
      returns (ok: bool, saves: seq<Save>, rescanned: seq<nat>)
      requires Valid() && |cfilters| == |hashes|
      modifies this`rescanFilter, this`filterData
      ensures Valid()
      ensures id !in wallets || None in cfilters ==>
        !ok && saves == [] && rescanned == [] && rescanFilter == old(rescanFilter)
      ensures StopsAtFailure(saves, rescanned, cancelled, saveFails, ok)
      ensures id in wallets && None !in cfilters && Smooth(attempts, |hashes|, cancelled, saveFails) ==> ok
      ensures id in wallets && None !in cfilters ==>
        var run := RunOf(old(rescanFilter)[id], RescanView(hashes, Values(cfilters), blockOf));
        exists k: nat :: (
          && k <= |hashes| && (ok ==> k == |hashes|)
          && rescanFilter == old(rescanFilter)[id := run.watch[k]]
          && RescannedTo(run, k, saves, rescanned))
      ensures id in wallets && None !in cfilters ==>
        exists k: nat, watch :: (
          && k <= |hashes| && (ok ==> k == |hashes|)
          && RescanTrace(hashes, cfilters, blockOf, watch) && watch[0] == old(rescanFilter)[id]
          && rescanFilter == old(rescanFilter)[id := watch[k]]
          && SavedAlong(hashes, cfilters, blockOf, watch, k, saves, rescanned))
    {
      if id !in wallets {
        return false, [], [];
      }
      var loaded, filters := LoadFilters(cfilters);
      if !loaded {
        return false, [], [];
      }
      ghost var nodes := RescanView(hashes, filters, blockOf);
      ghost var run := RunOf(rescanFilter[id], nodes);
      RunOfIsRun(rescanFilter[id], nodes);
      ok, saves, rescanned := RescanRounds(id, hashes, filters, blockOf, attempts, cancelled, saveFails, nodes, run);
      ghost var k: nat :| (
        && k <= |hashes| && (ok ==> k == |hashes|)
        && rescanFilter == old(rescanFilter)[id := run.watch[k]]
        && RescannedTo(run, k, saves, rescanned));
      RunIsRescanTrace(hashes, cfilters, filters, blockOf, run, k, saves, rescanned);
    }

    /**
     Keeps, in place and in order, the transactions that spend or pay something watched; every input
     counts here. The kept ones fill the front of txs, whose rest is left as it was.
     */
    method FilterRelevant(txs: array<Tx>, id: int) returns (n: nat)
      requires id in rescanFilter
      modifies txs
      ensures n <= txs.Length
      ensures var w := old(rescanFilter[id]); txs[..n] == Filter(old(txs[..]), tx => Touches(w, tx))
      ensures txs[n..] == old(txs[n..])
      ensures var w := old(rescanFilter[id]);
              forall tx :: tx in txs[..n] <==> tx in old(txs[..]) && TouchesAt(w, tx)
    {
      ghost var w := rescanFilter[id];
      ghost var p := tx => Touches(w, tx);
      n := 0;
      for i := 0 to txs.Length
        invariant n <= i && txs[..n] == Filter(old(txs[..])[..i], p)
        invariant forall k | n <= k < txs.Length :: txs[k] == old(txs[k])
      {
        assert old(txs[..])[..i + 1][..i] == old(txs[..])[..i];
        var tx := txs[i];
        if (exists op :: op in tx.inputs && op in rescanFilter[id].outs)
           || (exists k :: 0 <= k < |tx.outputs| && OutputPays(rescanFilter[id].addrs, tx.outputs[k])) {
          txs[n] := tx;
          n := n + 1;
        }
      }
      assert old(txs[..])[..txs.Length] == old(txs[..]);
      KeptTouch(w, old(txs[..]), p);
    }
  }

  ghost predicate TouchesAt(w: WatchSet, tx: Tx) {
    || (exists j: nat :: j < |tx.inputs| && tx.inputs[j] in w.outs)
    || (exists i: nat, a :: PaysAt(w.addrs, tx, i, a))
  }

  lemma TouchesMeans(w: WatchSet, tx: Tx)
    ensures Touches(w, tx) <==> TouchesAt(w, tx)
  {
    PaysMeans(w.addrs, tx);
    if Spends(w.outs, tx.inputs) {
      var op :| op in tx.inputs && op in w.outs;
      var j: nat :| j < |tx.inputs| && tx.inputs[j] == op;
    }
    if j: nat :| j < |tx.inputs| && tx.inputs[j] in w.outs {
      assert tx.inputs[j] in tx.inputs;
    }
  }

  lemma KeptTouch(w: WatchSet, txs: seq<Tx>, p: Tx -> bool)
    requires forall tx :: p(tx) <==> Touches(w, tx)
    ensures forall tx :: tx in Filter(txs, p) <==> tx in txs && TouchesAt(w, tx)
  {
    forall tx ensures tx in Filter(txs, p) <==> tx in txs && TouchesAt(w, tx) {
      FilterHolds(txs, p, tx);
      TouchesMeans(w, tx);
      assert tx in multiset(Filter(txs, p)) <==> tx in multiset(txs) && p(tx);
    }
  }

  predicate Touches(w: WatchSet, tx: Tx) {
    Spends(w.outs, tx.inputs) || Pays(w.addrs, tx)
  }

  /** Reads the saved filter of every block, stopping at the first that cannot be read. */
  method LoadFilters(cfilters: seq<Option<BlockFilter>>) returns (ok: bool, filters: seq<BlockFilter>)
    ensures ok <==> None !in cfilters
    ensures ok ==> filters == Values(cfilters)
    ensures ok ==> |filters| == |cfilters| && forall i | 0 <= i < |cfilters| :: cfilters[i] == Some(filters[i])
  {
    filters := [];
    for i := 0 to |cfilters|
      invariant None !in cfilters[..i] && filters == Values(cfilters[..i])
    {
      assert cfilters[..i + 1] == cfilters[..i] + [cfilters[i]];
      if cfilters[i].None? {
        return false, [];
      }
      filters := filters + [cfilters[i].value];
    }
    assert cfilters[..|cfilters|] == cfilters;
    ok := true;
  }

  function Values<T>(s: seq<Option<T>>): (r: seq<T>)
    requires None !in s
    ensures |r| == |s|
  {
    seq(|s|, i requires 0 <= i < |s| => assert s[i] in s; s[i].value)
  }

  /** A network, context and save that never fail, with an attempt for every block. */
  ghost predicate Smooth(attempts: seq<Reply>, n: nat, cancelled: nat -> bool, saveFails: nat -> bool) {
    && n <= |attempts| && (forall i | 0 <= i < |attempts| :: attempts[i].Delivered?)
    && forall k: nat :: !cancelled(k) && !saveFails(k)
  }

  /** Nothing is rescanned with a done context, no save but the last fails, and none if all is well. */
  ghost predicate StopsAtFailure(saves: seq<Save>, rescanned: seq<nat>, cancelled: nat -> bool, saveFails: nat -> bool,
                                 ok: bool) {
    && (forall i | 0 <= i < |rescanned| :: !cancelled(rescanned[i]))
    && (forall i | 0 <= i < |saves| && (ok || i + 1 < |saves|) :: !saveFails(saves[i].index))
  }

  /** A rescan whose first k blocks are dealt with has made exactly these saves and rescanned exactly these blocks. */
  ghost predicate RescannedTo(run: Run, k: nat, saves: seq<Save>, rescanned: seq<nat>) {
    && k <= |run.visited| == |run.found|
    && saves == SavesOf(run.found[..k])
    && rescanned == Positions(run.visited[..k])
  }

  lemma TraceStep(run: Run, k: nat, saves: seq<Save>, rescanned: seq<nat>)
    requires k < |run.found| && RescannedTo(run, k, saves, rescanned)
    ensures RescannedTo(run, k + 1, if run.found[k] != [] then saves + [Save(k, run.found[k])] else saves,
                        if run.visited[k] then rescanned + [k] else rescanned)
  {
    assert run.found[..k + 1][..k] == run.found[..k];
    assert run.visited[..k + 1][..k] == run.visited[..k];
  }

  /** Requests the blocks that hit, trying the next peer after every failed attempt, until all are delivered. */
  method FetchWithRetries(hashes: seq<nat>, filters: seq<BlockFilter>, data: seq<Data>, from: nat,
                          fetched: array<Option<Block>>, blockOf: nat -> Block, attempts: seq<Reply>, attempt: nat,
                          ghost tested: set<Data>)
    returns (done: bool, attempt': nat)
    requires from <= |hashes| == |filters| && attempt <= |attempts|
    requires FetchedExactly(fetched[..], RescanView(hashes, filters, blockOf), tested, from)
    modifies fetched
    ensures attempt <= attempt' <= |attempts|
    ensures attempt < |attempts| && attempts[attempt].Delivered? ==> done && attempt' <= attempt + 1
    ensures done ==>
      FetchedExactly(fetched[..], RescanView(hashes, filters, blockOf), tested + Elements(data), from)
    ensures done ==> forall i: nat | from <= i < |hashes| ::
      fetched[i].Some? <==> old(fetched[i].Some?) || exists d :: d in data && filters[i].hits(d)
  {
    ghost var nodes, before := RescanView(hashes, filters, blockOf), fetched[..];
    attempt' := attempt;
    var hits := CollectHits(from, fetched, i requires 0 <= i < |filters| => MatchAny(filters[i], data));
    done := hits == [];
    while !done
      invariant attempt <= attempt' <= |attempts|
      invariant attempt < |attempts| && attempts[attempt].Delivered? ==>
        attempt' == if done && hits != [] then attempt + 1 else attempt
      invariant forall i: nat | from <= i < |hashes| ::
        || fetched[i] == (if i in hits then Some(blockOf(hashes[i])) else before[i])
        || (!done && fetched[i] == before[i])
      decreases |attempts| - attempt', !done
    {
      if attempt' == |attempts| {
        return;
      }
      var err := FetchBlocks(hashes, hits, blockOf, attempts[attempt'], fetched);
      attempt' := attempt' + 1;
      done := err.None?;
    }
    forall i: nat | from <= i < |nodes|
      ensures i in hits <==> before[i].None? && TestAny(nodes[i], Elements(data))
    {
      assert MatchAny(filters[i], data) <==> exists d :: d in Elements(data) && filters[i].hits(d);
    }
    RoundFetches(before, fetched[..], nodes, hits, tested, Elements(data), from);
  }

  /** The blocks of a chain that are already at hand. */
  method SuppliedBlocks(chain: seq<BlockNode>, bmap: map<nat, Block>, blockOf: nat -> Block)
    returns (fetched: array<Option<Block>>)
    requires forall h | h in bmap :: bmap[h] == blockOf(h)
    ensures fresh(fetched)
    ensures FetchedExactly(fetched[..], ScanView(chain, bmap, blockOf), {}, 0)
  {
    fetched := new Option<Block>[|chain|](_ => None);
    for i := 0 to |chain|
      invariant forall k | 0 <= k < |chain| ::
        fetched[k] == if k < i && chain[k].hash in bmap then Some(blockOf(chain[k].hash)) else None
    {
      if chain[i].hash in bmap {
        fetched[i] := Some(bmap[chain[i].hash]);
      }
    }
  }

  /** Tests the filters from an index on against the current data and downloads the blocks that hit. */
  method FetchRound(chain: seq<BlockNode>, bmap: map<nat, Block>, data: seq<Data>, from: nat, fetched: array<Option<Block>>,
                    blockOf: nat -> Block, reply: Reply, ghost tested: set<Data>)
    returns (err: Option<ScanError>)
    requires from <= |chain| && FetchedExactly(fetched[..], ScanView(chain, bmap, blockOf), tested, from)
    modifies fetched
    ensures err.None? ==>
      FetchedExactly(fetched[..], ScanView(chain, bmap, blockOf), tested + Elements(data), from)
    ensures err.None? ==> forall i: nat | from <= i < |chain| ::
      fetched[i].Some? <==>
        old(fetched[i].Some?) || (chain[i].filter.n != 0 && exists d :: d in data && chain[i].filter.hits(d))
    ensures reply.Delivered? ==> err.None?
  {
    ghost var nodes, before := ScanView(chain, bmap, blockOf), fetched[..];
    var hits := CollectHits(from, fetched, i requires 0 <= i < |chain| =>
      chain[i].filter.n != 0 && MatchAny(chain[i].filter, data));
    err := FetchBlocks(seq(|chain|, i requires 0 <= i < |chain| => chain[i].hash), hits, blockOf, reply, fetched);
    if err.None? {
      forall i: nat | from <= i < |nodes|
        ensures i in hits <==> before[i].None? && TestAny(nodes[i], Elements(data))
      {
        assert MatchAny(chain[i].filter, data) <==> exists d :: d in Elements(data) && chain[i].filter.hits(d);
        assert forall d :: nodes[i].test(d) <==> chain[i].filter.n != 0 && chain[i].filter.hits(d);
      }
      RoundFetches(before, fetched[..], nodes, hits, tested, Elements(data), from);
    }
  }

  /** Filter workers report hits one at a time, in an arbitrary order; blocks already fetched are not tested. */
  method CollectHits(from: nat, fetched: array<Option<Block>>, hit: nat --> bool) returns (hits: seq<nat>)
    requires from <= fetched.Length && forall i: nat | i < fetched.Length :: hit.requires(i)
    ensures forall i: nat :: i in hits <==> from <= i < fetched.Length && fetched[i].None? && hit(i)
    ensures Distinct(hits)
  {
    hits := [];
    var pending := set i | from <= i < fetched.Length && fetched[i].None?;
    while pending != {}
      invariant forall i | i in pending :: from <= i < fetched.Length && fetched[i].None? && i !in hits
      invariant forall i: nat :: i in hits <==>
        from <= i < fetched.Length && fetched[i].None? && i !in pending && hit(i)
      invariant Distinct(hits)
      decreases pending
    {
      var i :| i in pending;
      pending := pending - {i};
      if hit(i) {
        hits := hits + [i];
      }
    }
  }

  /** One request for the blocks at the hit indices; blocks before an invalid one are kept. */
  method FetchBlocks(hashes: seq<nat>, hits: seq<nat>, blockOf: nat -> Block, reply: Reply, fetched: array<Option<Block>>)
    returns (err: Option<ScanError>)
    requires fetched.Length == |hashes| && forall i | i in hits :: i < |hashes|
    modifies fetched
    ensures err.None? ==> forall i | 0 <= i < |hashes| ::
      fetched[i] == if i in hits then Some(blockOf(hashes[i])) else old(fetched[i])
    ensures err.Some? ==> forall i | 0 <= i < |hashes| ::
      fetched[i] == old(fetched[i]) || (i in hits && fetched[i] == Some(blockOf(hashes[i])))
    ensures err.Some? <==> hits != [] && (reply.Lost? || (reply.Invalid? && reply.at < |hits|))
  {
    if hits == [] {
      return None;
    }
    if reply.Lost? {
      return Some(PeerLost);
    }
    for j := 0 to |hits|
      invariant forall i | 0 <= i < |hashes| ::
        fetched[i] == if i in hits[..j] then Some(blockOf(hashes[i])) else old(fetched[i])
      invariant reply.Invalid? ==> j <= reply.at
    {
      if reply.Invalid? && reply.at == j {
        return Some(InvalidBlock);
      }
      assert hits[j] in hits;
      fetched[hits[j]] := Some(blockOf(hashes[hits[j]]));
      assert hits[..j + 1] == hits[..j] + [hits[j]];
    }
    assert hits[..|hits|] == hits;
    return None;
  }

  /** Testing only the new data leaves fetched exactly what testing all the data would. */
  lemma RoundFetches(before: seq<Option<Block>>, after: seq<Option<Block>>, nodes: seq<Node>, hits: seq<nat>,
                     tested: set<Data>, added: set<Data>, from: nat)
    requires FetchedExactly(before, nodes, tested, from) && |after| == |nodes|
    requires forall i: nat | from <= i < |nodes| ::
      && (i in hits <==> before[i].None? && TestAny(nodes[i], added))
      && after[i] == if i in hits then Some(nodes[i].block) else before[i]
    ensures FetchedExactly(after, nodes, tested + added, from)
  {
    forall i: nat | from <= i < |nodes|
      ensures TestAny(nodes[i], tested + added) <==> TestAny(nodes[i], tested) || TestAny(nodes[i], added)
    {
      if TestAny(nodes[i], tested + added) {
        var d :| d in tested + added && nodes[i].test(d);
      }
    }
  }

  /** When all data watched so far was tested, being fetched is being visited. */
  lemma VisitStep(run: Run, nodes: seq<Node>, from: nat, i: nat, fetched: seq<Option<Block>>, tested: set<Data>)
    requires from <= i < |nodes| && IsRun(run, nodes) && FetchedExactly(fetched, nodes, tested, from)
    requires DataOf(run.watch[i]) == tested
    ensures fetched[i].Some? <==> run.visited[i]
    ensures if fetched[i].Some? then
              && fetched[i].value == nodes[i].block
              && run.watch[i + 1] == ScanBlock(run.watch[i], nodes[i].block).watch
              && run.found[i] == ScanBlock(run.watch[i], nodes[i].block).matches
            else run.watch[i + 1] == run.watch[i] && run.found[i] == []
  {
    assert RunStep(run, nodes, i);
  }

  lemma FoundOneMore(found: map<nat, seq<Tx>>, chain: seq<BlockNode>, run: Run, i: nat)
    requires i < |chain| == |run.visited| == |run.found| && FoundExactly(found, chain, run, i)
    requires forall a, b | 0 <= a < b < |chain| :: chain[a].hash != chain[b].hash
    requires run.visited[i]
    ensures FoundExactly(found[chain[i].hash := run.found[i]], chain, run, i + 1)
  {
  }

  predicate PaysWithin(addrs: set<Address>, tx: Tx, n: nat)
    requires n <= |tx.outputs|
  {
    exists i :: 0 <= i < n && OutputPays(addrs, tx.outputs[i])
  }

  /** The outpoint output n adds to a watch set, if any. */
  function NewOutPoint(w: WatchSet, it: Item, n: nat): seq<OutPoint>
    requires n < |it.tx.outputs|
  {
    var op := OutPointOf(it, n);
    if OutputPays(w.addrs, it.tx.outputs[n]) && op !in w.outs then [op] else []
  }

  /** Outputs do not interfere: what output n adds does not depend on the earlier outputs. */
  lemma NewOutPointAfter(w: WatchSet, it: Item, n: nat)
    requires n < |it.tx.outputs|
    ensures NewOutPoint(Grow(w, AddedBy(w, it, n)), it, n) == NewOutPoint(w, it, n)
    ensures AddedBy(w, it, n + 1) == AddedBy(w, it, n) + NewOutPoint(w, it, n)
  {
    AddedByMeans(w, it, n);
  }

  lemma BothTrees(w: WatchSet, b: Block)
    ensures var s := ScanItems(w, Items(b.stake, StakeTree));
            && s.watch == Grow(w, s.added)
            && ScanBlock(w, b) == After(s, ScanItems(s.watch, Items(b.regular, RegularTree)))
  {
    ScanConcat(w, Items(b.stake, StakeTree), Items(b.regular, RegularTree));
    AddedIsGrowth(w, Items(b.stake, StakeTree));
  }

  lemma RescanKeepsAgreement(w: WatchSet, data: seq<Data>, b: Block)
    requires Elements(data) == DataOf(w) && Scripted(w)
    ensures var r := ScanBlock(w, b);
            && r.watch == Grow(w, r.added)
            && Elements(data + OutsData(r.added)) == DataOf(r.watch) && Scripted(r.watch)
  {
    AddedIsGrowth(w, BlockItems(b));
    RescanGrowth(w, b);
    assert Elements(data + OutsData(ScanBlock(w, b).added)) == Elements(data) + Elements(OutsData(ScanBlock(w, b).added));
  }

  /** Two growths in a row, and what they leave if together they keep the two structures in agreement. */
  lemma GrowthsCombine(f: map<int, WatchSet>, d: map<int, seq<Data>>, f1: map<int, WatchSet>, d1: map<int, seq<Data>>,
                       f2: map<int, WatchSet>, d2: map<int, seq<Data>>, id: int, s: ScanResult, g: ScanResult, r: ScanResult)
    requires id in f && id in d && Grown(f, d, f1, d1, id, s.added) && Grown(f1, d1, f2, d2, id, g.added)
    requires r.added == s.added + g.added && r.matches == s.matches + g.matches && r.watch == Grow(f[id], r.added)
    requires Elements(d[id] + OutsData(r.added)) == DataOf(r.watch) && Scripted(r.watch)
    ensures f2 == f[id := r.watch] && d2 == d[id := d2[id]]
    ensures Elements(d2[id]) == DataOf(f2[id]) && Scripted(f2[id])
    ensures [] + s.matches + g.matches == r.matches
    ensures [] + OutsData(s.added) + OutsData(g.added) == OutsData(r.added)
  {
    GrownTwice(f, d, f1, d1, f2, d2, id, s.added, g.added);
    OutsDataConcat([], s.added, g.added);
    assert [] + s.matches + g.matches == s.matches + g.matches;
  }

  /** Scanning the stake tree and then the regular tree is scanning the block. */
  lemma RescanBlockMeans(f: map<int, WatchSet>, d: map<int, seq<Data>>, f1: map<int, WatchSet>, d1: map<int, seq<Data>>,
                         f2: map<int, WatchSet>, d2: map<int, seq<Data>>, id: int, b: Block)
    requires id in f && id in d && Elements(d[id]) == DataOf(f[id]) && Scripted(f[id])
    requires var s := ScanItems(f[id], Items(b.stake, StakeTree));
             && Grown(f, d, f1, d1, id, s.added)
             && Grown(f1, d1, f2, d2, id, ScanItems(f1[id], Items(b.regular, RegularTree)).added)
    ensures var s := ScanItems(f[id], Items(b.stake, StakeTree));
            var g := ScanItems(f1[id], Items(b.regular, RegularTree));
            var r := ScanBlock(f[id], b);
            && f2 == f[id := r.watch] && d2 == d[id := d2[id]]
            && Elements(d2[id]) == DataOf(f2[id]) && Scripted(f2[id])
            && [] + s.matches + g.matches == r.matches
            && [] + OutsData(s.added) + OutsData(g.added) == OutsData(r.added)
  {
    BothTrees(f[id], b);
    RescanKeepsAgreement(f[id], d[id], b);
    var s := ScanItems(f[id], Items(b.stake, StakeTree));
    GrowthsCombine(f, d, f1, d1, f2, d2, id, s, ScanItems(f1[id], Items(b.regular, RegularTree)), ScanBlock(f[id], b));
  }
}
