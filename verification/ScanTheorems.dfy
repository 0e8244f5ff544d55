/** What the two incremental scans achieve, stated against the exhaustive scan. */
module ScanTheorems {
  import opened Common
  import opened Scan
  import opened ChainScan
  import opened SpvSyncer

  /** The blocks of a list of hashes. */
  ghost function BlocksFor(hashes: seq<nat>, blockOf: nat -> Block): (blocks: seq<Block>)
    ensures |blocks| == |hashes| && forall i | 0 <= i < |hashes| :: blocks[i] == blockOf(hashes[i])
  {
    seq(|hashes|, i requires 0 <= i < |hashes| => blockOf(hashes[i]))
  }

  function HashesOf(chain: seq<BlockNode>): (hashes: seq<nat>)
    ensures |hashes| == |chain| && forall i | 0 <= i < |chain| :: hashes[i] == chain[i].hash
  {
    seq(|chain|, i requires 0 <= i < |chain| => chain[i].hash)
  }

  /** The filter hits every element of data that an item of the block carries. */
  ghost predicate HitsCarried(f: BlockFilter, block: Block) {
    forall it, d :: it in BlockItems(block) && Carries(it, d) ==> f.hits(d)
  }

  /** The same, and a filter that says it is empty belongs to a block that carries nothing. */
  ghost predicate FilterComplete(f: BlockFilter, block: Block) {
    forall it, d :: it in BlockItems(block) && Carries(it, d) ==> f.n != 0 && f.hits(d)
  }

  /** The watch sets of a scan are those of the reference scan over its view. */
  lemma {:induction false} TraceIsReference(chain: seq<BlockNode>, bmap: map<nat, Block>, blockOf: nat -> Block,
                                            watch: seq<WatchSet>, i: nat)
    requires ScanTrace(chain, bmap, blockOf, watch) && i <= |chain|
    ensures watch[i] == RefWatch(watch[0], ScanView(chain, bmap, blockOf), i)
  {
    if i > 0 {
      TraceIsReference(chain, bmap, blockOf, watch, i - 1);
      assert ScanTraceAt(chain, bmap, blockOf, watch, i - 1);
      ScanViewAt(chain, bmap, blockOf, i - 1, watch[i - 1]);
    }
  }

  /** What is found for a block is what the reference scan over the view reports for it. */
  lemma FoundIsReference(chain: seq<BlockNode>, bmap: map<nat, Block>, blockOf: nat -> Block,
                         watch: seq<WatchSet>, found: map<nat, seq<Tx>>, i: nat)
    requires ScanTrace(chain, bmap, blockOf, watch) && FoundAlong(chain, bmap, blockOf, watch, found) && i < |chain|
    ensures RefMatches(watch[0], ScanView(chain, bmap, blockOf), i)
         == if chain[i].hash in found then found[chain[i].hash] else []
  {
    TraceIsReference(chain, bmap, blockOf, watch, i);
    ScanViewAt(chain, bmap, blockOf, i, watch[i]);
  }

  lemma ViewHasNoFalseNegatives(chain: seq<BlockNode>, bmap: map<nat, Block>, blockOf: nat -> Block)
    requires forall n | n in chain :: FilterComplete(n.filter, blockOf(n.hash))
    ensures forall n | n in ScanView(chain, bmap, blockOf) :: NoFalseNegatives(n)
  {
    var nodes := ScanView(chain, bmap, blockOf);
    forall n | n in nodes ensures NoFalseNegatives(n) {
      var i :| 0 <= i < |chain| && nodes[i] == n;
      assert chain[i] in chain;
    }
  }

  /**
   If no filter of the chain has a false negative, a finished scanChain gives every block exactly the
   matches of rescanning all blocks in order (nothing found counting as none), and ends with the same
   watch set.
   */
  lemma ScanChainIsExhaustive(chain: seq<BlockNode>, bmap: map<nat, Block>, blockOf: nat -> Block,
                              watch: seq<WatchSet>, found: map<nat, seq<Tx>>)
    requires ScanTrace(chain, bmap, blockOf, watch) && FoundAlong(chain, bmap, blockOf, watch, found)
    requires Scripted(watch[0])
    requires forall n | n in chain :: FilterComplete(n.filter, blockOf(n.hash))
    ensures var blocks := BlocksFor(HashesOf(chain), blockOf);
            && watch[|chain|] == ExWatch(watch[0], blocks, |chain|)
            && (forall i: nat | i < |chain| ::
                 ExMatches(watch[0], blocks, i) == if chain[i].hash in found then found[chain[i].hash] else [])
            && forall h :: h in found ==> exists i: nat :: i < |chain| && chain[i].hash == h
  {
    var nodes, w, blocks := ScanView(chain, bmap, blockOf), watch[0], BlocksFor(HashesOf(chain), blockOf);
    assert BlocksOf(nodes) == blocks;
    ViewHasNoFalseNegatives(chain, bmap, blockOf);
    CompleteWithoutFalseNegatives(w, nodes, |chain|);
    TraceIsReference(chain, bmap, blockOf, watch, |chain|);
    forall i: nat | i < |chain|
      ensures ExMatches(w, blocks, i) == if chain[i].hash in found then found[chain[i].hash] else []
    {
      assert RefFound(w, nodes, |chain|)[i] == ExFound(w, blocks, |chain|)[i];
      FoundIsReference(chain, bmap, blockOf, watch, found, i);
    }
  }

  lemma {:induction false} RescanTraceIsReference(hashes: seq<nat>, cfilters: seq<Option<BlockFilter>>,
                                                  filters: seq<BlockFilter>, blockOf: nat -> Block,
                                                  watch: seq<WatchSet>, i: nat)
    requires |filters| == |hashes| == |cfilters| && forall j | 0 <= j < |hashes| :: cfilters[j] == Some(filters[j])
    requires RescanTrace(hashes, cfilters, blockOf, watch) && i <= |hashes|
    ensures watch[i] == RefWatch(watch[0], RescanView(hashes, filters, blockOf), i)
  {
    if i > 0 {
      RescanTraceIsReference(hashes, cfilters, filters, blockOf, watch, i - 1);
      assert RescanTraceAt(hashes, cfilters, blockOf, watch, i - 1);
      RescanViewAt(hashes, filters, blockOf, i - 1, watch[i - 1]);
    }
  }

  /**
   If no saved filter has a false negative, Rescan's saves up to block k are exactly the non-empty results
   of the exhaustive scan up to block k, in strictly increasing order; no block is rescanned twice.
   */
  lemma RescanIsExhaustive(hashes: seq<nat>, cfilters: seq<Option<BlockFilter>>, blockOf: nat -> Block,
                           watch: seq<WatchSet>, k: nat, saves: seq<Save>, rescanned: seq<nat>)
    requires k <= |hashes| == |cfilters| && None !in cfilters && RescanTrace(hashes, cfilters, blockOf, watch)
    requires SavedAlong(hashes, cfilters, blockOf, watch, k, saves, rescanned) && Scripted(watch[0])
    requires forall i | 0 <= i < |hashes| :: cfilters[i].Some? ==> HitsCarried(cfilters[i].value, blockOf(hashes[i]))
    ensures forall a, b | 0 <= a < b < |saves| :: saves[a].index < saves[b].index
    ensures var blocks := BlocksFor(hashes, blockOf);
            forall c :: c in saves <==> c.index < k && c.txs == ExMatches(watch[0], blocks, c.index) && c.txs != []
    ensures forall a, b | 0 <= a < b < |rescanned| :: rescanned[a] < rescanned[b]
    ensures watch[k] == ExWatch(watch[0], BlocksFor(hashes, blockOf), k)
  {
    var filters, w, blocks := Values(cfilters), watch[0], BlocksFor(hashes, blockOf);
    forall i | 0 <= i < |hashes| ensures cfilters[i] == Some(filters[i]) {
      assert cfilters[i] in cfilters;
    }
    var nodes := RescanView(hashes, filters, blockOf);
    assert BlocksOf(nodes) == blocks;
    CompleteWithoutFalseNegatives(w, nodes, k);
    RescanTraceIsReference(hashes, cfilters, filters, blockOf, watch, k);
    forall c ensures c in saves <==> c.index < k && c.txs == ExMatches(w, blocks, c.index) && c.txs != [] {
      if c.index < k {
        assert RefFound(w, nodes, k)[c.index] == ExFound(w, blocks, k)[c.index];
        RescanTraceIsReference(hashes, cfilters, filters, blockOf, watch, c.index);
        RescanViewAt(hashes, filters, blockOf, c.index, watch[c.index]);
      }
    }
  }

  /** A rescan cut short by an error has made a prefix of the saves of the complete one, on any filters. */
  lemma {:induction false} CutShortIsPrefix(found: seq<seq<Tx>>, k: nat)
    requires k <= |found|
    ensures SavesOf(found[..k]) <= SavesOf(found)
    decreases |found| - k
  {
    if k == |found| {
      assert found[..k] == found;
    } else {
      CutShortIsPrefix(found, k + 1);
      assert found[..k + 1][..k] == found[..k];
    }
  }

  /**
   Both scans decide to restart alike, though one asks for new data and the other for matches and new
   data: whatever a rescan adds is exactly the growth of the watch set and comes with a match.
   */
  lemma RestartTestsCoincide(w: WatchSet, b: Block)
    ensures var r := ScanBlock(w, b);
            && (OutsData(r.added) != [] ==> r.matches != [])
            && (OutsData(r.added) != [] <==> r.watch != w)
            && Distinct(r.added)
            && forall op :: op in r.added <==> op in r.watch.outs && op !in w.outs
  {
    RescanGrowth(w, b);
    AddedIsGrowth(w, BlockItems(b));
    var r := ScanBlock(w, b);
    EmptyOrHasElement(r.added);
    assert |OutsData(r.added)| == |r.added|;
  }
}
