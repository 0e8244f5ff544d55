/**
 The transaction index (txindex.go, txindex/read.go, txindex/save.go): records by transaction hash and
 the height up to which indexing got, kept up to date with a chain that grows and reorganises.
 */
module TxIndex {
  import opened Common

  const MAX_REORG_BLOCKS: int := 6

  datatype Tx = Tx(hash: nat, timestamp: int)

  /** An indexed transaction; height -1 stands for an unmined one. */
  datatype Record = Record(height: int, timestamp: int)

  type Records = map<nat, Record>

  /** The wallet transactions of each block, by height. */
  type Chain = seq<seq<Tx>>

  /** What the wallet hands to the range callback: a block with its height, or the unmined transactions. */
  datatype RangeBlock = RangeBlock(height: Option<nat>, txs: seq<Tx>)

  datatype Fault = NoFault | DecodeFails | LookupFails | SaveFails

  /** What befalls one block of a pass. */
  datatype BlockEvent = BlockEvent(fault: nat -> Fault, endpointFails: bool, cancelled: bool, passedOver: bool)

  /** Where the next pass starts for a stored endpoint: six blocks below it, or at the start of the chain. */
  function StartOf(endBlock: int): (start: nat)
    ensures start <= endBlock || start == 0
    ensures endBlock - start <= MAX_REORG_BLOCKS
    ensures start == 0 || endBlock - start == 6
    ensures start == 0 <==> endBlock <= 6
  {
    if endBlock - MAX_REORG_BLOCKS < 0 then 0 else endBlock - MAX_REORG_BLOCKS
  }

  function RecordHeight(height: Option<nat>): int {
    if height.Some? then height.value else -1
  }

  predicate HasHash(txs: seq<Tx>, hash: nat) {
    exists tx :: tx in txs && tx.hash == hash
  }

  /** Transaction i is recorded at the height with its own timestamp, unless a later one has its hash. */
  ghost predicate RecordedAt(r: Records, txs: seq<Tx>, height: int, i: nat)
    requires i < |txs|
  {
    txs[i].hash in r && r[txs[i].hash].height == height
    && ((forall j | i < j < |txs| :: txs[j].hash != txs[i].hash) ==> r[txs[i].hash].timestamp == txs[i].timestamp)
  }

  /** Every transaction is recorded at the height; where hashes repeat, the last one's timestamp is. */
  ghost predicate AllRecorded(r: Records, txs: seq<Tx>, height: int) {
    forall i: nat | i < |txs| :: RecordedAt(r, txs, height, i)
  }

  /** r' is r with every transaction of txs recorded at the height, and nothing else changed. */
  ghost predicate Indexed(r: Records, r': Records, txs: seq<Tx>, height: int) {
    AllRecorded(r', txs, height) && Untouched(r, r', txs)
  }

  lemma RecordNext(r: Records, r': Records, txs: seq<Tx>, height: int, tx: Tx)
    requires Indexed(r, r', txs, height)
    ensures Indexed(r, r'[tx.hash := Record(height, tx.timestamp)], txs + [tx], height)
  {
    var r'', more := r'[tx.hash := Record(height, tx.timestamp)], txs + [tx];
    forall i: nat | i < |more| ensures RecordedAt(r'', more, height, i) {
      if i < |txs| {
        assert RecordedAt(r', txs, height, i) && more[i] == txs[i];
        assert forall j | i < j < |txs| :: more[j] == txs[j];
        assert more[|txs|] == tx;
      }
    }
    forall hash | !HasHash(more, hash) ensures (hash in r'' <==> hash in r) && (hash in r ==> r''[hash] == r[hash]) {
      assert tx in more && forall t | t in txs :: t in more;
    }
  }

  ghost predicate Untouched(r: Records, r': Records, txs: seq<Tx>) {
    forall hash | !HasHash(txs, hash) :: (hash in r' <==> hash in r) && (hash in r ==> r'[hash] == r[hash])
  }

  /** Nothing goes wrong while the block is recorded. */
  ghost predicate Clean(block: RangeBlock, ev: BlockEvent) {
    && (forall i | 0 <= i < |block.txs| :: ev.fault(i).NoFault?)
    && (block.height.Some? ==> !ev.endpointFails)
  }

  /** A pass gets past height h: the block is not handed over, or it is recorded and nobody cancels. */
  ghost predicate Passable(chain: Chain, events: nat -> BlockEvent, h: nat)
    requires h < |chain|
  {
    || (chain[h] == [] && events(h).passedOver)
    || (Clean(RangeBlock(Some(h), chain[h]), events(h)) && !events(h).cancelled)
  }

  class DB {
    var records: Records
    var endBlock: Option<int>

    constructor ()
      ensures records == map[] && endBlock == None
    {
      records := map[];
      endBlock := None;
    }

    /** The height to index from: a reorganisation's depth below the stored endpoint, or the start. */
    method ReadIndexingStartBlock() returns (start: nat)
      ensures start == StartOf(Endpoint())
      ensures endBlock.None? ==> start == 0
      ensures endBlock.Some? ==> start == if endBlock.value <= 6 then 0 else endBlock.value - 6
    {
      var height := if endBlock.Some? then endBlock.value else 0;
      height := height - MAX_REORG_BLOCKS;
      if height < 0 {
        height := 0;
      }
      return height;
    }

    function Endpoint(): int
      reads this
    {
      if endBlock.Some? then endBlock.value else 0
    }

    /** Saves a record, replacing the one with the same hash; a failing save may already have deleted it. */
    method SaveOrUpdate(hash: nat, rec: Record, fault: Fault) returns (ok: bool, overwritten: bool)
      modifies this`records
      ensures ok <==> !fault.LookupFails? && !fault.SaveFails?
      ensures ok ==> records == old(records)[hash := rec]
      ensures fault.LookupFails? ==> records == old(records) && !overwritten
      ensures fault.SaveFails? ==> records == if overwritten then old(records) - {hash} else old(records)
      ensures !fault.LookupFails? ==> (overwritten <==> hash in old(records) && old(records)[hash].timestamp > 0)
    {
      overwritten := false;
      if fault.LookupFails? {
        return false, false;
      }
      if hash in records && records[hash].timestamp > 0 {
        overwritten := true;
        records := records - {hash};
      }
      if fault.SaveFails? {
        return false, overwritten;
      }
      records := records[hash := rec];
      return true, overwritten;
    }

    method SaveLastIndexPoint(height: int, fails: bool) returns (ok: bool)
      modifies this`endBlock
      ensures ok <==> !fails
      ensures endBlock == if ok then Some(height) else old(endBlock)
    {
      if !fails {
        endBlock := Some(height);
      }
      return !fails;
    }

    /** Drops all records, then moves the endpoint to the start; the second step may fail after the first. */
    method ClearSavedTransactions(dropFails: bool, resetFails: bool) returns (ok: bool)
      modifies this
      ensures ok <==> !dropFails && !resetFails
      ensures records == if dropFails then old(records) else map[]
      ensures endBlock == if ok then Some(0) else old(endBlock)
    {
      if dropFails {
        return false;
      }
      records := map[];
      ok := SaveLastIndexPoint(0, resetFails);
    }

    /**
     The range callback: records the block's transactions under its height and then moves the endpoint
     to it; the unmined transactions do not move the endpoint. Any failure leaves the endpoint alone.
     */
    method IndexBlock(block: RangeBlock, ev: BlockEvent) returns (stop: bool, ok: bool)
      modifies this
      ensures ok <==> Clean(block, ev)
      ensures ok ==> Indexed(old(records), records, block.txs, RecordHeight(block.height))
      ensures ok ==> AllRecorded(records, block.txs, if block.height.Some? then block.height.value else -1)
      ensures Untouched(old(records), records, block.txs)
      ensures endBlock == (if ok && block.height.Some? then Some(block.height.value) else old(endBlock))
      ensures stop <==> ok && ev.cancelled
    {
      for i := 0 to |block.txs|
        invariant forall j | 0 <= j < i :: ev.fault(j).NoFault?
        invariant Indexed(old(records), records, block.txs[..i], RecordHeight(block.height))
        invariant endBlock == old(endBlock)
      {
        var tx := block.txs[i];
        assert block.txs[..i + 1] == block.txs[..i] + [tx];
        if ev.fault(i).DecodeFails? {
          return false, false;
        }
        RecordNext(old(records), records, block.txs[..i], RecordHeight(block.height), tx);
        var saved, overwritten := SaveOrUpdate(tx.hash, Record(RecordHeight(block.height), tx.timestamp), ev.fault(i));
        if !saved {
          return false, false;
        }
      }
      assert block.txs[..|block.txs|] == block.txs;
      if block.height.Some? {
        var saved := SaveLastIndexPoint(block.height.value, ev.endpointFails);
        if !saved {
          return false, false;
        }
      }
      return ev.cancelled, true;
    }

    /**
     One pass over a view of the chain, from a reorganisation's depth below the endpoint to endHeight.
     The wallet may pass over blocks without wallet transactions. However it ends, the pass has indexed
     the blocks below some height k, and the endpoint is below k or where it was.
     */
    method IndexTransactions(chain: Chain, endHeight: nat, readFails: bool, events: nat -> BlockEvent)
      returns (ok: bool, ghost k: nat)
      requires endHeight < |chain| && UniqueTxs(chain)
      modifies this
      ensures var start := StartOf(old(Endpoint()));
              && start <= k && (start < k ==> k <= endHeight + 1)
              && CoveredBetween(chain, records, start, k)
              && UntouchedBelow(chain, old(records), records, start)
              && (endBlock == old(endBlock) || start <= Endpoint() < k)
      ensures ok ==> k >= endHeight + 1
      ensures ok <==> !readFails && forall h: nat | StartOf(old(Endpoint())) <= h <= endHeight :: Passable(chain, events, h)
      ensures ok ==> forall h: nat | StartOf(old(Endpoint())) <= h <= endHeight ::
        chain[h] == [] || (!events(h).cancelled && !events(h).endpointFails)
      ensures OthersKept(chain, old(records), records, StartOf(old(Endpoint())), endHeight)
    {
      var start := ReadIndexingStartBlock();
      k := start;
      if readFails {
        return false, k;
      }
      var h := start;
      while h <= endHeight
        invariant forall g: nat | start <= g < h && g < |chain| :: Passable(chain, events, g)
        invariant start <= h && k == h && (start < k ==> k <= endHeight + 1)
        invariant CoveredBetween(chain, records, start, k)
        invariant UntouchedBelow(chain, old(records), records, start)
        invariant OthersKept(chain, old(records), records, start, endHeight)
        invariant endBlock == old(endBlock) || start <= Endpoint() < k
        decreases endHeight + 1 - h
      {
        if !(chain[h] == [] && events(h).passedOver) {
          ghost var before := records;
          var stop, done := IndexBlock(RangeBlock(Some(h), chain[h]), events(h));
          assert Passable(chain, events, h) <==> done && !stop;
          BlockKeepsCoverage(chain, before, records, start, h);
          BlockKeepsBelow(chain, old(records), before, records, start, h);
          BlockKeepsOthers(chain, old(records), before, records, start, endHeight, h);
          if !done {
            return false, k;
          }
          k := h + 1;
          if stop {
            return false, k;
          }
        }
        h := h + 1;
        k := h;
      }
      forall g: nat | start <= g <= endHeight
        ensures chain[g] == [] || (!events(g).cancelled && !events(g).endpointFails)
      {
        assert Passable(chain, events, g);
      }
      return true, k;
    }

    /** Clears the index and rebuilds it from the start. */
    method ReindexTransactions(dropFails: bool, resetFails: bool, chain: Chain, endHeight: nat, readFails: bool,
                               events: nat -> BlockEvent) returns (ok: bool)
      requires endHeight < |chain| && UniqueTxs(chain)
      modifies this
      ensures ok ==> CoveredBetween(chain, records, 0, endHeight + 1)
      ensures dropFails ==> records == old(records) && endBlock == old(endBlock)
      ensures !dropFails && resetFails ==> records == map[] && endBlock == old(endBlock)
      ensures !dropFails && !resetFails ==> forall hash | hash in records :: InBlocks(chain, 0, endHeight, hash)
      ensures ok <==> !dropFails && !resetFails && !readFails && forall h: nat | h <= endHeight :: Passable(chain, events, h)
    {
      ok := ClearSavedTransactions(dropFails, resetFails);
      if ok {
        ghost var k;
        ok, k := IndexTransactions(chain, endHeight, readFails, events);
        forall hash | hash in records ensures InBlocks(chain, 0, endHeight, hash) {
          assert KeptUnless(map[], records, hash, InBlocks(chain, 0, endHeight, hash));
        }
      }
    }
  }

  // ---------------------------------------------------------------- coverage

  /** A transaction is mined at most once in a chain. */
  ghost predicate UniqueTxs(chain: Chain) {
    forall h, g, hash | 0 <= h < |chain| && 0 <= g < |chain| && HasHash(chain[h], hash) && HasHash(chain[g], hash) :: h == g
  }

  ghost predicate CoveredAt(chain: Chain, r: Records, h: nat)
    requires h < |chain|
  {
    AllRecorded(r, chain[h], h)
  }

  /** Every wallet transaction at the heights from lo to below hi is recorded under its height, with its timestamp. */
  ghost predicate CoveredBetween(chain: Chain, r: Records, lo: nat, hi: nat) {
    forall h: nat | lo <= h < hi && h < |chain| :: CoveredAt(chain, r, h)
  }

  /** The records of transactions mined below a height are as they were. */
  ghost predicate UntouchedBelow(chain: Chain, r: Records, r': Records, lo: nat) {
    forall h: nat | h < lo && h < |chain| :: CoveredAt(chain, r, h) ==> CoveredAt(chain, r', h)
  }

  /** Some block from lo to hi has a transaction with the hash. */
  ghost predicate InBlocks(chain: Chain, lo: nat, hi: nat, hash: nat) {
    exists h: nat :: lo <= h <= hi && h < |chain| && HasHash(chain[h], hash)
  }

  /** A record whose transaction is in none of the blocks from lo to hi is neither made, changed nor removed. */
  ghost predicate OthersKept(chain: Chain, r: Records, r': Records, lo: nat, hi: nat) {
    forall hash :: KeptUnless(r, r', hash, InBlocks(chain, lo, hi, hash))
  }

  ghost predicate KeptUnless(r: Records, r': Records, hash: nat, affected: bool) {
    affected || ((hash in r' <==> hash in r) && (hash in r ==> r'[hash] == r[hash]))
  }

  lemma BlockKeepsOthers(chain: Chain, r0: Records, r: Records, r': Records, lo: nat, hi: nat, h: nat)
    requires lo <= h <= hi && h < |chain|
    requires OthersKept(chain, r0, r, lo, hi) && Untouched(r, r', chain[h])
    ensures OthersKept(chain, r0, r', lo, hi)
  {
    forall hash ensures KeptUnless(r0, r', hash, InBlocks(chain, lo, hi, hash)) {
      assert KeptUnless(r0, r, hash, InBlocks(chain, lo, hi, hash));
    }
  }

  lemma OtherBlocksUntouched(chain: Chain, r: Records, r': Records, g: nat, h: nat)
    requires g < |chain| && h < |chain| && g != h && UniqueTxs(chain)
    requires Untouched(r, r', chain[h]) && CoveredAt(chain, r, g)
    ensures CoveredAt(chain, r', g)
  {
    forall i: nat | i < |chain[g]| ensures RecordedAt(r', chain[g], g, i) {
      assert RecordedAt(r, chain[g], g, i) && chain[g][i] in chain[g];
      assert HasHash(chain[g], chain[g][i].hash);
    }
  }

  lemma BlockKeepsCoverage(chain: Chain, r: Records, r': Records, lo: nat, h: nat)
    requires lo <= h < |chain| && UniqueTxs(chain)
    requires CoveredBetween(chain, r, lo, h) && Untouched(r, r', chain[h])
    ensures CoveredBetween(chain, r', lo, h)
  {
    forall g: nat | lo <= g < h ensures CoveredAt(chain, r', g) {
      OtherBlocksUntouched(chain, r, r', g, h);
    }
  }

  lemma BlockKeepsBelow(chain: Chain, r0: Records, r: Records, r': Records, lo: nat, h: nat)
    requires lo <= h < |chain| && UniqueTxs(chain)
    requires UntouchedBelow(chain, r0, r, lo) && Untouched(r, r', chain[h])
    ensures UntouchedBelow(chain, r0, r', lo)
  {
    forall g: nat | g < lo && CoveredAt(chain, r0, g) ensures CoveredAt(chain, r', g) {
      OtherBlocksUntouched(chain, r, r', g, h);
    }
  }
}
