/**
 Handling announced transactions (spv/sync.go): hashes seen before are dropped in place, the rest are
 requested, and entries the peer did not have are dropped in place from both the transactions and the
 hashes before the remaining hashes are marked as seen.
 */
module TxInvs {
  import opened Common

  type Hash = nat

  datatype Tx = Tx(hash: Hash, body: nat)

  /** The peer's transactions; a peer that fails answers with an error other than NotExist. */
  datatype Peer = Peer(has: map<Hash, Tx>, fails: bool)

  /** A wallet's rescan point: none is left once it has scanned everything. */
  type RescanPoint = Result<Option<Hash>, ()>

  function Unseen(seen: set<Hash>): Hash -> bool {
    h => h !in seen
  }

  function Has(peer: Peer): Hash -> bool {
    h => h in peer.has
  }

  function Reply(peer: Peer, h: Hash): Option<Tx> {
    if h in peer.has then Some(peer.has[h]) else None
  }

  /** Some wallet has nothing to rescan, and no wallet before it failed to say. */
  ghost predicate Wanted(points: seq<RescanPoint>) {
    exists i :: ReadyAt(points, i)
  }

  ghost predicate ReadyAt(points: seq<RescanPoint>, i: nat) {
    && i < |points| && points[i] == Ok(None)
    && forall j | 0 <= j < i :: points[j].Ok?
  }

  /** The hashes that a call newly obtains, in announcement order. */
  function Obtained(seen: set<Hash>, hashes: seq<Hash>, peer: Peer): seq<Hash> {
    Filter(Filter(hashes, Unseen(seen)), Has(peer))
  }

  /** A hash is obtained as often as it was announced, if it is new and the peer has it; otherwise never. */
  lemma ObtainedCount(seen: set<Hash>, hashes: seq<Hash>, peer: Peer, h: Hash)
    ensures multiset(Obtained(seen, hashes, peer))[h]
         == if h !in seen && h in peer.has then multiset(hashes)[h] else 0
  {
    FilterHolds(hashes, Unseen(seen), h);
    FilterHolds(Filter(hashes, Unseen(seen)), Has(peer), h);
  }

  /** What one call obtained, no later announcement by any peer makes the syncer request again. */
  lemma NeverObtainedTwice(seen: set<Hash>, hashes: seq<Hash>, peer: Peer, later: seq<Hash>, h: Hash)
    requires h in Obtained(seen, hashes, peer)
    ensures h !in Filter(later, Unseen(seen + set k | k in Obtained(seen, hashes, peer)))
  {
    var seen' := seen + set k | k in Obtained(seen, hashes, peer);
    FilterHolds(later, Unseen(seen'), h);
    assert h !in multiset(Filter(later, Unseen(seen')));
  }

  lemma FilterOneMore<T>(s: seq<T>, i: nat, p: T -> bool)
    requires i < |s|
    ensures Filter(s[..i + 1], p) == Filter(s[..i], p) + if p(s[i]) then [s[i]] else []
  {
    assert s[..i + 1][..i] == s[..i];
  }

  /** Keeps the unseen hashes at the front of a, in order. */
  method KeepFront(a: array<Hash>, seen: set<Hash>) returns (n: nat)
    modifies a
    ensures n <= a.Length && a[..n] == Filter(old(a[..]), Unseen(seen))
  {
    ghost var was := a[..];
    n := 0;
    for i := 0 to a.Length
      invariant n <= i
      invariant a[..n] == Filter(was[..i], Unseen(seen))
      invariant forall j | i <= j < a.Length :: a[j] == was[j]
    {
      FilterOneMore(was, i, Unseen(seen));
      if a[i] !in seen {
        a[n] := a[i];
        n := n + 1;
      }
    }
    assert was[..a.Length] == was;
  }

  /** One entry for each requested hash, in order, with the missing ones left empty. */
  method Request(peer: Peer, hashes: seq<Hash>) returns (txs: array<Option<Tx>>, notFound: bool)
    ensures fresh(txs) && txs.Length == |hashes|
    ensures forall i | 0 <= i < |hashes| :: txs[i] == Reply(peer, hashes[i])
    ensures notFound <==> exists h | h in hashes :: h !in peer.has
  {
    txs := new Option<Tx>[|hashes|](i requires 0 <= i < |hashes| => Reply(peer, hashes[i]));
    notFound := exists h | h in hashes :: h !in peer.has;
  }

  /** Drops the entries the peer did not have from both arrays at once, unseen being the first m of hashes. */
  method DropMissing(ghost peer: Peer, txs: array<Option<Tx>>, hashes: array<Hash>, m: nat) returns (n: nat)
    requires txs.Length == m <= hashes.Length
    requires forall i | 0 <= i < m :: txs[i] == Reply(peer, hashes[i])
    modifies txs, hashes
    ensures n <= m && hashes[..n] == Filter(old(hashes[..m]), Has(peer))
    ensures forall i | 0 <= i < n :: hashes[i] in peer.has && txs[i] == Some(peer.has[hashes[i]])
  {
    ghost var asked, got := hashes[..m], txs[..];
    n := 0;
    for i := 0 to m
      invariant n <= i
      invariant hashes[..n] == Filter(asked[..i], Has(peer))
      invariant forall j | 0 <= j < n :: hashes[j] in peer.has && txs[j] == Some(peer.has[hashes[j]])
      invariant forall j | i <= j < m :: hashes[j] == asked[j] && txs[j] == got[j]
    {
      FilterOneMore(asked, i, Has(peer));
      if txs[i] != None {
        txs[n] := txs[i];
        hashes[n] := hashes[i];
        n := n + 1;
      }
    }
    assert asked[..m] == asked;
  }

  lemma {:induction false} FilterAll<T>(s: seq<T>, p: T -> bool)
    requires forall x | x in s :: p(x)
    ensures Filter(s, p) == s
  {
    if s != [] {
      FilterAll(s[..|s| - 1], p);
    }
  }

  method Delivered(reply: array<Option<Tx>>, n: nat) returns (txs: seq<Tx>)
    requires n <= reply.Length && forall i | 0 <= i < n :: reply[i].Some?
    ensures |txs| == n && forall i | 0 <= i < n :: txs[i] == reply[i].value
  {
    txs := [];
    for i := 0 to n
      invariant |txs| == i && forall j | 0 <= j < i :: txs[j] == reply[j].value
    {
      txs := txs + [reply[i].value];
    }
  }

  /** Requests the first n hashes and drops those the peer did not have; the transactions match what is left. */
  method Obtain(hashes: array<Hash>, n: nat, peer: Peer) returns (txs: seq<Tx>, unseen: nat)
    requires n <= hashes.Length
    modifies hashes
    ensures unseen <= n && hashes[..unseen] == Filter(old(hashes[..n]), Has(peer))
    ensures |txs| == unseen
    ensures forall i | 0 <= i < unseen :: hashes[i] in peer.has && txs[i] == peer.has[hashes[i]]
  {
    var reply, notFound := Request(peer, hashes[..n]);
    unseen := n;
    if notFound {
      unseen := DropMissing(peer, reply, hashes, n);
    } else {
      FilterAll(hashes[..n], Has(peer));
    }
    txs := Delivered(reply, unseen);
  }

  class TxRelay {
    var seenTxs: set<Hash>

    constructor ()
      ensures seenTxs == {}
    {
      seenTxs := {};
    }

    /**
     txs are the transactions passed on to the wallets: those of the hashes newly obtained, in order. The
     same hashes are marked seen, and no others. Nothing happens while every wallet needs a rescan or one
     asked too early fails, nor if the peer fails.
     */
    method HandleTxInvs(points: seq<RescanPoint>, hashes: array<Hash>, peer: Peer) returns (txs: seq<Tx>)
      modifies this, hashes
      ensures
        var obtained := Obtained(old(seenTxs), old(hashes[..]), peer);
        if Wanted(points) && !peer.fails then
          && |txs| == |obtained|
          && (forall i | 0 <= i < |txs| :: obtained[i] in peer.has && txs[i] == peer.has[obtained[i]])
          && seenTxs == old(seenTxs) + set h | h in obtained
        else txs == [] && seenTxs == old(seenTxs)
    {
      var wanted := FindReady(points);
      if !wanted {
        return [];
      }
      var n := KeepFront(hashes, seenTxs);
      if n == 0 || peer.fails {
        return [];
      }
      var unseen;
      txs, unseen := Obtain(hashes, n, peer);
      MarkSeen(hashes, unseen);
    }

    method MarkSeen(hashes: array<Hash>, n: nat)
      requires n <= hashes.Length
      modifies this
      ensures seenTxs == old(seenTxs) + set h | h in hashes[..n]
    {
      for i := 0 to n
        invariant seenTxs == old(seenTxs) + set h | h in hashes[..i]
      {
        assert hashes[..i + 1] == hashes[..i] + [hashes[i]];
        seenTxs := seenTxs + {hashes[i]};
      }
    }
  }

  method FindReady(points: seq<RescanPoint>) returns (wanted: bool)
    ensures wanted <==> Wanted(points)
  {
    for i := 0 to |points|
      invariant forall j | 0 <= j < i :: points[j].Ok? && points[j] != Ok(None)
    {
      if points[i].Err? {
        return false;
      }
      if points[i].value == None {
        assert ReadyAt(points, i);
        return true;
      }
    }
    return false;
  }
}
