/**
 Answering a peer's getdata request (spv/sync.go): every wallet is asked for the hashes not answered yet,
 and answered hashes are removed from the slice that is being ranged over.
 */
module GetData {
  import opened Common
  import opened SliceRemoval

  datatype Tx = Tx(hash: Hash, body: nat)

  /** The bodies of a wallet's transactions, by hash; a wallet that fails gives an error other than NotExist. */
  datatype Wallet = Wallet(known: map<Hash, nat>, fails: bool)

  datatype Answer = Answer(found: seq<Tx>, notFound: seq<Hash>) | LookupFailed(wallet: nat) | Panicked

  /** Removes h while ranging over the first len elements of a, as the slice stood before the loop. */
  method RemoveFound(a: array<Hash>, len: nat, h: Hash) returns (r: Option<nat>)
    requires len <= a.Length
    modifies a
    ensures r.Some? ==> r.value <= len
    ensures Sweep(old(a[..len]), 0, len, h) == if r.Some? then Some(a[..r.value]) else None
  {
    var m: nat := len;
    for index := 0 to len
      invariant m <= len
      invariant Sweep(a[..len], index, m, h) == Sweep(old(a[..len]), 0, len, h)
    {
      if a[index] == h {
        if m < index + 1 {
          return None;
        }
        ghost var s := a[..len];
        forall j | index <= j < m - 1 {
          a[j] := a[j + 1];
        }
        assert a[..len] == s[..index] + s[index + 1..m] + s[m - 1..];
        m := m - 1;
      }
    }
    assert a[..len][..m] == a[..m];
    return Some(m);
  }

  function HashesOf(txs: seq<Tx>): seq<Hash> {
    seq(|txs|, i requires 0 <= i < |txs| => txs[i].hash)
  }

  /** The hashes some of the first n wallets knows. */
  ghost function KnownTo(wallets: seq<Wallet>, n: nat): set<Hash>
    requires n <= |wallets|
  {
    set i, h | 0 <= i < n && h in wallets[i].known :: h
  }

  /** tx is wallet i's, and no earlier wallet knows its hash. */
  ghost predicate FirstHolder(wallets: seq<Wallet>, tx: Tx, i: nat) {
    && i < |wallets| && tx.hash in wallets[i].known && wallets[i].known[tx.hash] == tx.body
    && tx.hash !in KnownTo(wallets, i)
  }

  /** tx is the one of the first wallet that knows its hash. */
  ghost predicate FirstHeld(wallets: seq<Wallet>, tx: Tx) {
    exists i :: FirstHolder(wallets, tx, i)
  }

  /** One removal loop for each transaction found. */
  method RemoveAnswered(a: array<Hash>, len: nat, found: seq<Tx>) returns (r: Option<nat>)
    requires len <= a.Length
    modifies a
    ensures r.Some? ==> r.value <= len
    ensures SweepAll(old(a[..len]), HashesOf(found)) == if r.Some? then Some(a[..r.value]) else None
  {
    var m: nat := len;
    ghost var hs := HashesOf(found);
    for k := 0 to |found|
      invariant m <= len
      invariant SweepAll(a[..m], hs[k..]) == SweepAll(old(a[..len]), hs)
    {
      assert hs[k..][0] == found[k].hash && hs[k..][1..] == hs[k + 1..];
      var left := RemoveFound(a, m, found[k].hash);
      if left.None? {
        return None;
      }
      m := left.value;
    }
    return Some(m);
  }

  /**
   What a wallet answers: each requested transaction it has, once if it is requested once. Only where a hash
   is requested more than once does the order count: the answers are then in the order of the request.
   */
  ghost predicate Lookup(w: Wallet, hashes: seq<Hash>, found: seq<Tx>) {
    && (forall tx | tx in found :: tx.hash in hashes && tx.hash in w.known && w.known[tx.hash] == tx.body)
    && (forall h | h in hashes && h in w.known :: exists tx | tx in found :: tx.hash == h)
    && (if Distinct(hashes) then Distinct(HashesOf(found)) else HashesOf(found) == Filter(hashes, In(w.known.Keys)))
  }

  method AskWallet(w: Wallet, hashes: seq<Hash>) returns (r: Result<seq<Tx>, ()>)
    ensures r.Err? <==> w.fails
    ensures r.Ok? ==> Lookup(w, hashes, r.value)
  {
    if w.fails {
      return Err(());
    }
    var found: seq<Tx> := [];
    for i := 0 to |hashes|
      invariant HashesOf(found) == Filter(hashes[..i], In(w.known.Keys))
      invariant forall tx | tx in found :: tx.hash in w.known && w.known[tx.hash] == tx.body
    {
      assert hashes[..i + 1][..i] == hashes[..i];
      if hashes[i] in w.known {
        found := found + [Tx(hashes[i], w.known[hashes[i]])];
      }
    }
    assert hashes[..|hashes|] == hashes;
    InOrderIsLookup(w, hashes, found);
    return Ok(found);
  }

  lemma InOrderIsLookup(w: Wallet, hashes: seq<Hash>, found: seq<Tx>)
    requires HashesOf(found) == Filter(hashes, In(w.known.Keys))
    requires forall tx | tx in found :: tx.hash in w.known && w.known[tx.hash] == tx.body
    ensures Lookup(w, hashes, found)
  {
    var hs := HashesOf(found);
    forall h ensures multiset(hs)[h] == if h in w.known then multiset(hashes)[h] else 0 {
      FilterHolds(hashes, In(w.known.Keys), h);
    }
    forall tx | tx in found ensures tx.hash in hashes {
      var i :| 0 <= i < |found| && found[i] == tx;
      assert hs[i] in multiset(hs);
      assert hs[i] in multiset(hashes);
    }
    forall h | h in hashes && h in w.known ensures exists tx | tx in found :: tx.hash == h {
      assert h in multiset(hashes);
      assert h in multiset(hs);
      var i :| 0 <= i < |hs| && hs[i] == h;
      assert found[i] in found;
    }
    if Distinct(hashes) {
      DistinctFilter(hashes, In(w.known.Keys));
    }
  }

  lemma {:induction false} DistinctFilter(s: seq<Hash>, p: Hash -> bool)
    requires Distinct(s)
    ensures Distinct(Filter(s, p))
  {
    if s != [] {
      var init, last := s[..|s| - 1], s[|s| - 1];
      DistinctFilter(init, p);
      FilterHolds(init, p, last);
      assert last !in multiset(init);
      assert last !in multiset(Filter(init, p));
    }
  }

  /** Each hash is among the found or the left ones as often as it was asked for. */
  lemma FoundOrLeft(w: Wallet, hashes: seq<Hash>, found: seq<Tx>, h: Hash)
    requires Lookup(w, hashes, found)
    ensures multiset(HashesOf(found))[h] == if h in w.known then multiset(hashes)[h] else 0
  {
    if Distinct(hashes) {
      DistinctCounts(HashesOf(found), h);
      DistinctCounts(hashes, h);
      FoundHashes(w, hashes, found, h);
    } else {
      FilterHolds(hashes, In(w.known.Keys), h);
    }
  }

  lemma FoundHashes(w: Wallet, hashes: seq<Hash>, found: seq<Tx>, h: Hash)
    requires Lookup(w, hashes, found)
    ensures h in HashesOf(found) <==> h in hashes && h in w.known
    ensures h in HashesOf(found) <==> h in set tx | tx in found :: tx.hash
  {
    var hs := HashesOf(found);
    if h in hs {
      var i :| 0 <= i < |hs| && hs[i] == h;
      assert found[i] in found;
    }
    if tx :| tx in found && tx.hash == h {
      var i :| 0 <= i < |found| && found[i] == tx;
      assert hs[i] == h;
    }
  }

  /** The answered hashes and those outside the answer make up the request, each as often as requested. */
  lemma FoundAndLeft(w: Wallet, hashes: seq<Hash>, found: seq<Tx>)
    requires Lookup(w, hashes, found)
    ensures multiset(HashesOf(found)) + multiset(Outside(hashes, set tx | tx in found :: tx.hash)) == multiset(hashes)
  {
    var answered := set tx | tx in found :: tx.hash;
    forall h: Hash
      ensures multiset(HashesOf(found))[h] + multiset(Outside(hashes, answered))[h] == multiset(hashes)[h]
    {
      FoundOrLeft(w, hashes, found, h);
      FoundHashes(w, hashes, found, h);
      FilterHolds(hashes, NotIn(answered), h);
      assert h in hashes <==> h in multiset(hashes);
    }
  }

  /** The wallet knows the last hash still requested, and it is requested more than once. */
  predicate Trapped(w: Wallet, left: seq<Hash>) {
    left != [] && left[|left| - 1] in w.known && left[|left| - 1] in left[..|left| - 1]
  }

  /** A turn panics exactly if the wallet is trapped, and else leaves exactly what it did not answer. */
  lemma TurnExactly(w: Wallet, left: seq<Hash>, found: seq<Tx>)
    requires Lookup(w, left, found)
    ensures SweepAll(left, HashesOf(found))
         == if Trapped(w, left) then None else Some(Outside(left, set tx | tx in found :: tx.hash))
  {
    var answered := set tx | tx in found :: tx.hash;
    forall h ensures h in SetOf(HashesOf(found)) <==> h in answered {
      FoundHashes(w, left, found, h);
    }
    assert SetOf(HashesOf(found)) == answered;
    if Distinct(left) {
      RemovingDistinct(left, HashesOf(found));
    } else {
      RemovingKnownExactly(left, w.known.Keys);
      forall h | h in left ensures h in w.known.Keys <==> h in answered {
        FoundHashes(w, left, found, h);
      }
      OutsideAgree(left, w.known.Keys, answered);
    }
  }

  lemma NextWallet(wallets: seq<Wallet>, i: nat, request: seq<Hash>, found: seq<Tx>)
    requires i < |wallets| && Lookup(wallets[i], Outside(request, KnownTo(wallets, i)), found)
    ensures Outside(Outside(request, KnownTo(wallets, i)), set tx | tx in found :: tx.hash)
         == Outside(request, KnownTo(wallets, i + 1))
    ensures forall tx | tx in found :: FirstHolder(wallets, tx, i)
  {
    var known, answered := KnownTo(wallets, i), set tx | tx in found :: tx.hash;
    FilterTwice(request, known, answered);
    forall h ensures h in Outside(request, known) <==> h in request && h !in known {
      OutsideHolds(request, known, h);
    }
    assert KnownTo(wallets, i + 1) == known + (set h | h in wallets[i].known);
    OutsideAgree(request, known + answered, KnownTo(wallets, i + 1));
  }

  /** The lookup has got past the first n wallets: what is found, and what is left of the request. */
  ghost predicate Progress(wallets: seq<Wallet>, request: seq<Hash>, n: nat, found: seq<Tx>, left: seq<Hash>) {
    && n <= |wallets| && left == Outside(request, KnownTo(wallets, n))
    && multiset(HashesOf(found)) + multiset(left) == multiset(request)
    && forall tx | tx in found :: FirstHeld(wallets, tx)
  }

  /**
   The reply that a request must get. Every hash is answered as often as it was requested: with the
   transaction of the first wallet that knows it, or as not found if none does. Only a wallet that is still
   asked for something can fail the request.
   */
  ghost predicate Conserved(wallets: seq<Wallet>, request: seq<Hash>, r: Answer) {
    match r
    case Answer(found, notFound) =>
      && Progress(wallets, request, |wallets|, found, notFound)
      && forall i: nat | i < |wallets| && wallets[i].fails :: Outside(request, KnownTo(wallets, i)) == []
    case LookupFailed(i) =>
      && i < |wallets| && wallets[i].fails && (forall j | 0 <= j < i :: !wallets[j].fails)
      && Outside(request, KnownTo(wallets, i)) != []
    case Panicked => false
  }

  lemma HoldersNext(wallets: seq<Wallet>, i: nat, before: seq<Tx>, found: seq<Tx>)
    requires forall tx | tx in before :: FirstHeld(wallets, tx)
    requires forall tx | tx in found :: FirstHolder(wallets, tx, i)
    ensures forall tx | tx in before + found :: FirstHeld(wallets, tx)
  {
  }

  lemma ProgressExtends(wallets: seq<Wallet>, request: seq<Hash>, i: nat, before: seq<Tx>, left: seq<Hash>,
                        found: seq<Tx>, rest: seq<Hash>)
    requires i < |wallets| && Progress(wallets, request, i, before, left)
    requires rest == Outside(request, KnownTo(wallets, i + 1))
    requires multiset(HashesOf(found)) + multiset(rest) == multiset(left)
    requires forall tx | tx in found :: FirstHolder(wallets, tx, i)
    ensures Progress(wallets, request, i + 1, before + found, rest)
  {
    assert HashesOf(before + found) == HashesOf(before) + HashesOf(found);
    HoldersNext(wallets, i, before, found);
  }

  lemma ProgressNext(wallets: seq<Wallet>, request: seq<Hash>, i: nat, before: seq<Tx>, left: seq<Hash>,
                     found: seq<Tx>, rest: seq<Hash>)
    requires i < |wallets| && Progress(wallets, request, i, before, left)
    requires Lookup(wallets[i], left, found)
    requires rest == Outside(left, set tx | tx in found :: tx.hash)
    ensures Progress(wallets, request, i + 1, before + found, rest)
  {
    FoundAndLeft(wallets[i], left, found);
    NextWallet(wallets, i, request, found);
    ProgressExtends(wallets, request, i, before, left, found, rest);
  }

  /** Once everything is answered, later wallets have nothing left to answer. */
  lemma {:induction false} NothingLeft(wallets: seq<Wallet>, request: seq<Hash>, i: nat, n: nat)
    requires i <= n <= |wallets| && Outside(request, KnownTo(wallets, i)) == []
    ensures Outside(request, KnownTo(wallets, n)) == []
  {
    if h :| h in Outside(request, KnownTo(wallets, n)) {
      OutsideHolds(request, KnownTo(wallets, n), h);
      OutsideHolds(request, KnownTo(wallets, i), h);
      assert false;
    }
    EmptyOrHasElement(Outside(request, KnownTo(wallets, n)));
  }

  lemma ProgressEnds(wallets: seq<Wallet>, request: seq<Hash>, n: nat, found: seq<Tx>, left: seq<Hash>)
    requires Progress(wallets, request, n, found, left) && forall j | 0 <= j < n :: !wallets[j].fails
    requires n == |wallets| || left == []
    ensures Conserved(wallets, request, Answer(found, left))
  {
    if left == [] {
      forall i: nat | n <= i <= |wallets| ensures Outside(request, KnownTo(wallets, i)) == [] {
        NothingLeft(wallets, request, n, i);
      }
    }
  }

  /** Wallet i is trapped by what is still requested at its turn. */
  ghost predicate TrappedAt(wallets: seq<Wallet>, request: seq<Hash>, i: nat)
    requires i < |wallets|
  {
    Trapped(wallets[i], Outside(request, KnownTo(wallets, i)))
  }

  ghost predicate StillAsked(wallets: seq<Wallet>, request: seq<Hash>, i: nat)
    requires i < |wallets|
  {
    Outside(request, KnownTo(wallets, i)) != []
  }

  /** Wallet i gets its turn, no wallet having failed by then, and is trapped. */
  ghost predicate TrapAt(wallets: seq<Wallet>, request: seq<Hash>, i: nat) {
    && i < |wallets| && TrappedAt(wallets, request, i)
    && forall j | 0 <= j <= i :: !wallets[j].fails
  }

  ghost predicate PassedBy(wallets: seq<Wallet>, request: seq<Hash>, j: nat) {
    j < |wallets| && !wallets[j].fails && !TrappedAt(wallets, request, j)
  }

  /** One wallet's turn: its answer is taken over and removed from what is still requested. */
  datatype Turn = Taken(found: seq<Tx>, left: nat) | Failed | SlicePanic

  /** The first n wallets had their turns, untrapped and not failing, and this is how far the lookup has got. */
  ghost predicate Reached(wallets: seq<Wallet>, request: seq<Hash>, n: nat, found: seq<Tx>, left: seq<Hash>) {
    Progress(wallets, request, n, found, left) && forall j: nat | j < n :: PassedBy(wallets, request, j)
  }

  method TakeTurn(ghost wallets: seq<Wallet>, ghost request: seq<Hash>, ghost i: nat, w: Wallet,
                  a: array<Hash>, len: nat, before: seq<Tx>) returns (r: Turn)
    requires i < |wallets| && w == wallets[i] && len <= a.Length
    requires Reached(wallets, request, i, before, a[..len])
    modifies a
    ensures r.Failed? <==> w.fails
    ensures r.Failed? && len > 0 ==> StillAsked(wallets, request, i)
    ensures r.SlicePanic? ==> !w.fails && TrappedAt(wallets, request, i)
    ensures r.Taken? ==> r.left <= len && Reached(wallets, request, i + 1, r.found, a[..r.left])
  {
    var answer := AskWallet(w, a[..len]);
    if answer.Err? {
      return Failed;
    }
    ghost var left := a[..len];
    TurnExactly(w, left, answer.value);
    var rest := RemoveAnswered(a, len, answer.value);
    if rest.None? {
      return SlicePanic;
    }
    ProgressNext(wallets, request, i, before, left, answer.value, a[..rest.value]);
    return Taken(before + answer.value, rest.value);
  }

  lemma ProgressStarts(wallets: seq<Wallet>, request: seq<Hash>)
    ensures Progress(wallets, request, 0, [], request)
  {
    assert KnownTo(wallets, 0) == {};
    OutsideNone(request);
    assert HashesOf([]) == [];
  }

  /** How far the wallets were asked, and why asking stopped. */
  datatype Stage = Done(found: seq<Tx>, left: nat) | FailedAt(wallet: nat) | PanickedAt(wallet: nat)

  /** Asks the wallets in turn until nothing is left, or one fails; n of them were done with. */
  method AskWallets(wallets: seq<Wallet>, txHashes: array<Hash>, ghost request: seq<Hash>)
    returns (r: Stage, ghost n: nat)
    requires txHashes[..] == request
    modifies txHashes
    ensures n <= |wallets| && exists found, left :: Reached(wallets, request, n, found, left)
    ensures r.Done? ==> r.left <= txHashes.Length && (n == |wallets| || r.left == 0)
    ensures r.Done? ==> Reached(wallets, request, n, r.found, txHashes[..r.left])
    ensures r.FailedAt? ==> r.wallet == n < |wallets| && wallets[n].fails && StillAsked(wallets, request, n)
    ensures r.PanickedAt? ==> n < |wallets| && !wallets[n].fails && TrappedAt(wallets, request, n)
  {
    var left: nat, found: seq<Tx> := txHashes.Length, [];
    ghost var rest := request;
    ProgressStarts(wallets, request);
    n := 0;
    for i := 0 to |wallets|
      invariant n == i && left <= txHashes.Length && rest == txHashes[..left]
      invariant Reached(wallets, request, i, found, rest)
    {
      if left == 0 {
        return Done(found, left), n;
      }
      var turn := TakeTurn(wallets, request, i, wallets[i], txHashes, left, found);
      if turn.Failed? {
        return FailedAt(i), n;
      }
      if turn.SlicePanic? {
        return PanickedAt(i), n;
      }
      found, left := turn.found, turn.left;
      rest := txHashes[..left];
      n := n + 1;
    }
    return Done(found, left), n;
  }

  /** No turn is trapped if none was until nothing is left, or until a wallet fails. */
  lemma NeverTrapped(wallets: seq<Wallet>, request: seq<Hash>, n: nat, i: nat)
    requires n <= |wallets| && forall j: nat | j < n :: PassedBy(wallets, request, j)
    requires Outside(request, KnownTo(wallets, n)) == [] || n == |wallets| || wallets[n].fails
    ensures !TrapAt(wallets, request, i)
  {
    if i < n {
      assert PassedBy(wallets, request, i);
    } else if i < |wallets| && Outside(request, KnownTo(wallets, n)) == [] {
      NothingLeft(wallets, request, n, i);
    }
  }

  lemma FirstTrap(wallets: seq<Wallet>, request: seq<Hash>, n: nat)
    requires n < |wallets| && forall j: nat | j < n :: PassedBy(wallets, request, j)
    requires !wallets[n].fails && TrappedAt(wallets, request, n)
    ensures TrapAt(wallets, request, n)
  {
    forall j: nat | j < n ensures !wallets[j].fails {
      assert PassedBy(wallets, request, j);
    }
  }

  lemma PassedNeverFailed(wallets: seq<Wallet>, request: seq<Hash>, n: nat)
    requires n <= |wallets| && forall j: nat | j < n :: PassedBy(wallets, request, j)
    ensures forall j | 0 <= j < n :: !wallets[j].fails
  {
    forall j: nat | j < n ensures !wallets[j].fails {
      assert PassedBy(wallets, request, j);
    }
  }

  /** A request without duplicates traps no wallet. */
  lemma DistinctNeverTrapped(wallets: seq<Wallet>, request: seq<Hash>, i: nat)
    requires Distinct(request)
    ensures !TrapAt(wallets, request, i)
  {
    if i < |wallets| {
      DistinctOutside(request, KnownTo(wallets, i));
    }
  }

  /**
   Any request is answered as it must be if and only if no wallet is trapped at its turn; if one is, the
   lookup panics.
   */
  method GetTransactionsByHashes(wallets: seq<Wallet>, txHashes: array<Hash>) returns (r: Answer)
    modifies txHashes
    ensures Conserved(wallets, old(txHashes[..]), r) <==> !r.Panicked?
    ensures r.Panicked? <==> exists i: nat :: TrapAt(wallets, old(txHashes[..]), i)
    ensures Distinct(old(txHashes[..])) ==> Conserved(wallets, old(txHashes[..]), r)
  {
    ghost var request := txHashes[..];
    ghost var n;
    var stage;
    stage, n := AskWallets(wallets, txHashes, request);
    ghost var f, l :| Reached(wallets, request, n, f, l);
    PassedNeverFailed(wallets, request, n);
    if stage.PanickedAt? {
      FirstTrap(wallets, request, n);
      if Distinct(request) {
        DistinctNeverTrapped(wallets, request, n);
      }
      return Panicked;
    }
    if stage.FailedAt? {
      forall i: nat ensures !TrapAt(wallets, request, i) {
        NeverTrapped(wallets, request, n, i);
      }
      return LookupFailed(stage.wallet);
    }
    var notFound := Remaining(txHashes, stage.left);
    ProgressEnds(wallets, request, n, stage.found, notFound);
    forall i: nat ensures !TrapAt(wallets, request, i) {
      NeverTrapped(wallets, request, n, i);
    }
    return Answer(stage.found, notFound);
  }

  /** What is left of the request is not found. */
  method Remaining(txHashes: array<Hash>, left: nat) returns (notFound: seq<Hash>)
    requires left <= txHashes.Length
    ensures notFound == txHashes[..left]
  {
    notFound := [];
    for k := 0 to left
      invariant notFound == txHashes[..k]
    {
      notFound := notFound + [txHashes[k]];
    }
  }

  /** Duplicates alone do not trap: the last hash must be a known duplicate. */
  lemma TwoRequests(h: Hash, other: Hash, body: nat)
    requires h != other
    ensures TrapAt([Wallet(map[h := body], false)], [h, h], 0)
    ensures forall i: nat :: !TrapAt([Wallet(map[h := body], false)], [h, h, other], i)
  {
    var wallets := [Wallet(map[h := body], false)];
    assert KnownTo(wallets, 0) == {};
    OutsideNone([h, h]);
    OutsideNone([h, h, other]);
    assert [h, h][..1] == [h];
  }
}
