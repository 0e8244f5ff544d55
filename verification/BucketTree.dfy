/**
 The tree of nested buckets that clients of the store think in, and its faithful encoding as flat keys
 (badgerdb/bucket.go, badgerdb/db.go).
 */
module BucketTree {
  import opened Common
  import opened Lex
  import opened Buckets

  /** A place in the tree: the name of a top-level bucket, then the keys leading down. */
  type Path = seq<Bytes>

  /** The contents of every bucket, by path. */
  type Tree = map<Path, map<Bytes, Slot>>

  /** The flat key of a place: its names, concatenated. */
  function Flat(p: Path): Bytes {
    if |p| == 0 then [] else Flat(p[..|p| - 1]) + p[|p| - 1]
  }

  function Parent(q: Path): Path
    requires |q| > 0
  {
    q[..|q| - 1]
  }

  function Last(q: Path): Bytes
    requires |q| > 0
  {
    q[|q| - 1]
  }

  /** The tree has something at q: a top-level bucket, or an entry of a bucket. */
  predicate Owns(t: Tree, q: Path) {
    if |q| == 0 then false
    else if |q| == 1 then q in t
    else Parent(q) in t && Last(q) in t[Parent(q)]
  }

  /** A bucket is named where it hangs, and its prefix fits in the length byte. */
  ghost predicate BucketOk(t: Tree, p: Path) {
    p in t ==>
      && Owns(t, p) && |Flat(p)| <= 255
      && (if |p| == 1 then p[0] != [] else t[Parent(p)][Last(p)] == SubBucket)
  }

  /** Keys are not empty, and an entry that names a nested bucket has one. */
  ghost predicate EntryOk(t: Tree, p: Path, k: Bytes) {
    p in t && k in t[p] ==> k != [] && (t[p][k] == SubBucket ==> p + [k] in t)
  }

  ghost predicate Collide(t: Tree, q: Path, r: Path) {
    Owns(t, q) && Owns(t, r) && Flat(q) == Flat(r)
  }

  /** The domain on which the encoding is claimed: no two places of the tree have the same flat key. */
  ghost predicate Good(t: Tree) {
    && (forall p :: BucketOk(t, p))
    && (forall p, k :: EntryOk(t, p, k))
    && (forall q, r :: Collide(t, q, r) ==> q == r)
  }

  function EntryOf(t: Tree, q: Path): Entry
    requires Owns(t, q)
  {
    if |q| == 1 then Entry(META_BUCKET, InsertPrefixLength([], |Flat(q)|))
    else match t[Parent(q)][Last(q)]
         case SubBucket => Entry(META_BUCKET, InsertPrefixLength([], |Flat(Parent(q))|))
         case Value(v) => Entry(0, InsertPrefixLength(v, |Flat(Parent(q))|))
  }

  ghost predicate EncodedAt(d: Data, t: Tree, q: Path) {
    Owns(t, q) ==> Flat(q) in d && d[Flat(q)] == EntryOf(t, q)
  }

  ghost predicate Accounted(d: Data, t: Tree, k: Bytes) {
    k in d ==> exists q :: Owns(t, q) && Flat(q) == k
  }

  /** The store holds exactly the entries of the tree, under their flat keys. */
  ghost predicate Encodes(d: Data, t: Tree) {
    (forall q :: EncodedAt(d, t, q)) && (forall k :: Accounted(d, t, k))
  }

  lemma {:induction false} FlatStep(p: Path, k: Bytes)
    ensures Flat(p + [k]) == Flat(p) + k && Parent(p + [k]) == p && Last(p + [k]) == k
  {
    assert (p + [k])[..|p|] == p;
  }

  lemma {:induction false} FlatParent(q: Path)
    requires |q| > 0
    ensures Flat(Parent(q)) <= Flat(q) && q == Parent(q) + [Last(q)]
  {
    assert Flat(q) == Flat(Parent(q)) + Last(q);
  }

  lemma {:induction false} ParentOwned(t: Tree, q: Path)
    requires Good(t) && Owns(t, q) && |q| > 1
    ensures Owns(t, Parent(q)) && |Flat(Parent(q))| <= 255
    ensures Flat(Parent(q)) <= Flat(q) && q == Parent(q) + [Last(q)] && Last(q) != []
  {
    FlatParent(q);
    assert BucketOk(t, Parent(q)) && EntryOk(t, Parent(q), Last(q));
  }

  lemma {:induction false} TopOwned(t: Tree, q: Path)
    requires Good(t) && Owns(t, q) && |q| == 1
    ensures Flat(q) == q[0] && 0 < |q[0]| <= 255
  {
    assert BucketOk(t, q);
    assert Flat(q) == Flat(q[..0]) + q[0];
  }

  lemma {:induction false} EncodedIsWellFormed(d: Data, t: Tree)
    requires Good(t) && Encodes(d, t)
    ensures WellFormed(d)
  {
    forall k | k in d ensures |d[k].value| > 0 && d[k].value[0] <= |k| {
      assert Accounted(d, t, k);
      var q :| Owns(t, q) && Flat(q) == k;
      assert EncodedAt(d, t, q);
      if |q| > 1 {
        ParentOwned(t, q);
      } else {
        TopOwned(t, q);
      }
    }
  }

  /** Decoding undoes encoding, entry by entry. */
  lemma {:induction false} OwnEntryDecodes(d: Data, t: Tree, p: Path, k: Bytes)
    requires Good(t) && Encodes(d, t) && WellFormed(d) && p in t && k in t[p]
    ensures Lists(d, Flat(p), Item(k, t[p][k]))
  {
    FlatStep(p, k);
    assert BucketOk(t, p);
    assert Owns(t, p + [k]);
    assert EntryOk(t, p, k) && EncodedAt(d, t, p + [k]);
    var f := Flat(p) + k;
    assert d[f] == EntryOf(t, p + [k]);
    assert d[f].value[0] == |Flat(p)|;
    assert d[f].meta == 0 ==> d[f].value[1..] == t[p][k].bytes;
  }

  /** An entry that passes the ownership test for a bucket's prefix is an entry of that bucket. */
  lemma {:induction false} OwnTestIsExact(d: Data, t: Tree, p: Path, it: Item)
    requires Good(t) && Encodes(d, t) && WellFormed(d) && p in t && Lists(d, Flat(p), it)
    ensures it.key in t[p]
  {
    var f := Flat(p) + it.key;
    OwnSplits(d, Flat(p), f);
    assert Accounted(d, t, f);
    var q :| Owns(t, q) && Flat(q) == f;
    RecordedPrefix(d, t, q);
    if |q| > 1 {
      ParentOwned(t, q);
      FlatParent(q);
      SameBucket(t, Parent(q), p, Flat(q));
    }
  }

  /** The stored length byte tells which bucket an entry is in; a top-level record's is its own length. */
  lemma {:induction false} RecordedPrefix(d: Data, t: Tree, q: Path)
    requires Good(t) && Encodes(d, t) && WellFormed(d) && Owns(t, q)
    ensures Flat(q) in d
    ensures d[Flat(q)].value[0] == if |q| == 1 then |Flat(q)| else |Flat(Parent(q))|
  {
    assert EncodedAt(d, t, q);
    if |q| == 1 {
      TopOwned(t, q);
    } else {
      ParentOwned(t, q);
    }
  }

  /** Two buckets whose prefixes are equally long prefixes of one key are the same. */
  lemma {:induction false} SameBucket(t: Tree, p: Path, r: Path, f: Bytes)
    requires Good(t) && p in t && r in t && Flat(p) <= f && Flat(r) <= f && |Flat(p)| == |Flat(r)|
    ensures p == r
  {
    assert BucketOk(t, p) && BucketOk(t, r);
    assert Flat(p) == f[..|Flat(p)|] == Flat(r);
    assert Collide(t, p, r);
  }

  /** Enumerating a bucket of an encoded tree gives exactly the bucket's contents. */
  lemma {:induction false} EnumerationGivesContents(d: Data, t: Tree, p: Path)
    requires Good(t) && Encodes(d, t) && p in t
    ensures WellFormed(d)
    ensures forall it :: Lists(d, Flat(p), it) <==> it.key in t[p] && it.slot == t[p][it.key]
  {
    EncodedIsWellFormed(d, t);
    forall it ensures Lists(d, Flat(p), it) <==> it.key in t[p] && it.slot == t[p][it.key] {
      if Lists(d, Flat(p), it) {
        OwnTestIsExact(d, t, p, it);
      }
      if it.key in t[p] {
        OwnEntryDecodes(d, t, p, it.key);
      }
    }
  }

  /** A path that can be walked: from the top-level names down through entries enumeration shows as buckets. */
  ghost predicate Walkable(d: Data, tops: set<Bytes>, p: Path)
    requires WellFormed(d)
  {
    if |p| == 0 then false
    else if |p| == 1 then p[0] in tops && OpenTop(d, p[0]) == Some(Flat(p))
    else
      && Walkable(d, tops, Parent(p))
      && Lists(d, Flat(Parent(p)), Item(Last(p), SubBucket))
      && OpenNested(d, Flat(Parent(p)), Last(p)) == Some(Flat(p))
  }

  ghost function TopNames(t: Tree): set<Bytes> {
    set p | p in t && |p| == 1 :: p[0]
  }

  lemma {:induction false} WalkFindsBuckets(d: Data, t: Tree, p: Path)
    requires Good(t) && Encodes(d, t) && WellFormed(d)
    ensures Walkable(d, TopNames(t), p) <==> p in t
  {
    assert BucketOk(t, p);
    if |p| == 1 {
      if p[0] in TopNames(t) {
        var q :| q in t && |q| == 1 && q[0] == p[0];
        assert q == p;
        TopOwned(t, p);
        assert EncodedAt(d, t, p);
      }
    } else if |p| > 1 {
      WalkFindsBuckets(d, t, Parent(p));
      assert p == Parent(p) + [Last(p)];
      if Parent(p) in t {
        EnumerationGivesContents(d, t, Parent(p));
        assert EntryOk(t, Parent(p), Last(p)) && EncodedAt(d, t, p);
      }
    }
  }

  /** Enumeration shows exactly what the tree has at p. */
  ghost predicate ShowsContents(d: Data, t: Tree, p: Path)
    requires WellFormed(d)
  {
    p in t ==> forall it :: Lists(d, Flat(p), it) <==> it.key in t[p] && it.slot == t[p][it.key]
  }

  /** Walking d with enumeration and nested lookup meets exactly the buckets of t, with their contents. */
  ghost predicate WalksTo(d: Data, t: Tree) {
    && WellFormed(d)
    && (forall p :: Walkable(d, TopNames(t), p) <==> p in t)
    && forall p :: ShowsContents(d, t, p)
  }

  lemma {:induction false} WalkGivesTree(d: Data, t: Tree)
    requires Good(t) && Encodes(d, t)
    ensures WalksTo(d, t)
  {
    EncodedIsWellFormed(d, t);
    forall p ensures Walkable(d, TopNames(t), p) <==> p in t {
      WalkFindsBuckets(d, t, p);
    }
    forall p ensures ShowsContents(d, t, p) {
      if p in t {
        EnumerationGivesContents(d, t, p);
      }
    }
  }

  // ---------------------------------------------------------------- operations

  datatype Op =
    | CreateTop(name: Bytes)
    | Create(path: Path, key: Bytes)
    | Put(path: Path, key: Bytes, value: Bytes)
    | Delete(path: Path, key: Bytes)

  /** What an operation means for the tree. */
  function TreeStep(t: Tree, op: Op): Tree {
    match op
    case CreateTop(name) => if [name] in t then t else t[[name] := map[]]
    case Create(p, k) =>
      if p !in t || k in t[p] then t else t[p := t[p][k := SubBucket]][p + [k] := map[]]
    case Put(p, k, v) => if p !in t then t else t[p := t[p][k := Value(v)]]
    case Delete(p, k) => if p !in t then t else t[p := t[p] - {k}]
  }

  /** What the same operation does to the store, through the handle of the bucket at its path. */
  function StoreStep(d: Data, op: Op): Data {
    match op
    case CreateTop(name) => CreateTopFlat(d, name)
    case Create(p, k) => CreateFlat(d, Flat(p), k)
    case Put(p, k, v) => PutFlat(d, Flat(p), k, v)
    case Delete(p, k) => DeleteFlat(d, Flat(p), k)
  }

  /** The place an operation acts on. */
  function Target(op: Op): Path {
    match op
    case CreateTop(name) => [name]
    case Create(p, k) => p + [k]
    case Put(p, k, _) => p + [k]
    case Delete(p, k) => p + [k]
  }

  /** No other place of the tree has the flat key of q. */
  ghost predicate FreeFlat(t: Tree, q: Path) {
    forall r :: Owns(t, r) && Flat(r) == Flat(q) ==> r == q
  }

  /**
   The domain of an operation: its bucket exists, its key is acceptable and collides with no other
   place, a new bucket's prefix fits in a byte, and puts and deletes do not name nested buckets.
   */
  ghost predicate InDomain(t: Tree, op: Op) {
    && FreeFlat(t, Target(op))
    && match op
       case CreateTop(name) => 0 < |name| <= 255
       case Create(p, k) =>
         p in t && 0 < |k| <= MAX_KEY_SIZE && |Flat(p)| + |k| <= 255 && (k in t[p] ==> t[p][k] == SubBucket)
       case Put(p, k, _) => p in t && 0 < |k| <= MAX_KEY_SIZE && (k in t[p] ==> t[p][k] != SubBucket)
       case Delete(p, k) => p in t && 0 < |k| <= MAX_KEY_SIZE && (k in t[p] ==> t[p][k] != SubBucket)
  }

  /** t' has what t has, and q as well; nothing but q changes its entry. */
  ghost predicate Adds(t: Tree, t': Tree, q: Path) {
    && Owns(t', q)
    && forall r :: OwnedAlike(t, t', q, r)
  }

  ghost predicate OwnedAlike(t: Tree, t': Tree, q: Path, r: Path) {
    r != q ==> (Owns(t', r) <==> Owns(t, r)) && (Owns(t, r) ==> EntryOf(t', r) == EntryOf(t, r))
  }

  lemma {:induction false} AddingEncodes(d: Data, t: Tree, t': Tree, q: Path)
    requires Encodes(d, t) && Adds(t, t', q) && FreeFlat(t, q)
    ensures Encodes(d[Flat(q) := EntryOf(t', q)], t')
  {
    var d' := d[Flat(q) := EntryOf(t', q)];
    forall r ensures EncodedAt(d', t', r) {
      assert OwnedAlike(t, t', q, r) && EncodedAt(d, t, r);
    }
    forall k ensures Accounted(d', t', k) {
      assert Accounted(d, t, k);
      if k in d && k != Flat(q) {
        var r :| Owns(t, r) && Flat(r) == k;
        assert OwnedAlike(t, t', q, r);
      }
    }
  }

  lemma {:induction false} AddingKeepsApart(t: Tree, t': Tree, q: Path)
    requires Good(t) && Adds(t, t', q) && FreeFlat(t, q)
    ensures forall r, s :: Collide(t', r, s) ==> r == s
  {
    forall r, s | Collide(t', r, s) ensures r == s {
      assert OwnedAlike(t, t', q, r) && OwnedAlike(t, t', q, s);
      if r != q && s != q {
        assert Collide(t, r, s);
      }
    }
  }

  lemma {:induction false} PutAdds(t: Tree, p: Path, k: Bytes, v: Bytes)
    requires Good(t) && p in t
    ensures Adds(t, TreeStep(t, Put(p, k, v)), p + [k])
  {
    var t', q := TreeStep(t, Put(p, k, v)), p + [k];
    FlatStep(p, k);
    assert BucketOk(t, p);
    forall r ensures OwnedAlike(t, t', q, r) {
      if |r| > 1 && r != q && Parent(r) == p {
        FlatParent(r);
      }
    }
  }

  lemma {:induction false} PutKeepsGood(t: Tree, p: Path, k: Bytes, v: Bytes)
    requires Good(t) && InDomain(t, Put(p, k, v))
    ensures Good(TreeStep(t, Put(p, k, v)))
  {
    var t', q := TreeStep(t, Put(p, k, v)), p + [k];
    FlatStep(p, k);
    PutAdds(t, p, k, v);
    AddingKeepsApart(t, t', q);
    forall r ensures BucketOk(t', r) {
      assert BucketOk(t, r) && OwnedAlike(t, t', q, r);
    }
    forall r, j ensures EntryOk(t', r, j) {
      assert EntryOk(t, r, j);
    }
  }

  lemma {:induction false} PutSimulates(d: Data, t: Tree, p: Path, k: Bytes, v: Bytes)
    requires Good(t) && Encodes(d, t) && InDomain(t, Put(p, k, v))
    ensures Good(TreeStep(t, Put(p, k, v))) && Encodes(PutFlat(d, Flat(p), k, v), TreeStep(t, Put(p, k, v)))
  {
    FlatStep(p, k);
    assert BucketOk(t, p);
    PutAdds(t, p, k, v);
    PutKeepsGood(t, p, k, v);
    AddingEncodes(d, t, TreeStep(t, Put(p, k, v)), p + [k]);
  }

  lemma {:induction false} CreateAdds(t: Tree, p: Path, k: Bytes)
    requires Good(t) && p in t && k !in t[p]
    ensures Adds(t, TreeStep(t, Create(p, k)), p + [k])
  {
    var t', q := TreeStep(t, Create(p, k)), p + [k];
    FlatStep(p, k);
    assert BucketOk(t, p) && BucketOk(t, q);
    forall r ensures OwnedAlike(t, t', q, r) {
      if |r| > 1 && r != q && Parent(r) == p {
        assert r == p + [Last(r)];
      }
    }
  }

  lemma {:induction false} CreateKeepsGood(t: Tree, p: Path, k: Bytes)
    requires Good(t) && InDomain(t, Create(p, k)) && k !in t[p]
    ensures Good(TreeStep(t, Create(p, k)))
  {
    var t', q := TreeStep(t, Create(p, k)), p + [k];
    FlatStep(p, k);
    CreateAdds(t, p, k);
    AddingKeepsApart(t, t', q);
    assert BucketOk(t, p);
    forall r ensures BucketOk(t', r) {
      assert BucketOk(t, r) && OwnedAlike(t, t', q, r);
    }
    forall r, j ensures EntryOk(t', r, j) {
      assert EntryOk(t, r, j);
    }
  }

  lemma {:induction false} CreateSimulates(d: Data, t: Tree, p: Path, k: Bytes)
    requires Good(t) && Encodes(d, t) && InDomain(t, Create(p, k))
    ensures Good(TreeStep(t, Create(p, k))) && Encodes(CreateFlat(d, Flat(p), k), TreeStep(t, Create(p, k)))
  {
    var q := p + [k];
    FlatStep(p, k);
    assert BucketOk(t, p) && EncodedAt(d, t, q);
    if k !in t[p] {
      NewTarget(d, t, q);
      CreateAdds(t, p, k);
      CreateKeepsGood(t, p, k);
      AddingEncodes(d, t, TreeStep(t, Create(p, k)), q);
    }
  }

  lemma {:induction false} NewTarget(d: Data, t: Tree, q: Path)
    requires Encodes(d, t) && !Owns(t, q) && FreeFlat(t, q)
    ensures Flat(q) !in d
  {
    assert Accounted(d, t, Flat(q));
  }

  lemma {:induction false} CreateTopSimulates(d: Data, t: Tree, name: Bytes)
    requires Good(t) && Encodes(d, t) && InDomain(t, CreateTop(name))
    ensures Good(TreeStep(t, CreateTop(name))) && Encodes(CreateTopFlat(d, name), TreeStep(t, CreateTop(name)))
  {
    var t', q := TreeStep(t, CreateTop(name)), [name];
    FlatStep([], name);
    assert [] + [name] == q && Flat([]) + name == name;
    assert EncodedAt(d, t, q);
    if q !in t {
      NewTarget(d, t, q);
      forall r ensures OwnedAlike(t, t', q, r) {
        if |r| > 1 && Parent(r) == q {
          assert BucketOk(t, q);
        }
      }
      AddingEncodes(d, t, t', q);
      AddingKeepsApart(t, t', q);
      forall r ensures BucketOk(t', r) {
        assert BucketOk(t, r) && OwnedAlike(t, t', q, r);
      }
      forall r, j ensures EntryOk(t', r, j) {
        assert EntryOk(t, r, j);
      }
    }
  }

  lemma {:induction false} DeleteRemoves(t: Tree, p: Path, k: Bytes)
    requires Good(t) && p in t
    ensures var t' := TreeStep(t, Delete(p, k));
            !Owns(t', p + [k]) && forall r :: OwnedAlike(t, t', p + [k], r)
  {
    var t', q := TreeStep(t, Delete(p, k)), p + [k];
    FlatStep(p, k);
    assert BucketOk(t, p);
    forall r ensures OwnedAlike(t, t', q, r) {
      if |r| > 1 && r != q && Parent(r) == p {
        assert r == p + [Last(r)];
      }
    }
  }

  lemma {:induction false} DeleteKeepsGood(t: Tree, p: Path, k: Bytes)
    requires Good(t) && InDomain(t, Delete(p, k))
    ensures Good(TreeStep(t, Delete(p, k)))
  {
    var t', q := TreeStep(t, Delete(p, k)), p + [k];
    FlatStep(p, k);
    DeleteRemoves(t, p, k);
    forall r ensures BucketOk(t', r) {
      assert BucketOk(t, r) && OwnedAlike(t, t', q, r);
    }
    forall r, j ensures EntryOk(t', r, j) {
      assert EntryOk(t, r, j);
    }
    forall r, s | Collide(t', r, s) ensures r == s {
      assert OwnedAlike(t, t', q, r) && OwnedAlike(t, t', q, s);
      assert Collide(t, r, s);
    }
  }

  lemma {:induction false} DeleteSimulates(d: Data, t: Tree, p: Path, k: Bytes)
    requires Good(t) && Encodes(d, t) && InDomain(t, Delete(p, k))
    ensures Good(TreeStep(t, Delete(p, k))) && Encodes(DeleteFlat(d, Flat(p), k), TreeStep(t, Delete(p, k)))
  {
    var t', d', q := TreeStep(t, Delete(p, k)), DeleteFlat(d, Flat(p), k), p + [k];
    FlatStep(p, k);
    DeleteRemoves(t, p, k);
    DeleteKeepsGood(t, p, k);
    forall r ensures EncodedAt(d', t', r) {
      assert OwnedAlike(t, t', q, r) && EncodedAt(d, t, r);
    }
    forall j ensures Accounted(d', t', j) {
      assert Accounted(d, t, j);
      if j in d' {
        var r :| Owns(t, r) && Flat(r) == j;
        assert OwnedAlike(t, t', q, r);
      }
    }
  }

  /** Every operation in the domain acts on the store as it acts on the tree. */
  lemma {:induction false} StepSimulates(d: Data, t: Tree, op: Op)
    requires Good(t) && Encodes(d, t) && InDomain(t, op)
    ensures Good(TreeStep(t, op)) && Encodes(StoreStep(d, op), TreeStep(t, op))
  {
    match op
    case CreateTop(name) => CreateTopSimulates(d, t, name);
    case Create(p, k) => CreateSimulates(d, t, p, k);
    case Put(p, k, v) => PutSimulates(d, t, p, k, v);
    case Delete(p, k) => DeleteSimulates(d, t, p, k);
  }

  // ---------------------------------------------------------------- runs

  function RunTree(ops: seq<Op>): Tree {
    if |ops| == 0 then map[] else TreeStep(RunTree(ops[..|ops| - 1]), ops[|ops| - 1])
  }

  function RunStore(ops: seq<Op>): Data {
    if |ops| == 0 then map[] else StoreStep(RunStore(ops[..|ops| - 1]), ops[|ops| - 1])
  }

  ghost predicate RunInDomain(ops: seq<Op>) {
    forall i | 0 <= i < |ops| :: InDomain(RunTree(ops[..i]), ops[i])
  }

  lemma {:induction false} DomainOfFront(ops: seq<Op>)
    requires RunInDomain(ops) && |ops| > 0
    ensures RunInDomain(ops[..|ops| - 1]) && InDomain(RunTree(ops[..|ops| - 1]), ops[|ops| - 1])
  {
    var front := ops[..|ops| - 1];
    forall i | 0 <= i < |front| ensures InDomain(RunTree(front[..i]), front[i]) {
      assert front[..i] == ops[..i];
    }
  }

  lemma {:induction false} EmptyEncodes()
    ensures Good(map[]) && Encodes(map[], map[])
  {
    var t: Tree := map[];
    assert forall q :: !Owns(t, q);
  }

  lemma {:induction false} RunEncodes(ops: seq<Op>)
    requires RunInDomain(ops)
    ensures Good(RunTree(ops)) && Encodes(RunStore(ops), RunTree(ops))
  {
    if |ops| == 0 {
      EmptyEncodes();
    } else {
      var front, last := ops[..|ops| - 1], ops[|ops| - 1];
      DomainOfFront(ops);
      RunEncodes(front);
      var d, t := RunStore(front), RunTree(front);
      StepSimulates(d, t, last);
      assert RunStore(ops) == StoreStep(d, last) && RunTree(ops) == TreeStep(t, last);
    }
  }

  /** However a tree is built by operations in the domain, walking the store gives it back. */
  lemma {:induction false} BuildThenWalk(ops: seq<Op>)
    requires RunInDomain(ops)
    ensures WalksTo(RunStore(ops), RunTree(ops))
  {
    RunEncodes(ops);
    WalkGivesTree(RunStore(ops), RunTree(ops));
  }

  lemma {:induction false} StepIsLocal(t: Tree, op: Op, p: Path)
    requires Good(t) && p in t && p != Parent(Target(op))
    ensures p in TreeStep(t, op) && TreeStep(t, op)[p] == t[p]
  {
    if !op.CreateTop? {
      FlatStep(op.path, op.key);
      assert BucketOk(t, op.path);
    }
    assert BucketOk(t, p);
  }

  /** An operation changes what enumeration shows of its own bucket only. */
  lemma {:induction false} OtherBucketsUnchanged(d: Data, t: Tree, op: Op, p: Path, it: Item)
    requires Good(t) && Encodes(d, t) && InDomain(t, op) && p in t && p != Parent(Target(op))
    ensures WellFormed(d) && WellFormed(StoreStep(d, op))
    ensures Lists(StoreStep(d, op), Flat(p), it) <==> Lists(d, Flat(p), it)
  {
    StepSimulates(d, t, op);
    EnumerationGivesContents(d, t, p);
    StepIsLocal(t, op, p);
    EnumerationGivesContents(StoreStep(d, op), TreeStep(t, op), p);
  }

  // ---------------------------------------------------------------- lookups, and where the domain ends

  /** What a lookup should find: the value, or an empty value for a nested bucket. */
  function Lookup(t: Tree, p: Path, k: Bytes): Option<Bytes>
    requires p in t
  {
    if k !in t[p] then None
    else match t[p][k]
         case Value(v) => Some(v)
         case SubBucket => Some([])
  }

  /** A lookup finds what the bucket holds exactly when no other place has the flat key. */
  lemma {:induction false} GetIsLookupExactly(d: Data, t: Tree, p: Path, k: Bytes)
    requires Good(t) && Encodes(d, t) && p in t && 0 < |k| <= MAX_KEY_SIZE
    ensures WellFormed(d)
    ensures GetFlat(d, Flat(p), k) == Lookup(t, p, k) <==> FreeFlat(t, p + [k])
  {
    EncodedIsWellFormed(d, t);
    FlatStep(p, k);
    var q := p + [k];
    assert BucketOk(t, p) && EncodedAt(d, t, q) && Accounted(d, t, Flat(q));
    if k in t[p] {
      assert Owns(t, q);
      forall r | Owns(t, r) && Flat(r) == Flat(q) ensures r == q {
        assert Collide(t, r, q);
      }
      assert d[Flat(q)].value[1..] == match t[p][k] case Value(v) => v case SubBucket => [];
    } else {
      assert !Owns(t, q);
      if !FreeFlat(t, q) {
        var r :| Owns(t, r) && Flat(r) == Flat(q) && r != q;
        assert EncodedAt(d, t, r);
      }
    }
  }

  /** No bucket of the tree but one at q has the flat key of q. */
  ghost predicate NoOtherBucket(t: Tree, q: Path) {
    forall r | r in t && Flat(r) == Flat(q) :: r == q
  }

  /** The store has a bucket record at a flat key exactly if some bucket of the tree has that flat key. */
  lemma {:induction false} RecordMeansBucket(d: Data, t: Tree, f: Bytes)
    requires Good(t) && Encodes(d, t)
    ensures f in d && d[f].meta == META_BUCKET <==> exists r :: r in t && Flat(r) == f
  {
    if f in d && d[f].meta == META_BUCKET {
      assert Accounted(d, t, f);
      var q :| Owns(t, q) && Flat(q) == f;
      assert EncodedAt(d, t, q);
      if |q| > 1 {
        FlatParent(q);
        assert EntryOk(t, Parent(q), Last(q));
      }
      assert q in t;
    }
    if r :| r in t && Flat(r) == f {
      assert BucketOk(t, r) && EncodedAt(d, t, r);
    }
  }

  /** A good tree has one bucket at most for a flat key. */
  lemma {:induction false} OneBucketPerKey(t: Tree, q: Path)
    requires Good(t) && q in t
    ensures NoOtherBucket(t, q)
  {
    forall r | r in t && Flat(r) == Flat(q) ensures r == q {
      assert BucketOk(t, r) && BucketOk(t, q);
      assert Collide(t, r, q);
    }
  }

  /** A nested lookup gives a handle just for an existing bucket exactly when no other bucket has its flat key. */
  lemma {:induction false} OpenNestedExactly(d: Data, t: Tree, p: Path, k: Bytes)
    requires Good(t) && Encodes(d, t) && p in t && 0 < |k| <= MAX_KEY_SIZE
    ensures OpenNested(d, Flat(p), k) == (if p + [k] in t then Some(Flat(p + [k])) else None) <==> NoOtherBucket(t, p + [k])
  {
    FlatStep(p, k);
    var f := Flat(p) + k;
    assert f != [];
    RecordMeansBucket(d, t, f);
    if p + [k] in t {
      OneBucketPerKey(t, p + [k]);
    }
  }

  /** The same for top-level buckets, which a nested one may have the flat key of. */
  lemma {:induction false} OpenTopExactly(d: Data, t: Tree, name: Bytes)
    requires Good(t) && Encodes(d, t) && name != []
    ensures OpenTop(d, name) == (if [name] in t then Some(name) else None) <==> NoOtherBucket(t, [name])
  {
    FlatStep([], name);
    assert [] + [name] == [name] && Flat([]) + name == name;
    RecordMeansBucket(d, t, name);
    if [name] in t {
      OneBucketPerKey(t, [name]);
    }
  }

  /** In the domain of a lookup, where no other place has the flat key, a handle means the bucket exists. */
  lemma {:induction false} HandleMeansBucket(d: Data, t: Tree, p: Path, k: Bytes)
    requires Good(t) && Encodes(d, t) && p in t && 0 < |k| <= MAX_KEY_SIZE && FreeFlat(t, p + [k])
    ensures OpenNested(d, Flat(p), k).Some? <==> p + [k] in t
  {
    forall r | r in t && Flat(r) == Flat(p + [k]) ensures r == p + [k] {
      assert BucketOk(t, r);
    }
    OpenNestedExactly(d, t, p, k);
  }

  /** A flat key and the length of the prefix determine the place. */
  lemma {:induction false} PlaceByLength(t: Tree, p: Path, k: Bytes, r: Path)
    requires Good(t) && p in t && Owns(t, r) && |r| > 1 && Flat(r) == Flat(p + [k])
    ensures |Flat(Parent(r))| == |Flat(p)| ==> r == p + [k]
  {
    FlatStep(p, k);
    ParentOwned(t, r);
    FlatParent(r);
    FlatStep(Parent(r), Last(r));
    if |Flat(Parent(r))| == |Flat(p)| {
      SameBucket(t, Parent(r), p, Flat(r));
      assert Last(r) == Flat(r)[|Flat(p)|..] == k;
    }
  }

  /** The entries that two places of the tree with one flat key need differ in the bucket flag or the length byte. */
  lemma {:induction false} CollidingEntriesDiffer(t: Tree, p: Path, k: Bytes, v: Bytes, r: Path)
    requires Good(t) && p in t && Owns(t, r) && r != p + [k] && Flat(r) == Flat(p + [k])
    ensures EntryOf(t, r) != Entry(0, InsertPrefixLength(v, |Flat(p)|))
  {
    FlatStep(p, k);
    assert BucketOk(t, p);
    if |r| > 1 && t[Parent(r)][Last(r)] != SubBucket {
      ParentOwned(t, r);
      assert |Flat(Parent(r))| != |Flat(p)| by {
        PlaceByLength(t, p, k, r);
      }
      assert InsertPrefixLength(v, |Flat(p)|)[0] == |Flat(p)|;
    }
  }

  /** A put leaves every other place of the tree its entry exactly when no other place has the flat key. */
  lemma {:induction false} PutSparesOthersExactly(d: Data, t: Tree, p: Path, k: Bytes, v: Bytes)
    requires Good(t) && Encodes(d, t) && p in t
    ensures (forall r :: r != p + [k] ==> EncodedAt(PutFlat(d, Flat(p), k, v), t, r)) <==> FreeFlat(t, p + [k])
  {
    var q, d' := p + [k], PutFlat(d, Flat(p), k, v);
    FlatStep(p, k);
    forall r | r != q && Owns(t, r)
      ensures EncodedAt(d', t, r) <==> Flat(r) != Flat(q)
    {
      assert EncodedAt(d, t, r);
      if Flat(r) == Flat(q) {
        CollidingEntriesDiffer(t, p, k, v, r);
      }
    }
    if FreeFlat(t, q) {
      forall r | r != q ensures EncodedAt(d', t, r) {
      }
    }
    if forall r :: r != q ==> EncodedAt(d', t, r) {
      forall r | Owns(t, r) && Flat(r) == Flat(q) ensures r == q {
        assert r != q ==> EncodedAt(d', t, r);
      }
    }
  }

  lemma {:induction false} ListedAs(d: Data, prefix: Bytes, k: Bytes, v: Bytes, n: byte)
    requires WellFormed(d) && k != [] && prefix + k in d && d[prefix + k] == Entry(0, [n] + v)
    ensures Lists(d, prefix, Item(k, Value(v))) <==> n == |prefix|
  {
    var f := prefix + k;
    if n == |prefix| {
      assert f[..n] == prefix && f[n..] == k && ([n] + v)[1..] == v;
    }
  }

  lemma {:induction false} FitsByte(n: nat)
    ensures n % 256 == n <==> n <= 255
  {
  }

  /** Enumeration sees what was just put exactly when the bucket's prefix fits in the length byte. */
  lemma {:induction false} PutIsListedExactly(d: Data, prefix: Bytes, k: Bytes, v: Bytes)
    requires WellFormed(d) && k != []
    ensures WellFormed(PutFlat(d, prefix, k, v))
    ensures Lists(PutFlat(d, prefix, k, v), prefix, Item(k, Value(v))) <==> |prefix| <= 255
  {
    SetKeepsWellFormed(d, prefix + k, 0, v, |prefix|);
    var n: byte := |prefix| % 256;
    FitsByte(|prefix|);
    var d' := PutFlat(d, prefix, k, v);
    assert d'[prefix + k] == Entry(0, [n] + v);
    ListedAs(d', prefix, k, v, n);
  }

  // ---------------------------------------------------------------- inputs outside the domain

  lemma {:induction false} OnlyOwned(t: Tree, name: Bytes, r: Path)
    requires t == map[[name] := map[]] && Owns(t, r)
    ensures r == [name]
  {
  }

  /** Two top-level buckets, named 1 and 12; the second has the flat key of the entry 2 of the first. */
  lemma {:induction false} TwoTops() returns (d: Data, t: Tree)
    ensures Good(t) && Encodes(d, t)
    ensures t == map[[[1]] := map[], [[1, 2]] := map[]]
    ensures Owns(t, [[1, 2]]) && Flat([[1, 2]]) == Flat([[1]] + [[2]]) == [1, 2] && Flat([[1]]) == [1]
  {
    FlatStep([], [1]);
    FlatStep([], [1, 2]);
    assert [] + [[1]] == [[1]] && [] + [[1, 2]] == [[1, 2]] && Flat([]) == [];
    FlatStep([[1]], [2]);
    EmptyEncodes();
    var none: Tree := map[];
    assert InDomain(none, CreateTop([1]));
    StepSimulates(map[], none, CreateTop([1]));
    var one := TreeStep(none, CreateTop([1]));
    forall r | Owns(one, r) ensures Flat(r) != Flat([[1, 2]]) {
      OnlyOwned(one, [1], r);
    }
    assert InDomain(one, CreateTop([1, 2]));
    d, t := StoreStep(StoreStep(map[], CreateTop([1])), CreateTop([1, 2])), TreeStep(one, CreateTop([1, 2]));
    StepSimulates(StoreStep(map[], CreateTop([1])), one, CreateTop([1, 2]));
  }

  /** A put that overwrites another bucket's record, and a lookup that finds it instead of nothing. */
  lemma {:induction false} CollidingKeys() returns (d: Data, t: Tree)
    ensures Good(t) && Encodes(d, t) && [[1]] in t && [[1, 2]] in t
    ensures EncodedAt(d, t, [[1, 2]]) && !EncodedAt(PutFlat(d, Flat([[1]]), [2], []), t, [[1, 2]])
    ensures WellFormed(d) && GetFlat(d, Flat([[1]]), [2]) != Lookup(t, [[1]], [2])
    ensures OpenNested(d, Flat([[1]]), [2]).Some? && [[1]] + [[2]] !in t
  {
    d, t := TwoTops();
    assert [[1]] + [[2]] != [[1, 2]];
    assert !FreeFlat(t, [[1]] + [[2]]);
    CollidingEntriesDiffer(t, [[1]], [2], [], [[1, 2]]);
    assert EncodedAt(d, t, [[1, 2]]);
    GetIsLookupExactly(d, t, [[1]], [2]);
    RecordMeansBucket(d, t, [1, 2]);
  }

  /** With a prefix of 256 bytes the length byte is 0, and what is put is not listed. */
  lemma {:induction false} LongPrefixHides(prefix: Bytes)
    requires |prefix| == 256
    ensures var d := PutFlat(map[], prefix, [1], []);
            WellFormed(d) && !Lists(d, prefix, Item([1], Value([])))
  {
    PutIsListedExactly(map[], prefix, [1], []);
  }
}
