/**
 Nested buckets over one flat ordered store (badgerdb/bucket.go, badgerdb/db.go). A bucket is its key
 prefix; every stored value starts with one byte that records the length of the prefix its key was
 stored under, truncated to a byte.
 */
module Buckets {
  import opened Common
  import opened Lex

  const MAX_KEY_SIZE: nat := 65378

  const META_BUCKET: byte := 5

  datatype Entry = Entry(meta: byte, value: Bytes)

  type Data = map<Bytes, Entry>

  datatype Slot = Value(bytes: Bytes) | SubBucket

  /** What enumeration reports: a key within the bucket, with its value unless it names a bucket. */
  datatype Item = Item(key: Bytes, slot: Slot)

  datatype Error = Invalid | Exist

  // ---------------------------------------------------------------- encoding

  function InsertPrefixLength(val: Bytes, length: nat): Bytes {
    [length % 256] + val
  }

  /** A bucket's record holds its length byte and nothing else. */
  lemma BareRecord(length: nat)
    ensures InsertPrefixLength([], length) == [length % 256]
  {
    assert [length % 256] + [] == [length % 256];
  }

  function AddPrefix(prefix: Bytes, key: Bytes): (r: Result<Bytes, Error>)
    ensures r.Err? <==> |key| > 65378
    ensures r.Ok? ==> prefix <= r.value && r.value[|prefix|..] == key
  {
    if |key| > MAX_KEY_SIZE then Err(Invalid) else Ok(prefix + key)
  }

  /** Every value has its length byte, and the recorded prefix fits in the key. */
  predicate WellFormed(d: Data) {
    forall k | k in d :: |d[k].value| > 0 && d[k].value[0] <= |k|
  }

  /** The test by which enumeration tells a bucket's own entries from those of deeper buckets. */
  predicate IsOwn(d: Data, prefix: Bytes, k: Bytes)
    requires WellFormed(d) && k in d
  {
    prefix <= k && k != prefix && k[..d[k].value[0]] == prefix
  }

  function ItemAt(d: Data, k: Bytes): Item
    requires WellFormed(d) && k in d
  {
    var n := d[k].value[0];
    Item(k[n..], if d[k].meta == META_BUCKET then SubBucket else Value(d[k].value[1..]))
  }

  /** The own entries of a bucket among some keys, in the order of the keys. */
  function Pick(d: Data, prefix: Bytes, keys: seq<Bytes>): (r: seq<Item>)
    requires WellFormed(d) && forall k | k in keys :: k in d
    ensures |r| <= |keys|
  {
    if |keys| == 0 then []
    else
      var k := keys[|keys| - 1];
      Pick(d, prefix, keys[..|keys| - 1]) + (if IsOwn(d, prefix, k) then [ItemAt(d, k)] else [])
  }

  /** A bucket as enumeration sees it: its keys and what they hold. */
  ghost predicate Lists(d: Data, prefix: Bytes, it: Item)
    requires WellFormed(d)
  {
    var k := prefix + it.key;
    k in d && IsOwn(d, prefix, k) && it == ItemAt(d, k)
  }

  /** The listing of a bucket: strictly ascending keys, and exactly the bucket's own entries. */
  ghost predicate IsListing(d: Data, prefix: Bytes, items: seq<Item>)
    requires WellFormed(d)
  {
    KeysAscend(items) && forall it :: it in items <==> Lists(d, prefix, it)
  }

  ghost predicate AllKeys(d: Data, keys: seq<Bytes>) {
    Ascending(keys) && forall k :: k in keys <==> k in d
  }

  ghost predicate KeysIn(d: Data, keys: seq<Bytes>) {
    forall k | k in keys :: k in d
  }

  lemma OwnSplits(d: Data, prefix: Bytes, k: Bytes)
    requires WellFormed(d) && k in d && IsOwn(d, prefix, k)
    ensures d[k].value[0] == |prefix| && k == prefix + ItemAt(d, k).key && ItemAt(d, k).key != []
  {
  }

  lemma {:induction false} PickHolds(d: Data, prefix: Bytes, keys: seq<Bytes>, it: Item)
    requires WellFormed(d) && forall k | k in keys :: k in d
    ensures it in Pick(d, prefix, keys) <==> prefix + it.key in keys && Lists(d, prefix, it)
  {
    if |keys| > 0 {
      var front, k := keys[..|keys| - 1], keys[|keys| - 1];
      PickHolds(d, prefix, front, it);
      assert keys == front + [k];
      if IsOwn(d, prefix, k) {
        OwnSplits(d, prefix, k);
      }
    }
  }

  ghost predicate KeysAscend(items: seq<Item>) {
    forall i, j | 0 <= i < j < |items| :: Less(items[i].key, items[j].key)
  }

  lemma {:induction false} PickAscends(d: Data, prefix: Bytes, keys: seq<Bytes>)
    requires WellFormed(d) && Ascending(keys) && forall k | k in keys :: k in d
    ensures KeysAscend(Pick(d, prefix, keys))
  {
    if |keys| > 0 {
      var front, k := keys[..|keys| - 1], keys[|keys| - 1];
      PickAscends(d, prefix, front);
      var items := Pick(d, prefix, front);
      if IsOwn(d, prefix, k) {
        OwnSplits(d, prefix, k);
        forall i | 0 <= i < |items| ensures Less(items[i].key, ItemAt(d, k).key) {
          PickHolds(d, prefix, front, items[i]);
          BelowLast(keys, prefix + items[i].key);
          CommonPrefix(prefix, items[i].key, ItemAt(d, k).key);
        }
      }
    }
  }

  lemma BelowLast(keys: seq<Bytes>, k: Bytes)
    requires Ascending(keys) && |keys| > 0 && k in keys[..|keys| - 1]
    ensures Less(k, keys[|keys| - 1])
  {
  }

  lemma PickLists(d: Data, prefix: Bytes, keys: seq<Bytes>)
    requires WellFormed(d) && Ascending(keys) && forall k | k in keys :: k in d
    ensures var items := Pick(d, prefix, keys);
            KeysAscend(items) && forall it :: it in items <==> prefix + it.key in keys && Lists(d, prefix, it)
  {
    PickAscends(d, prefix, keys);
    forall it ensures it in Pick(d, prefix, keys) <==> prefix + it.key in keys && Lists(d, prefix, it) {
      PickHolds(d, prefix, keys, it);
    }
  }

  /** Picking from all keys in order gives the listing. */
  lemma PickAllIsListing(d: Data, prefix: Bytes, keys: seq<Bytes>)
    requires WellFormed(d) && AllKeys(d, keys)
    ensures IsListing(d, prefix, Pick(d, prefix, keys))
  {
    PickLists(d, prefix, keys);
  }

  /** A bucket has only one listing. */
  lemma ListingUnique(d: Data, prefix: Bytes, a: seq<Item>, b: seq<Item>)
    requires WellFormed(d) && IsListing(d, prefix, a) && IsListing(d, prefix, b)
    ensures a == b
  {
    var ka, kb := KeysOf(a), KeysOf(b);
    SameItemsSameKeys(a, b);
    SameItemsSameKeys(b, a);
    AscendingUnique(ka, kb);
    assert |ka| == |kb|;
    forall i | 0 <= i < |a| ensures a[i] == b[i] {
      assert ka[i] == kb[i];
      assert a[i] in a && b[i] in b;
      assert Lists(d, prefix, a[i]) && Lists(d, prefix, b[i]);
    }
  }

  function KeysOf(items: seq<Item>): seq<Bytes> {
    seq(|items|, i requires 0 <= i < |items| => items[i].key)
  }

  lemma SameItemsSameKeys(a: seq<Item>, b: seq<Item>)
    requires forall it :: it in a ==> it in b
    ensures forall k :: k in KeysOf(a) ==> k in KeysOf(b)
  {
    forall k | k in KeysOf(a) ensures k in KeysOf(b) {
      var i :| 0 <= i < |a| && a[i].key == k;
      assert a[i] in b;
      var j :| 0 <= j < |b| && b[j] == a[i];
      assert KeysOf(b)[j] == k;
    }
  }

  lemma {:induction false} NoneOwnNonePicked(d: Data, prefix: Bytes, keys: seq<Bytes>, from: nat)
    requires WellFormed(d) && from <= |keys| && forall k | k in keys :: k in d
    requires forall i | from <= i < |keys| :: !IsOwn(d, prefix, keys[i])
    ensures Pick(d, prefix, keys) == Pick(d, prefix, keys[..from])
    decreases |keys|
  {
    if from < |keys| {
      var front := keys[..|keys| - 1];
      NoneOwnNonePicked(d, prefix, front, from);
      assert front[..from] == keys[..from];
    } else {
      assert keys[..from] == keys;
    }
  }

  /** Before the seek position there is nothing of the bucket. */
  lemma NothingBefore(d: Data, prefix: Bytes, keys: seq<Bytes>, from: nat)
    requires WellFormed(d) && from <= |keys| && forall k | k in keys :: k in d
    requires forall i | 0 <= i < from :: Less(keys[i], prefix)
    ensures Pick(d, prefix, keys[..from]) == []
  {
    forall i | 0 <= i < from ensures !IsOwn(d, prefix, keys[..from][i]) {
      if prefix <= keys[i] {
        PrefixFirst(prefix, keys[i]);
      }
    }
    NoneOwnNonePicked(d, prefix, keys[..from], 0);
    assert keys[..from][..0] == [];
  }

  /** From the first key without the prefix on there is nothing of the bucket. */
  lemma NothingAfter(d: Data, prefix: Bytes, keys: seq<Bytes>, at: nat)
    requires WellFormed(d) && Ascending(keys) && at <= |keys| && forall k | k in keys :: k in d
    requires at < |keys| ==> AtOrAbove(keys[at], prefix) && !(prefix <= keys[at])
    ensures Pick(d, prefix, keys) == Pick(d, prefix, keys[..at])
  {
    forall i | at <= i < |keys| ensures !IsOwn(d, prefix, keys[i]) {
      if i > at && prefix <= keys[i] {
        PrefixConvex(prefix, keys[at], keys[i]);
      }
    }
    NoneOwnNonePicked(d, prefix, keys, at);
  }

  /** The keys of the store in order, as an iterator visits them. */
  method SortedKeys(d: Data) returns (keys: seq<Bytes>)
    ensures AllKeys(d, keys)
  {
    keys := [];
    var rest := d.Keys;
    while rest != {}
      invariant Ascending(keys)
      invariant forall k :: k in keys <==> k in d && k !in rest
      invariant rest <= d.Keys
      invariant forall k, x | k in keys && x in rest :: Less(k, x)
      decreases rest
    {
      ghost var least := HasLeast(rest);
      assert least in rest && forall x | x in rest :: AtOrAbove(x, least);
      var m :| m in rest && forall x | x in rest :: AtOrAbove(x, m);
      forall x | x in rest && x != m ensures Less(m, x) {
        assert AtOrAbove(x, m);
        Total(m, x);
      }
      keys := keys + [m];
      rest := rest - {m};
    }
  }

  /** The position of the first key at or above low. */
  method SeekPosition(keys: seq<Bytes>, low: Bytes) returns (at: nat)
    requires Ascending(keys)
    ensures at <= |keys|
    ensures forall i | 0 <= i < at :: Less(keys[i], low)
    ensures forall i | at <= i < |keys| :: AtOrAbove(keys[i], low)
  {
    at := 0;
    while at < |keys| && Less(keys[at], low)
      invariant at <= |keys| && forall i | 0 <= i < at :: Less(keys[i], low)
    {
      at := at + 1;
    }
    forall i | at <= i < |keys| ensures AtOrAbove(keys[i], low) {
      if i > at && Less(keys[i], low) {
        Transitive(keys[at], keys[i], low);
      }
    }
  }

  // ---------------------------------------------------------------- what each operation does to the store

  function PutFlat(d: Data, prefix: Bytes, key: Bytes, value: Bytes): Data {
    d[prefix + key := Entry(0, InsertPrefixLength(value, |prefix|))]
  }

  function DeleteFlat(d: Data, prefix: Bytes, key: Bytes): Data {
    d - {prefix + key}
  }

  function CreateFlat(d: Data, prefix: Bytes, key: Bytes): Data {
    if prefix + key in d then d else d[prefix + key := Entry(META_BUCKET, InsertPrefixLength([], |prefix|))]
  }

  function CreateTopFlat(d: Data, key: Bytes): Data {
    if key in d then d else d[key := Entry(META_BUCKET, InsertPrefixLength([], |key|))]
  }

  lemma SetKeepsWellFormed(d: Data, k: Bytes, meta: byte, value: Bytes, length: nat)
    requires WellFormed(d) && length <= |k|
    ensures WellFormed(d[k := Entry(meta, InsertPrefixLength(value, length))])
  {
    assert length % 256 <= length;
  }

  lemma OperationsKeepWellFormed(d: Data, prefix: Bytes, key: Bytes, value: Bytes)
    requires WellFormed(d)
    ensures WellFormed(PutFlat(d, prefix, key, value)) && WellFormed(DeleteFlat(d, prefix, key))
    ensures WellFormed(CreateFlat(d, prefix, key)) && WellFormed(CreateTopFlat(d, key))
  {
    SetKeepsWellFormed(d, prefix + key, 0, value, |prefix|);
    SetKeepsWellFormed(d, prefix + key, META_BUCKET, [], |prefix|);
    SetKeepsWellFormed(d, key, META_BUCKET, [], |key|);
  }

  /** A transaction on the store; a bucket handle is the prefix it was opened with. */
  class Transaction {
    var data: Data

    ghost predicate Valid()
      reads this
    {
      WellFormed(data)
    }

    constructor ()
      ensures Valid() && data == map[]
    {
      data := map[];
    }

    /** Opens or creates a top-level bucket. A key that holds a plain value is opened all the same. */
    method CreateTopLevelBucket(key: Bytes) returns (r: Result<Bytes, Error>)
      requires Valid()
      modifies this
      ensures Valid()
      ensures r == if key == [] then Err(Invalid) else Ok(key)
      ensures data == if key == [] then old(data) else CreateTopFlat(old(data), key)
      ensures key == [] || key in old(data) ==> data == old(data)
      ensures key != [] && key !in old(data) ==> data == old(data)[key := Entry(META_BUCKET, [|key| % 256])]
    {
      OperationsKeepWellFormed(data, [], key, []);
      BareRecord(|key|);
      if key == [] {
        return Err(Invalid);
      }
      if key !in data {
        data := data[key := Entry(META_BUCKET, InsertPrefixLength([], |key|))];
      }
      return Ok(key);
    }

    method ReadWriteBucket(key: Bytes) returns (r: Option<Bytes>)
      ensures r == OpenTop(data, key)
      ensures r.Some? <==> key != [] && key in data && data[key].meta == META_BUCKET
      ensures r.Some? ==> r.value == key
    {
      if key == [] || key !in data || data[key].meta != META_BUCKET {
        return None;
      }
      return Some(key);
    }

    /** Creates a nested bucket, or opens the existing one unless that is an error. */
    method CreateBucket(prefix: Bytes, key: Bytes, errorIfExists: bool) returns (r: Result<Bytes, Error>)
      requires Valid()
      modifies this
      ensures Valid()
      ensures var bad := |key| == 0 || |key| > MAX_KEY_SIZE;
              var k := prefix + key;
              && data == (if bad then old(data) else CreateFlat(old(data), prefix, key))
              && r == (if bad then Err(Invalid)
                       else if k !in old(data) then Ok(k)
                       else if old(data)[k].meta != META_BUCKET then Err(Invalid)
                       else if errorIfExists then Err(Exist)
                       else Ok(k))
      ensures r.Err? || prefix + key in old(data) ==> data == old(data)
      ensures r.Ok? && prefix + key !in old(data) ==>
                data == old(data)[prefix + key := Entry(META_BUCKET, [|prefix| % 256])]
    {
      OperationsKeepWellFormed(data, prefix, key, []);
      BareRecord(|prefix|);
      if |key| == 0 {
        return Err(Invalid);
      }
      var k := AddPrefix(prefix, key);
      if k.Err? {
        return k;
      }
      if k.value !in data {
        data := data[k.value := Entry(META_BUCKET, InsertPrefixLength([], |prefix|))];
        return k;
      }
      if data[k.value].meta == META_BUCKET {
        if errorIfExists {
          return Err(Exist);
        }
        return k;
      }
      return Err(Invalid);
    }

    method NestedReadWriteBucket(prefix: Bytes, key: Bytes) returns (r: Option<Bytes>)
      ensures r == OpenNested(data, prefix, key)
      ensures r.Some? <==> |key| <= MAX_KEY_SIZE && prefix + key != [] && prefix + key in data
                           && data[prefix + key].meta == META_BUCKET
      ensures r.Some? ==> r.value == prefix + key
    {
      var k := AddPrefix(prefix, key);
      if k.Err? || k.value == [] || k.value !in data || data[k.value].meta != META_BUCKET {
        return None;
      }
      return Some(k.value);
    }

    method Get(prefix: Bytes, key: Bytes) returns (r: Option<Bytes>)
      requires Valid()
      ensures r == GetFlat(data, prefix, key)
      ensures r.Some? <==> 0 < |key| <= MAX_KEY_SIZE && prefix + key in data
      ensures r.Some? ==> r.value == data[prefix + key].value[1..]
    {
      if |key| == 0 {
        return None;
      }
      var k := AddPrefix(prefix, key);
      if k.Err? || k.value !in data {
        return None;
      }
      return Some(data[k.value].value[1..]);
    }

    method Put(prefix: Bytes, key: Bytes, value: Bytes) returns (r: Result<(), Error>)
      requires Valid()
      modifies this
      ensures Valid()
      ensures r.Err? <==> |key| == 0 || |key| > 65378
      ensures data == if r.Err? then old(data) else PutFlat(old(data), prefix, key, value)
      ensures r.Ok? ==> data == old(data)[prefix + key := Entry(0, [|prefix| % 256] + value)]
    {
      OperationsKeepWellFormed(data, prefix, key, value);
      if |key| == 0 || |key| > MAX_KEY_SIZE {
        return Err(Invalid);
      }
      data := data[prefix + key := Entry(0, InsertPrefixLength(value, |prefix|))];
      return Ok(());
    }

    method Delete(prefix: Bytes, key: Bytes) returns (r: Result<(), Error>)
      requires Valid()
      modifies this
      ensures Valid()
      ensures r.Err? <==> |key| > MAX_KEY_SIZE
      ensures data == if r.Err? || |key| == 0 then old(data) else DeleteFlat(old(data), prefix, key)
      ensures r.Ok? && |key| > 0 ==> data == old(data) - {prefix + key}
    {
      OperationsKeepWellFormed(data, prefix, key, []);
      if |key| == 0 {
        return Ok(());
      }
      var k := AddPrefix(prefix, key);
      if k.Err? {
        return Err(k.error);
      }
      data := data - {k.value};
      return Ok(());
    }

    /**
     Reports the bucket's entries in order until the callback fails, which it does at its failAt-th
     call; what was reported is then the listing up to and including that entry.
     */
    method ForEach(prefix: Bytes, failAt: nat) returns (seen: seq<Item>, failed: bool)
      requires Valid()
      ensures exists listing :: IsListing(data, prefix, listing) && ReportedUpTo(listing, failAt, seen, failed)
    {
      seen, failed := Enumerate(data, prefix, failAt);
    }
  }

  /** The enumeration loop: from the seek position while keys carry the prefix, skipping foreign entries. */
  method WalkKeys(d: Data, prefix: Bytes, keys: seq<Bytes>, start: nat, failAt: nat)
    returns (seen: seq<Item>, failed: bool, end: nat)
    requires WellFormed(d) && KeysIn(d, keys) && start <= |keys| && Pick(d, prefix, keys[..start]) == []
    ensures start <= end <= |keys| && seen == Pick(d, prefix, keys[..end])
    ensures if failed then |seen| == failAt + 1 else |seen| <= failAt && (end < |keys| ==> !(prefix <= keys[end]))
  {
    seen, end := [], start;
    while end < |keys| && prefix <= keys[end]
      invariant start <= end <= |keys| && seen == Pick(d, prefix, keys[..end]) && |seen| <= failAt
    {
      assert keys[end] in keys;
      PickOneMore(d, prefix, keys, end);
      if IsOwn(d, prefix, keys[end]) {
        seen := seen + [ItemAt(d, keys[end])];
        if |seen| == failAt + 1 {
          return seen, true, end + 1;
        }
      }
      end := end + 1;
    }
    return seen, false, end;
  }

  method EnumerateKeys(d: Data, prefix: Bytes, keys: seq<Bytes>, failAt: nat) returns (seen: seq<Item>, failed: bool)
    requires WellFormed(d) && AllKeys(d, keys)
    ensures failed == (failAt < |Pick(d, prefix, keys)|)
    ensures seen == if failed then Pick(d, prefix, keys)[..failAt + 1] else Pick(d, prefix, keys)
  {
    var start := SeekPosition(keys, prefix);
    NothingBefore(d, prefix, keys, start);
    var end;
    seen, failed, end := WalkKeys(d, prefix, keys, start, failAt);
    if failed {
      PickPrefix(d, prefix, keys, end);
    } else {
      NothingAfter(d, prefix, keys, end);
    }
  }

  /** What was reported of a listing by a callback that fails at its failAt-th call. */
  predicate ReportedUpTo(listing: seq<Item>, failAt: nat, seen: seq<Item>, failed: bool) {
    && failed == (failAt < |listing|)
    && seen == if failed then listing[..failAt + 1] else listing
  }

  method Enumerate(d: Data, prefix: Bytes, failAt: nat) returns (seen: seq<Item>, failed: bool)
    requires WellFormed(d)
    ensures exists listing :: IsListing(d, prefix, listing) && ReportedUpTo(listing, failAt, seen, failed)
  {
    var keys := SortedKeys(d);
    PickAllIsListing(d, prefix, keys);
    seen, failed := EnumerateKeys(d, prefix, keys, failAt);
    assert ReportedUpTo(Pick(d, prefix, keys), failAt, seen, failed);
  }

  lemma PickOneMore(d: Data, prefix: Bytes, keys: seq<Bytes>, i: nat)
    requires WellFormed(d) && i < |keys| && forall k | k in keys :: k in d
    ensures Pick(d, prefix, keys[..i + 1])
         == Pick(d, prefix, keys[..i]) + (if IsOwn(d, prefix, keys[i]) then [ItemAt(d, keys[i])] else [])
  {
    assert keys[..i + 1][..i] == keys[..i];
  }

  lemma {:induction false} PickPrefix(d: Data, prefix: Bytes, keys: seq<Bytes>, i: nat)
    requires WellFormed(d) && i <= |keys| && forall k | k in keys :: k in d
    ensures Pick(d, prefix, keys[..i]) <= Pick(d, prefix, keys)
    decreases |keys|
  {
    if i < |keys| {
      var front := keys[..|keys| - 1];
      PickPrefix(d, prefix, front, i);
      assert front[..i] == keys[..i];
    } else {
      assert keys[..i] == keys;
    }
  }

  /** The handle of an existing top-level bucket. */
  function OpenTop(d: Data, key: Bytes): Option<Bytes> {
    if key != [] && key in d && d[key].meta == META_BUCKET then Some(key) else None
  }

  /** The handle of an existing nested bucket. */
  function OpenNested(d: Data, prefix: Bytes, key: Bytes): Option<Bytes> {
    var k := prefix + key;
    if |key| <= MAX_KEY_SIZE && k != [] && k in d && d[k].meta == META_BUCKET then Some(k) else None
  }

  /** The lookup by flat key; a key that names a nested bucket reads as an empty value. */
  function GetFlat(d: Data, prefix: Bytes, key: Bytes): Option<Bytes>
    requires WellFormed(d)
  {
    var k := prefix + key;
    if |key| == 0 || |key| > MAX_KEY_SIZE || k !in d then None else Some(d[k].value[1..])
  }
}
