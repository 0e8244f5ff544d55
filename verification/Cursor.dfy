/** Cursors over one bucket of the flat store (badgerdb/db.go), agreeing with enumeration. */
module BucketCursor {
  import opened Common
  import opened Lex
  import opened Buckets

  /** Some own entry's key is at or above low, and is the least such. */
  ghost predicate IsLeastFrom(d: Data, prefix: Bytes, low: Bytes, it: Item)
    requires WellFormed(d)
  {
    && Lists(d, prefix, it) && AtOrAbove(it.key, low)
    && forall other | Lists(d, prefix, other) && AtOrAbove(other.key, low) :: AtOrAbove(other.key, it.key)
  }

  /** The test the cursor makes at a key above the bucket's own record: the recorded prefix is the bucket's. */
  predicate OwnTest(d: Data, prefix: Bytes, k: Bytes)
    requires WellFormed(d) && k in d
  {
    k[..d[k].value[0]] == prefix
  }

  ghost predicate InOrder(keys: seq<Bytes>, i: int, j: int) {
    0 <= i < j < |keys| ==> Less(keys[i], keys[j])
  }

  ghost predicate SameKey(d: Data, keys: seq<Bytes>, k: Bytes) {
    k in keys <==> k in d
  }

  /** AllKeys said instance by instance, so that it is used only where it is needed. */
  ghost predicate Complete(d: Data, keys: seq<Bytes>) {
    KeysIn(d, keys) && (forall i, j :: InOrder(keys, i, j)) && forall k :: SameKey(d, keys, k)
  }

  lemma CompleteIsAllKeys(d: Data, keys: seq<Bytes>)
    ensures Complete(d, keys) <==> AllKeys(d, keys)
  {
    if Complete(d, keys) {
      forall i, j | 0 <= i < j < |keys| ensures Less(keys[i], keys[j]) {
        assert InOrder(keys, i, j);
      }
      forall k ensures k in keys <==> k in d {
        assert SameKey(d, keys, k);
      }
    }
  }

  /** How many of the bucket's entries lie among the first n keys. */
  ghost function Count(d: Data, prefix: Bytes, keys: seq<Bytes>, n: nat): nat
    requires WellFormed(d) && KeysIn(d, keys) && n <= |keys|
  {
    if n == 0 then 0 else Count(d, prefix, keys, n - 1) + if IsOwn(d, prefix, keys[n - 1]) then 1 else 0
  }

  lemma {:induction false} CountPicks(d: Data, prefix: Bytes, keys: seq<Bytes>, n: nat)
    requires WellFormed(d) && KeysIn(d, keys) && n <= |keys|
    ensures Count(d, prefix, keys, n) == |Pick(d, prefix, keys[..n])|
  {
    if n > 0 {
      CountPicks(d, prefix, keys, n - 1);
      PickOneMore(d, prefix, keys, n - 1);
    }
  }

  /** Some key of the store is at the bucket's own record or above it, so that seeking the record finds an item. */
  ghost predicate HasFrom(d: Data, prefix: Bytes) {
    exists k :: k in d && AtOrAbove(k, prefix)
  }

  /** The bucket has a record of its own that passes the ownership test, as that of a top-level bucket does. */
  predicate RecordIsOwn(d: Data, prefix: Bytes)
    requires WellFormed(d)
  {
    prefix in d && d[prefix].value[0] == |prefix|
  }

  class Cursor {
    const d: Data
    const prefix: Bytes
    const keys: seq<Bytes>
    var pos: nat
    var ck: Option<Bytes>

    ghost predicate Valid()
      reads this`pos
    {
      Fixed() && pos <= |keys|
    }

    ghost predicate Fixed() {
      WellFormed(d) && Complete(d, keys)
    }

    /** The bucket's listing. */
    ghost function Listing(): seq<Item>
      requires Fixed()
    {
      Pick(d, prefix, keys)
    }

    /** The n-th entry of the listing, if there are so many. */
    ghost function Nth(n: nat): Option<Item>
      requires Fixed()
    {
      if n < |Listing()| then Some(Listing()[n]) else None
    }

    ghost function Before(n: nat): (c: nat)
      requires Fixed() && n <= |keys|
    {
      Count(d, prefix, keys, n)
    }

    /** The cursor rests on the n-th entry of the listing, counting from one. */
    ghost predicate OnEntry(n: nat)
      reads this
      requires Valid()
    {
      && pos < |keys| && ck == Some(keys[pos]) && Less(prefix, keys[pos])
      && 0 < n == Before(pos + 1)
    }

    /** The iterator is on a key of the bucket's range or beyond it, n of the bucket's entries being up to there. */
    ghost predicate Positioned(n: nat)
      reads this
      requires Valid()
    {
      pos < |keys| && (keys[pos] == prefix || Less(prefix, keys[pos])) && n == Before(pos + 1)
    }

    /** A snapshot of the store, with the iterator not positioned yet. */
    constructor (d: Data, prefix: Bytes)
      requires WellFormed(d)
      ensures Valid() && this.d == d && this.prefix == prefix && ck == None
    {
      this.d := d;
      this.prefix := prefix;
      var ks := SortedKeys(d);
      CompleteIsAllKeys(d, ks);
      keys := ks;
      pos := |ks|;
      ck := None;
    }

    /** At a key above the own record that carries the prefix, having passed n of the bucket's entries. */
    lemma Here(n: nat)
      requires Valid() && n == Before(pos) && pos < |keys| && Less(prefix, keys[pos]) && prefix <= keys[pos]
      ensures keys[pos] in d && n <= |Listing()|
      ensures OwnTest(d, prefix, keys[pos]) ==> Nth(n) == Some(ItemAt(d, keys[pos])) && Before(pos + 1) == n + 1
      ensures !OwnTest(d, prefix, keys[pos]) ==> Before(pos + 1) == n
      ensures pos + 1 < |keys| ==> Less(prefix, keys[pos + 1])
    {
      SettleNext(d, prefix, keys, pos);
    }

    /** Past the bucket, having passed n of its entries. */
    lemma PastEnd(n: nat)
      requires Valid() && n == Before(pos) && (pos < |keys| ==> Less(prefix, keys[pos]) && !(prefix <= keys[pos]))
      ensures n == |Listing()| && Nth(n) == None
      ensures pos < |keys| ==> Positioned(n)
    {
      SettleEnd(d, prefix, keys, pos);
      assert pos < |keys| ==> keys[pos] in keys;
    }

    /** The shared end of the cursor operations: report the current entry, or move on if it is foreign. */
    method Settle(ghost n: nat) returns (r: Option<Item>)
      requires Valid() && n == Before(pos) && (pos < |keys| ==> Less(prefix, keys[pos]))
      modifies this
      ensures Valid() && n <= |Listing()| && r == Nth(n) && (r.Some? ==> OnEntry(n + 1))
      ensures r.None? && pos < |keys| ==> Positioned(n)
      decreases |keys| - pos
    {
      if pos == |keys| || !(prefix <= keys[pos]) {
        PastEnd(n);
        return None;
      }
      Here(n);
      ck := Some(keys[pos]);
      if OwnTest(d, prefix, keys[pos]) {
        return Some(ItemAt(d, keys[pos]));
      }
      pos := pos + 1;
      r := Settle(n);
    }

    /** Positions the iterator behind the bucket's own record, or where it would be. The code reads the item there. */
    method SeekPastRecord()
      requires Valid() && HasFrom(d, prefix)
      modifies this`pos
      ensures Valid() && Before(pos) == 0 && (pos < |keys| ==> Less(prefix, keys[pos]))
    {
      CompleteIsAllKeys(d, keys);
      pos := SeekPosition(keys, prefix);
      SeekLands(d, prefix, keys, pos);
      if keys[pos] == prefix {
        pos := pos + 1;
      }
    }

    method First() returns (r: Option<Item>)
      requires Valid() && HasFrom(d, prefix)
      modifies this
      ensures Valid()
      ensures r == Nth(0)
      ensures r.Some? ==> OnEntry(1)
      ensures r.None? && pos < |keys| ==> Positioned(0)
    {
      SeekPastRecord();
      r := Settle(0);
    }

    lemma NextAbove(n: nat)
      requires Valid() && Positioned(n)
      ensures pos + 1 < |keys| ==> Less(prefix, keys[pos + 1])
    {
      if pos + 1 < |keys| {
        assert InOrder(keys, pos, pos + 1);
        if keys[pos] != prefix {
          Transitive(prefix, keys[pos], keys[pos + 1]);
        }
      }
    }

    /** Moves the iterator on by one key, or to the one after the own record if it was never positioned. */
    method StepPast(ghost n: nat)
      requires Valid() && (ck.None? ==> HasFrom(d, prefix) && n == 0) && (ck.Some? ==> Positioned(n))
      modifies this`pos
      ensures Valid() && n == Before(pos) && (pos < |keys| ==> Less(prefix, keys[pos]))
    {
      if ck.None? {
        SeekPastRecord();
      } else {
        NextAbove(n);
        pos := pos + 1;
      }
    }

    /**
     Moves to the next entry; a cursor that was never positioned starts at the first one. Past the last entry
     it reports nothing, as often as it is asked, until the store itself has no further key.
     */
    method Next(ghost n: nat) returns (r: Option<Item>)
      requires Valid() && (ck.None? ==> HasFrom(d, prefix) && n == 0) && (ck.Some? ==> Positioned(n))
      modifies this
      ensures Valid() && n <= |Listing()| && r == Nth(n)
      ensures r.Some? ==> OnEntry(n + 1)
      ensures r.None? && pos < |keys| ==> Positioned(n)
    {
      StepPast(n);
      r := Settle(n);
    }

    /** First followed by Next until nothing is left. */
    method Collect() returns (items: seq<Item>)
      requires Valid() && HasFrom(d, prefix)
      modifies this
      ensures Valid() && items == Listing()
    {
      ghost var all := Listing();
      ghost var n := 0;
      items := [];
      var r := First();
      while r.Some?
        invariant Valid() && n <= |all| && items == all[..n] && r == Nth(n)
        invariant r.Some? ==> OnEntry(n + 1)
        decreases |all| - n
      {
        items := items + [r.value];
        assert items == all[..n + 1];
        n := n + 1;
        r := Next(n);
      }
    }

    /** Seeks the bucket's own record and reports it if it passes the ownership test, else the first entry. */
    method SeekRecord() returns (r: Option<Item>)
      requires Valid()
      modifies this
      ensures Valid()
      ensures if RecordIsOwn(d, prefix) then r.Some? && r.value.key == [] && Positioned(0) else r == Nth(0)
      ensures r.Some? && r.value.key != [] ==> OnEntry(1)
    {
      CompleteIsAllKeys(d, keys);
      pos := SeekPosition(keys, prefix);
      SeekLands(d, prefix, keys, pos);
      if pos < |keys| && keys[pos] == prefix {
        ck := Some(prefix);
        if OwnTest(d, prefix, prefix) {
          return Some(ItemAt(d, prefix));
        }
        pos := pos + 1;
      }
      r := Settle(0);
    }

    /**
     Moves to the least entry at or above a key; without a key, to the first entry. An empty key finds
     the bucket's own record, which is reported when the bucket is a top-level one.
     */
    method Seek(seek: Option<Bytes>) returns (r: Option<Item>)
      requires Valid() && (seek.None? ==> HasFrom(d, prefix))
      modifies this
      ensures Valid()
      ensures seek.Some? && |seek.value| > MAX_KEY_SIZE ==> r.None?
      ensures seek.Some? && 0 < |seek.value| <= MAX_KEY_SIZE ==>
        if r.Some? then IsLeastFrom(d, prefix, seek.value, r.value) && pos < |keys| && OnEntry(Before(pos + 1))
        else forall it | Lists(d, prefix, it) :: Less(it.key, seek.value)
      ensures seek.None? || (seek.value == [] && !RecordIsOwn(d, prefix)) ==> r == Nth(0)
      ensures seek == Some([]) && RecordIsOwn(d, prefix) ==> r.Some? && r.value.key == [] && Positioned(0)
    {
      if seek.None? {
        r := First();
        return;
      }
      var seekKey := AddPrefix(prefix, seek.value);
      if seekKey.Err? {
        return None;
      }
      if seek.value == [] {
        r := SeekRecord();
        return;
      }
      CompleteIsAllKeys(d, keys);
      pos := SeekPosition(keys, seekKey.value);
      AboveProperPrefix(prefix, seek.value);
      if pos < |keys| && !Less(prefix, keys[pos]) {
        NotAboveIsBelow(prefix, seekKey.value, keys[pos]);
      }
      ghost var from := pos;
      CountPicks(d, prefix, keys, from);
      r := Settle(Before(pos));
      SeekFindsLeast(d, prefix, keys, seek.value, from, r);
    }
  }

  lemma NotAfter(keys: seq<Bytes>, i: nat, j: nat)
    requires Ascending(keys) && i <= j < |keys|
    ensures keys[i] == keys[j] || Less(keys[i], keys[j])
  {
  }

  /**
   Seeking the bucket's own record lands on it, or if there is none on the first key above it; nothing of the
   bucket is passed, and what comes after is above the record.
   */
  lemma SeekLands(d: Data, prefix: Bytes, keys: seq<Bytes>, pos: nat)
    requires WellFormed(d) && Complete(d, keys) && pos <= |keys|
    requires forall i | 0 <= i < pos :: Less(keys[i], prefix)
    requires forall i | pos <= i < |keys| :: AtOrAbove(keys[i], prefix)
    ensures Count(d, prefix, keys, pos) == 0
    ensures HasFrom(d, prefix) ==> pos < |keys|
    ensures prefix in d <==> pos < |keys| && keys[pos] == prefix
    ensures pos < |keys| && keys[pos] != prefix ==> Less(prefix, keys[pos])
    ensures pos < |keys| && keys[pos] == prefix ==> Count(d, prefix, keys, pos + 1) == 0
    ensures pos + 1 < |keys| ==> Less(prefix, keys[pos + 1])
  {
    CompleteIsAllKeys(d, keys);
    NothingBefore(d, prefix, keys, pos);
    CountPicks(d, prefix, keys, pos);
    if pos < |keys| {
      assert keys[pos] in keys && AtOrAbove(keys[pos], prefix);
      Total(keys[pos], prefix);
      AfterFirst(prefix, keys, pos);
    }
    if prefix in d {
      assert prefix in keys;
      var at :| 0 <= at < |keys| && keys[at] == prefix;
      Irreflexive(prefix);
      assert pos <= at;
      NotAfter(keys, pos, at);
    }
    if HasFrom(d, prefix) {
      var k :| k in d && AtOrAbove(k, prefix);
      assert k in keys;
      var at :| 0 <= at < |keys| && keys[at] == k;
    }
  }

  lemma AfterFirst(prefix: Bytes, keys: seq<Bytes>, pos: nat)
    requires Ascending(keys) && pos < |keys| && (keys[pos] == prefix || Less(prefix, keys[pos]))
    ensures pos + 1 < |keys| ==> Less(prefix, keys[pos + 1])
  {
    if pos + 1 < |keys| && keys[pos] != prefix {
      Transitive(prefix, keys[pos], keys[pos + 1]);
    }
  }

  /** Past the bucket nothing of it is left. */
  lemma SettleEnd(d: Data, prefix: Bytes, keys: seq<Bytes>, pos: nat)
    requires WellFormed(d) && Complete(d, keys) && pos <= |keys|
    requires pos < |keys| ==> Less(prefix, keys[pos]) && !(prefix <= keys[pos])
    ensures Count(d, prefix, keys, pos) == |Pick(d, prefix, keys)|
  {
    CompleteIsAllKeys(d, keys);
    CountPicks(d, prefix, keys, pos);
    if pos == |keys| {
      assert keys[..pos] == keys;
    } else {
      AboveIsAtOrAbove(prefix, keys[pos]);
      NothingAfter(d, prefix, keys, pos);
    }
  }

  /** A key above the own record that carries the prefix is the bucket's next entry, or a foreign one. */
  lemma SettleNext(d: Data, prefix: Bytes, keys: seq<Bytes>, pos: nat)
    requires WellFormed(d) && Complete(d, keys) && pos < |keys|
    requires Less(prefix, keys[pos]) && prefix <= keys[pos]
    ensures keys[pos] in d
    ensures var m, all := Count(d, prefix, keys, pos), Pick(d, prefix, keys);
            if OwnTest(d, prefix, keys[pos]) then
              m < |all| && all[m] == ItemAt(d, keys[pos]) && Count(d, prefix, keys, pos + 1) == m + 1
            else m <= |all| && Count(d, prefix, keys, pos + 1) == m
    ensures pos + 1 < |keys| ==> Less(prefix, keys[pos + 1])
  {
    CompleteIsAllKeys(d, keys);
    Irreflexive(prefix);
    CountPicks(d, prefix, keys, pos);
    PickNextPrefix(d, prefix, keys, pos);
    if pos + 1 < |keys| {
      Transitive(prefix, keys[pos], keys[pos + 1]);
    }
  }

  lemma PickNextPrefix(d: Data, prefix: Bytes, keys: seq<Bytes>, pos: nat)
    requires WellFormed(d) && pos < |keys| && forall k | k in keys :: k in d
    ensures var m, all := |Pick(d, prefix, keys[..pos])|, Pick(d, prefix, keys);
            if IsOwn(d, prefix, keys[pos]) then
              m < |all| && all[m] == ItemAt(d, keys[pos]) && |Pick(d, prefix, keys[..pos + 1])| == m + 1
            else m <= |all| && |Pick(d, prefix, keys[..pos + 1])| == m
  {
    PickOneMore(d, prefix, keys, pos);
    PickPrefix(d, prefix, keys, pos + 1);
  }

  /** What a cursor collects is what enumeration reports: the bucket's one listing. */
  lemma CursorAgreesWithForEach(d: Data, prefix: Bytes, keys: seq<Bytes>, reported: seq<Item>)
    requires WellFormed(d) && AllKeys(d, keys) && IsListing(d, prefix, reported)
    ensures Pick(d, prefix, keys) == reported
  {
    PickAllIsListing(d, prefix, keys);
    ListingUnique(d, prefix, Pick(d, prefix, keys), reported);
  }

  lemma AboveIsAtOrAbove(a: Bytes, b: Bytes)
    requires Less(a, b)
    ensures AtOrAbove(b, a)
  {
    if Less(b, a) {
      Transitive(a, b, a);
      Irreflexive(a);
    }
  }

  lemma AboveProperPrefix(prefix: Bytes, seek: Bytes)
    requires seek != []
    ensures Less(prefix, prefix + seek)
  {
    CommonPrefix(prefix, [], seek);
    assert prefix + [] == prefix;
  }

  lemma NotAboveIsBelow(a: Bytes, b: Bytes, c: Bytes)
    requires Less(a, b) && AtOrAbove(c, b)
    ensures Less(a, c)
  {
    Total(b, c);
    if Less(b, c) {
      Transitive(a, b, c);
    }
  }

  /** The first entry from the seek position on is the least one at or above the sought key. */
  lemma SeekFindsLeast(d: Data, prefix: Bytes, keys: seq<Bytes>, seek: Bytes, from: nat, r: Option<Item>)
    requires WellFormed(d) && Complete(d, keys) && from <= |keys|
    requires forall i | 0 <= i < from :: Less(keys[i], prefix + seek)
    requires forall i | from <= i < |keys| :: AtOrAbove(keys[i], prefix + seek)
    requires var m, items := |Pick(d, prefix, keys[..from])|, Pick(d, prefix, keys);
             m <= |items| && r == (if m < |items| then Some(items[m]) else None)
    ensures if r.Some? then IsLeastFrom(d, prefix, seek, r.value)
            else forall it | Lists(d, prefix, it) :: Less(it.key, seek)
  {
    CompleteIsAllKeys(d, keys);
    var items, before := Pick(d, prefix, keys), Pick(d, prefix, keys[..from]);
    PickLists(d, prefix, keys);
    PickLists(d, prefix, keys[..from]);
    PickPrefix(d, prefix, keys, from);
    forall j | 0 <= j < |items|
      ensures Less(items[j].key, seek) <==> j < |before|
    {
      CommonPrefix(prefix, items[j].key, seek);
      assert items[j] in items;
      if j < |before| {
        assert before[j] in before && before[j] == items[j];
      } else if Less(items[j].key, seek) {
        assert items[j] in before;
        var i :| 0 <= i < |before| && before[i] == items[j];
        assert Less(items[i].key, items[j].key);
        Irreflexive(items[j].key);
        assert false;
      }
    }
    if r.Some? {
      forall other | Lists(d, prefix, other) && AtOrAbove(other.key, seek)
        ensures AtOrAbove(other.key, r.value.key)
      {
        assert other in items;
        var j :| 0 <= j < |items| && items[j] == other;
        Irreflexive(other.key);
        if j > |before| {
          AboveIsAtOrAbove(r.value.key, other.key);
        }
      }
      assert r.value in items;
    } else {
      forall it | Lists(d, prefix, it) ensures Less(it.key, seek) {
        assert it in items;
      }
    }
  }
}
