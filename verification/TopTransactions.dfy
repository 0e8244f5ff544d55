/**
 Listing transactions across wallets (transactions.go, txindex/read.go): each wallet's index gives a sorted,
 limited page, and the pages are appended, sorted again and truncated.
 */
module TopTransactions {
  import opened Common

  datatype Transaction = Transaction(hash: nat, timestamp: int, matches: bool)

  /** A wallet's transaction index; reading an index that fails gives an error. */
  datatype Index = Index(txs: seq<Transaction>, fails: bool)

  /** What is listed, or the empty reply that stands for a failed read. */
  datatype Listing = Listed(txs: seq<Transaction>) | EmptyReply

  /** Sorting compares by this: time, or time backwards for newest first. */
  function Key(newestFirst: bool, tx: Transaction): int {
    if newestFirst then -tx.timestamp else tx.timestamp
  }

  function Keys(newestFirst: bool, txs: seq<Transaction>): (keys: seq<int>)
    ensures |keys| == |txs|
  {
    seq(|txs|, i requires 0 <= i < |txs| => Key(newestFirst, txs[i]))
  }

  function Timestamps(txs: seq<Transaction>): seq<int> {
    seq(|txs|, i requires 0 <= i < |txs| => txs[i].timestamp)
  }

  ghost predicate Ascending(s: seq<int>) {
    forall i, j | 0 <= i < j < |s| :: s[i] <= s[j]
  }

  /** In order of time: later transactions first if newest first, earlier ones first if not. */
  ghost predicate Sorted(newestFirst: bool, txs: seq<Transaction>) {
    forall i, j | 0 <= i < j < |txs| ::
      if newestFirst then txs[i].timestamp >= txs[j].timestamp else txs[i].timestamp <= txs[j].timestamp
  }

  /** The order of time is the order of keys. */
  lemma SortedByKey(newestFirst: bool, txs: seq<Transaction>)
    ensures Sorted(newestFirst, txs) <==> Ascending(Keys(newestFirst, txs))
  {
    var keys := Keys(newestFirst, txs);
    if Sorted(newestFirst, txs) {
      forall i, j | 0 <= i < j < |keys| ensures keys[i] <= keys[j] {
        assert newestFirst ==> txs[i].timestamp >= txs[j].timestamp;
      }
    }
    if Ascending(keys) {
      forall i, j | 0 <= i < j < |txs|
        ensures if newestFirst then txs[i].timestamp >= txs[j].timestamp else txs[i].timestamp <= txs[j].timestamp
      {
        assert keys[i] <= keys[j];
      }
    }
  }

  ghost predicate SortingOf(newestFirst: bool, sorted: seq<Transaction>, txs: seq<Transaction>) {
    Sorted(newestFirst, sorted) && multiset(sorted) == multiset(txs)
  }

  function First<T>(k: nat, s: seq<T>): seq<T> {
    if k < |s| then s[..k] else s
  }

  function Page<T>(s: seq<T>, offset: int, limit: int): seq<T> {
    var rest := if offset <= 0 then s else if offset < |s| then s[offset..] else [];
    if limit > 0 then First(limit, rest) else rest
  }

  function Matching(index: Index): seq<Transaction> {
    Filter(index.txs, (tx: Transaction) => tx.matches)
  }

  /** Every wallet's matching transactions. */
  function AllMatching(indexes: seq<Index>): seq<Transaction> {
    if indexes == [] then [] else AllMatching(indexes[..|indexes| - 1]) + Matching(indexes[|indexes| - 1])
  }

  function Merge(a: seq<int>, b: seq<int>): seq<int>
    decreases |a| + |b|
  {
    if a == [] then b
    else if b == [] then a
    else if a[0] <= b[0] then [a[0]] + Merge(a[1..], b)
    else [b[0]] + Merge(a, b[1..])
  }

  lemma {:induction false} MergeHolds(a: seq<int>, b: seq<int>)
    ensures multiset(Merge(a, b)) == multiset(a) + multiset(b)
    decreases |a| + |b|
  {
    if a != [] && b != [] {
      assert a == [a[0]] + a[1..] && b == [b[0]] + b[1..];
      if a[0] <= b[0] {
        MergeHolds(a[1..], b);
      } else {
        MergeHolds(a, b[1..]);
      }
    }
  }

  lemma {:induction false} MergeAscends(a: seq<int>, b: seq<int>)
    requires Ascending(a) && Ascending(b)
    ensures Ascending(Merge(a, b))
    decreases |a| + |b|
  {
    if a != [] && b != [] {
      var head, x, y := if a[0] <= b[0] then a[0] else b[0],
                        if a[0] <= b[0] then a[1..] else a,
                        if a[0] <= b[0] then b else b[1..];
      MergeAscends(x, y);
      MergeAbove(x, y, head);
      ConsAscends(head, Merge(x, y));
    }
  }

  lemma MergeAbove(a: seq<int>, b: seq<int>, low: int)
    requires (forall x | x in a :: low <= x) && forall x | x in b :: low <= x
    ensures forall x | x in Merge(a, b) :: low <= x
  {
    MergeHolds(a, b);
    forall x | x in Merge(a, b) ensures low <= x {
      assert x in multiset(Merge(a, b));
      assert x in multiset(a) || x in multiset(b);
      assert x in a || x in b;
    }
  }

  lemma ConsAscends(x: int, s: seq<int>)
    requires Ascending(s) && forall y | y in s :: x <= y
    ensures Ascending([x] + s)
  {
    var t := [x] + s;
    forall i, j | 0 <= i < j < |t| ensures t[i] <= t[j] {
      assert t[j] == s[j - 1] && t[j] in s;
    }
  }

  lemma FirstTwice(k: nat, l: nat, s: seq<int>)
    requires k <= l
    ensures First(k, First(l, s)) == First(k, s)
  {
  }

  lemma FirstCons(k: nat, x: int, s: seq<int>)
    requires k > 0
    ensures First(k, [x] + s) == [x] + First(k - 1, s)
  {
  }

  /** The first k of a merge need only the first k of either side. */
  lemma {:induction false} MergeOfFirst(k: nat, a: seq<int>, b: seq<int>)
    ensures First(k, Merge(First(k, a), First(k, b))) == First(k, Merge(a, b))
    decreases k, |a| + |b|
  {
    if k > 0 && a != [] && b != [] {
      var a', b' := First(k, a), First(k, b);
      if a[0] <= b[0] {
        assert a'[1..] == First(k - 1, a[1..]);
        MergeStep(k, a[1..], b, a'[1..], b');
        FirstCons(k, a[0], Merge(a[1..], b));
        FirstCons(k, a[0], Merge(a'[1..], b'));
      } else {
        assert b'[1..] == First(k - 1, b[1..]);
        MergeStep(k, a, b[1..], a', b'[1..]);
        FirstCons(k, b[0], Merge(a, b[1..]));
        FirstCons(k, b[0], Merge(a', b'[1..]));
      }
    }
  }

  lemma {:induction false} MergeStep(k: nat, a: seq<int>, b: seq<int>, a': seq<int>, b': seq<int>)
    requires k > 0 && First(k - 1, a') == First(k - 1, a) && First(k - 1, b') == First(k - 1, b)
    ensures First(k - 1, Merge(a', b')) == First(k - 1, Merge(a, b))
    decreases k, 0
  {
    MergeOfFirst(k - 1, a, b);
    MergeOfFirst(k - 1, a', b');
  }

  lemma LeastFirst(a: seq<int>, x: int)
    requires Ascending(a) && x in multiset(a)
    ensures a[0] <= x
  {
    var i :| 0 <= i < |a| && a[i] == x;
  }

  lemma SplitHead(a: seq<int>)
    requires a != []
    ensures multiset(a) == multiset{a[0]} + multiset(a[1..])
  {
    assert a == [a[0]] + a[1..];
  }

  lemma SameHead(a: seq<int>, b: seq<int>)
    requires Ascending(a) && Ascending(b) && multiset(a) == multiset(b) && a != []
    ensures b != [] && a[0] == b[0] && multiset(a[1..]) == multiset(b[1..])
  {
    assert a[0] in multiset(b);
    assert b[0] in multiset(a);
    LeastFirst(a, b[0]);
    LeastFirst(b, a[0]);
    SplitHead(a);
    SplitHead(b);
    assert multiset(a[1..]) == multiset(a) - multiset{a[0]};
    assert multiset(b[1..]) == multiset(b) - multiset{b[0]};
  }

  lemma TailAscends(a: seq<int>)
    requires Ascending(a) && a != []
    ensures Ascending(a[1..])
  {
  }

  lemma {:induction false} AscendingUnique(a: seq<int>, b: seq<int>)
    requires Ascending(a) && Ascending(b) && multiset(a) == multiset(b)
    ensures a == b
  {
    if a == [] {
      assert |multiset(b)| == |b|;
    } else {
      SameHead(a, b);
      TailAscends(a);
      TailAscends(b);
      AscendingUnique(a[1..], b[1..]);
      assert a == [a[0]] + a[1..] && b == [b[0]] + b[1..];
    }
  }

  lemma WithoutElement<T>(s: seq<T>, i: nat)
    requires i < |s|
    ensures multiset(s[..i] + s[i + 1..]) == multiset(s) - multiset{s[i]}
  {
    assert s == s[..i] + [s[i]] + s[i + 1..];
  }

  lemma FindFirst<T>(s: seq<T>, other: seq<T>) returns (i: nat)
    requires s != [] && multiset(s) == multiset(other)
    ensures i < |other| && other[i] == s[0]
    ensures multiset(s[..0] + s[0 + 1..]) == multiset(other[..i] + other[i + 1..])
  {
    assert s[0] in multiset(other);
    i :| 0 <= i < |other| && other[i] == s[0];
    WithoutElement(s, 0);
    WithoutElement(other, i);
  }

  lemma {:induction false} KeysHold(newestFirst: bool, txs: seq<Transaction>, other: seq<Transaction>)
    requires multiset(txs) == multiset(other)
    ensures multiset(Keys(newestFirst, txs)) == multiset(Keys(newestFirst, other))
  {
    if txs == [] {
      assert |multiset(other)| == |other|;
    } else {
      var i := FindFirst(txs, other);
      KeysHold(newestFirst, txs[..0] + txs[0 + 1..], other[..i] + other[i + 1..]);
      KeysSplit(newestFirst, txs, 0);
      KeysSplit(newestFirst, other, i);
    }
  }

  lemma KeysSplit(newestFirst: bool, txs: seq<Transaction>, i: nat)
    requires i < |txs|
    ensures multiset(Keys(newestFirst, txs))
         == multiset(Keys(newestFirst, txs[..i] + txs[i + 1..])) + multiset{Key(newestFirst, txs[i])}
  {
    var keys := Keys(newestFirst, txs[..i] + txs[i + 1..]);
    assert Keys(newestFirst, txs) == keys[..i] + [Key(newestFirst, txs[i])] + keys[i..];
    assert keys == keys[..i] + keys[i..];
  }

  /** The keys of several sorted lists in order, by merging one list after another. */
  ghost function MergedKeys(newestFirst: bool, lists: seq<seq<Transaction>>): seq<int> {
    if lists == [] then []
    else Merge(MergedKeys(newestFirst, lists[..|lists| - 1]), Keys(newestFirst, lists[|lists| - 1]))
  }

  ghost function Concat(lists: seq<seq<Transaction>>): seq<Transaction> {
    if lists == [] then [] else Concat(lists[..|lists| - 1]) + lists[|lists| - 1]
  }

  lemma {:induction false} MergedKeysAscend(newestFirst: bool, lists: seq<seq<Transaction>>)
    requires forall l | l in lists :: Sorted(newestFirst, l)
    ensures Ascending(MergedKeys(newestFirst, lists))
  {
    if lists != [] {
      var init, last := lists[..|lists| - 1], lists[|lists| - 1];
      MergedKeysAscend(newestFirst, init);
      assert last in lists;
      SortedByKey(newestFirst, last);
      MergeAscends(MergedKeys(newestFirst, init), Keys(newestFirst, last));
    }
  }

  lemma {:induction false} MergedKeysHold(newestFirst: bool, lists: seq<seq<Transaction>>)
    ensures multiset(MergedKeys(newestFirst, lists)) == multiset(Keys(newestFirst, Concat(lists)))
  {
    if lists != [] {
      var init, last := lists[..|lists| - 1], lists[|lists| - 1];
      MergedKeysHold(newestFirst, init);
      MergeHolds(MergedKeys(newestFirst, init), Keys(newestFirst, last));
      KeysConcat(newestFirst, Concat(init), last);
    }
  }

  lemma KeysConcat(newestFirst: bool, a: seq<Transaction>, b: seq<Transaction>)
    ensures multiset(Keys(newestFirst, a + b)) == multiset(Keys(newestFirst, a)) + multiset(Keys(newestFirst, b))
  {
    assert Keys(newestFirst, a + b) == Keys(newestFirst, a) + Keys(newestFirst, b);
  }

  /** Limiting every list first does not change the first k of the merge. */
  lemma {:induction false} PagesSuffice(newestFirst: bool, k: nat, pages: seq<seq<Transaction>>,
                                        lists: seq<seq<Transaction>>)
    requires PagesOf(k, pages, lists)
    ensures First(k, MergedKeys(newestFirst, pages)) == First(k, MergedKeys(newestFirst, lists))
  {
    if lists != [] {
      var last, page := lists[|lists| - 1], pages[|pages| - 1];
      PagesSuffice(newestFirst, k, pages[..|pages| - 1], lists[..|lists| - 1]);
      assert Keys(newestFirst, page) == First(k, Keys(newestFirst, last));
      FirstTwice(k, k, Keys(newestFirst, last));
      MergeStep(k + 1, MergedKeys(newestFirst, lists[..|lists| - 1]), Keys(newestFirst, last),
                MergedKeys(newestFirst, pages[..|pages| - 1]), Keys(newestFirst, page));
    }
  }

  /** The keys of a sorting are those of the merge, whatever the order of ties. */
  lemma SortingKeys(newestFirst: bool, sorted: seq<Transaction>, lists: seq<seq<Transaction>>)
    requires SortingOf(newestFirst, sorted, Concat(lists)) && forall l | l in lists :: Sorted(newestFirst, l)
    ensures Keys(newestFirst, sorted) == MergedKeys(newestFirst, lists)
  {
    KeysHold(newestFirst, sorted, Concat(lists));
    SortedByKey(newestFirst, sorted);
    MergedKeysAscend(newestFirst, lists);
    MergedKeysHold(newestFirst, lists);
    AscendingUnique(Keys(newestFirst, sorted), MergedKeys(newestFirst, lists));
  }

  /** Each list is a sorting of the matching transactions of its wallet. */
  ghost predicate SortingsOf(newestFirst: bool, lists: seq<seq<Transaction>>, indexes: seq<Index>) {
    |lists| == |indexes| && forall i | 0 <= i < |lists| :: SortingOf(newestFirst, lists[i], Matching(indexes[i]))
  }

  lemma {:induction false} ConcatMatches(newestFirst: bool, lists: seq<seq<Transaction>>, indexes: seq<Index>)
    requires SortingsOf(newestFirst, lists, indexes)
    ensures multiset(Concat(lists)) == multiset(AllMatching(indexes))
  {
    if lists != [] {
      ConcatMatches(newestFirst, lists[..|lists| - 1], indexes[..|indexes| - 1]);
    }
  }

  lemma SameTimestamps(newestFirst: bool, a: seq<Transaction>, b: seq<Transaction>)
    requires Keys(newestFirst, a) == Keys(newestFirst, b)
    ensures Timestamps(a) == Timestamps(b)
  {
    assert |Keys(newestFirst, a)| == |Keys(newestFirst, b)|;
    forall i | 0 <= i < |a| ensures a[i].timestamp == b[i].timestamp {
      assert Keys(newestFirst, a)[i] == Keys(newestFirst, b)[i];
    }
  }

  lemma FirstKeys(newestFirst: bool, k: nat, txs: seq<Transaction>)
    ensures Keys(newestFirst, First(k, txs)) == First(k, Keys(newestFirst, txs))
  {
  }

  ghost predicate PagesOf(k: nat, pages: seq<seq<Transaction>>, lists: seq<seq<Transaction>>) {
    |pages| == |lists| && forall i | 0 <= i < |lists| :: pages[i] == First(k, lists[i])
  }

  lemma PagesSorted(newestFirst: bool, k: nat, pages: seq<seq<Transaction>>, lists: seq<seq<Transaction>>)
    requires PagesOf(k, pages, lists) && forall l | l in lists :: Sorted(newestFirst, l)
    ensures forall p | p in pages :: Sorted(newestFirst, p)
  {
    forall i | 0 <= i < |pages| ensures Sorted(newestFirst, pages[i]) {
      assert lists[i] in lists;
    }
  }

  /**
   Truncating the sorted union of the wallets' limited pages gives the timestamps that truncating the
   sorted union of everything gives, for any number of wallets and whatever order ties come in.
   */
  lemma TopOfPagesIsTopOfAll(newestFirst: bool, k: nat, indexes: seq<Index>, lists: seq<seq<Transaction>>,
                             pages: seq<seq<Transaction>>, merged: seq<Transaction>, all: seq<Transaction>)
    requires SortingsOf(newestFirst, lists, indexes) && PagesOf(k, pages, lists)
    requires SortingOf(newestFirst, merged, Concat(pages))
    requires SortingOf(newestFirst, all, AllMatching(indexes))
    ensures Timestamps(First(k, merged)) == Timestamps(First(k, all))
  {
    ConcatMatches(newestFirst, lists, indexes);
    PagesSorted(newestFirst, k, pages, lists);
    SortingKeys(newestFirst, merged, pages);
    SortingKeys(newestFirst, all, lists);
    PagesSuffice(newestFirst, k, pages, lists);
    FirstKeys(newestFirst, k, merged);
    FirstKeys(newestFirst, k, all);
    SameTimestamps(newestFirst, First(k, merged), First(k, all));
  }

  /** The place behind everything that is not above tx. */
  method FindPlace(newestFirst: bool, sorted: seq<Transaction>, tx: Transaction) returns (at: nat)
    ensures at <= |sorted|
    ensures forall j | 0 <= j < at :: Key(newestFirst, sorted[j]) <= Key(newestFirst, tx)
    ensures at < |sorted| ==> Key(newestFirst, tx) <= Key(newestFirst, sorted[at])
  {
    at := 0;
    while at < |sorted| && Key(newestFirst, sorted[at]) <= Key(newestFirst, tx)
      invariant at <= |sorted|
      invariant forall j | 0 <= j < at :: Key(newestFirst, sorted[j]) <= Key(newestFirst, tx)
    {
      at := at + 1;
    }
  }

  method Sort(newestFirst: bool, txs: seq<Transaction>) returns (sorted: seq<Transaction>)
    ensures SortingOf(newestFirst, sorted, txs)
  {
    sorted := [];
    ghost var held := multiset{};
    for i := 0 to |txs|
      invariant Sorted(newestFirst, sorted) && multiset(sorted) == held == multiset(txs[..i])
    {
      var at := FindPlace(newestFirst, sorted, txs[i]);
      InsertSorted(newestFirst, sorted, at, txs[i]);
      assert txs[..i + 1] == txs[..i] + [txs[i]];
      sorted := sorted[..at] + [txs[i]] + sorted[at..];
      held := held + multiset{txs[i]};
    }
    assert txs[..|txs|] == txs;
  }

  lemma InsertSorted(newestFirst: bool, sorted: seq<Transaction>, at: nat, tx: Transaction)
    requires at <= |sorted| && Sorted(newestFirst, sorted)
    requires forall j | 0 <= j < at :: Key(newestFirst, sorted[j]) <= Key(newestFirst, tx)
    requires at < |sorted| ==> Key(newestFirst, tx) <= Key(newestFirst, sorted[at])
    ensures Sorted(newestFirst, sorted[..at] + [tx] + sorted[at..])
    ensures multiset(sorted[..at] + [tx] + sorted[at..]) == multiset(sorted) + multiset{tx}
  {
    var keys := Keys(newestFirst, sorted);
    SortedByKey(newestFirst, sorted);
    InsertAscends(keys, at, Key(newestFirst, tx));
    InsertKeys(newestFirst, sorted, at, tx);
    SortedByKey(newestFirst, sorted[..at] + [tx] + sorted[at..]);
    InsertHolds(sorted, at, tx);
  }

  lemma InsertHolds<T>(s: seq<T>, at: nat, x: T)
    requires at <= |s|
    ensures multiset(s[..at] + [x] + s[at..]) == multiset(s) + multiset{x}
  {
    assert s == s[..at] + s[at..];
  }

  lemma InsertKeys(newestFirst: bool, sorted: seq<Transaction>, at: nat, tx: Transaction)
    requires at <= |sorted|
    ensures Keys(newestFirst, sorted[..at] + [tx] + sorted[at..])
         == Keys(newestFirst, sorted)[..at] + [Key(newestFirst, tx)] + Keys(newestFirst, sorted)[at..]
  {
  }

  lemma InsertAscends(keys: seq<int>, at: nat, key: int)
    requires at <= |keys| && Ascending(keys) && forall j | 0 <= j < at :: keys[j] <= key
    requires at < |keys| ==> key <= keys[at]
    ensures Ascending(keys[..at] + [key] + keys[at..])
  {
    assert forall j | at <= j < |keys| :: key <= keys[j] by {
      if at < |keys| {
        assert key <= keys[at];
      }
    }
  }

  ghost predicate PageOf(newestFirst: bool, offset: int, limit: int, index: Index,
                         sorted: seq<Transaction>, page: seq<Transaction>) {
    && SortingOf(newestFirst, sorted, Matching(index)) && page == Page(sorted, offset, limit)
    && HoldsPositions(sorted, offset, limit, page)
  }

  /** The page holds the positions from the offset on, as many as there are or as the limit allows. */
  ghost predicate HoldsPositions(sorted: seq<Transaction>, offset: int, limit: int, page: seq<Transaction>) {
    var from := if offset > 0 then offset else 0;
    var there := if from < |sorted| then |sorted| - from else 0;
    && |page| == (if limit > 0 && limit < there then limit else there)
    && forall j | 0 <= j < |page| :: from + j < |sorted| && page[j] == sorted[from + j]
  }

  /** A page of the wallet's matching transactions, sorted in some order of ties. */
  method Read(index: Index, offset: int, limit: int, newestFirst: bool) returns (r: Result<seq<Transaction>, ()>)
    ensures r.Err? <==> index.fails
    ensures r.Ok? ==> exists sorted :: PageOf(newestFirst, offset, limit, index, sorted, r.value)
  {
    var found := Sort(newestFirst, Matching(index));
    ghost var sorted := found;
    if index.fails {
      return Err(());
    }
    if offset > 0 {
      found := if offset < |found| then found[offset..] else [];
    }
    if limit > 0 {
      found := First(limit, found);
    }
    assert PageOf(newestFirst, offset, limit, index, sorted, found);
    return Ok(found);
  }

  /** Each page is one of the wallet at its place, for the first n wallets. */
  ghost predicate PagesUpTo(newestFirst: bool, offset: int, limit: int, indexes: seq<Index>, n: nat,
                            lists: seq<seq<Transaction>>, pages: seq<seq<Transaction>>) {
    && |lists| == n == |pages| && n <= |indexes|
    && forall i | 0 <= i < n :: PageOf(newestFirst, offset, limit, indexes[i], lists[i], pages[i])
  }

  lemma NextPage(newestFirst: bool, offset: int, limit: int, indexes: seq<Index>, n: nat,
                 lists: seq<seq<Transaction>>, pages: seq<seq<Transaction>>, sorted: seq<Transaction>,
                 page: seq<Transaction>)
    requires PagesUpTo(newestFirst, offset, limit, indexes, n, lists, pages) && n < |indexes|
    requires PageOf(newestFirst, offset, limit, indexes[n], sorted, page)
    ensures PagesUpTo(newestFirst, offset, limit, indexes, n + 1, lists + [sorted], pages + [page])
    ensures Concat(pages + [page]) == Concat(pages) + page
  {
    assert (pages + [page])[..|pages + [page]| - 1] == pages;
  }

  /** The wallets' pages one after another, or the first failure. */
  method ReadAll(indexes: seq<Index>, offset: int, limit: int, newestFirst: bool)
    returns (r: Result<seq<Transaction>, ()>, ghost lists: seq<seq<Transaction>>, ghost pages: seq<seq<Transaction>>)
    ensures r.Err? <==> exists i | 0 <= i < |indexes| :: indexes[i].fails
    ensures r.Ok? ==> PagesUpTo(newestFirst, offset, limit, indexes, |indexes|, lists, pages) && r.value == Concat(pages)
  {
    var transactions: seq<Transaction> := [];
    lists, pages := [], [];
    for i := 0 to |indexes|
      invariant forall j | 0 <= j < i :: !indexes[j].fails
      invariant PagesUpTo(newestFirst, offset, limit, indexes, i, lists, pages)
      invariant transactions == Concat(pages)
    {
      var page := Read(indexes[i], offset, limit, newestFirst);
      if page.Err? {
        return Err(()), lists, pages;
      }
      ghost var sorted :| PageOf(newestFirst, offset, limit, indexes[i], sorted, page.value);
      NextPage(newestFirst, offset, limit, indexes, i, lists, pages, sorted, page.value);
      transactions := transactions + page.value;
      lists, pages := lists + [sorted], pages + [page.value];
    }
    return Ok(transactions), lists, pages;
  }

  lemma PageWithin(s: seq<Transaction>, offset: int, limit: int)
    ensures multiset(Page(s, offset, limit)) <= multiset(s)
  {
    var rest := if offset <= 0 then s else if offset < |s| then s[offset..] else [];
    if 0 < offset < |s| {
      assert s == s[..offset] + rest;
    }
    if 0 < limit < |rest| {
      assert rest == rest[..limit] + rest[limit..];
    }
  }

  /** Whatever is skipped, the pages hold only transactions of the wallets, and none twice. */
  lemma {:induction false} PagesWithin(newestFirst: bool, offset: int, limit: int, indexes: seq<Index>,
                                       lists: seq<seq<Transaction>>, pages: seq<seq<Transaction>>)
    requires PagesUpTo(newestFirst, offset, limit, indexes, |indexes|, lists, pages)
    ensures multiset(Concat(pages)) <= multiset(AllMatching(indexes))
  {
    if pages != [] {
      var n := |pages| - 1;
      PagesWithin(newestFirst, offset, limit, indexes[..n], lists[..n], pages[..n]);
      assert PageOf(newestFirst, offset, limit, indexes[n], lists[n], pages[n]);
      PageWithin(lists[n], offset, limit);
    }
  }

  /** With nothing skipped, the timestamps are those of the first limit transactions of any sorting of all. */
  ghost predicate LeadsEverySorting(newestFirst: bool, limit: nat, indexes: seq<Index>, txs: seq<Transaction>) {
    forall all | SortingOf(newestFirst, all, AllMatching(indexes)) ::
      Timestamps(txs) == Timestamps(First(limit, all))
  }

  /** The transactions of all wallets, matching or not. */
  function Everything(indexes: seq<Index>): seq<Transaction> {
    if indexes == [] then [] else Everything(indexes[..|indexes| - 1]) + indexes[|indexes| - 1].txs
  }

  /** Exactly the matching transactions of the wallets are to be listed, as often as the wallets have them. */
  lemma {:induction false} AllMatchingCount(indexes: seq<Index>, tx: Transaction)
    ensures multiset(AllMatching(indexes))[tx] == if tx.matches then multiset(Everything(indexes))[tx] else 0
  {
    if indexes != [] {
      AllMatchingCount(indexes[..|indexes| - 1], tx);
      FilterHolds(indexes[|indexes| - 1].txs, (t: Transaction) => t.matches, tx);
    }
  }

  /** Not above a key in sorting order. */
  function UpTo(newestFirst: bool, key: int): Transaction -> bool {
    tx => Key(newestFirst, tx) <= key
  }

  lemma {:induction false} SameCountUpTo(newestFirst: bool, key: int, a: seq<Transaction>, b: seq<Transaction>)
    requires Keys(newestFirst, a) == Keys(newestFirst, b)
    ensures |Filter(a, UpTo(newestFirst, key))| == |Filter(b, UpTo(newestFirst, key))|
  {
    assert |a| == |Keys(newestFirst, a)| == |Keys(newestFirst, b)| == |b|;
    if a != [] {
      var n := |a| - 1;
      assert Keys(newestFirst, a)[n] == Keys(newestFirst, b)[n];
      assert Keys(newestFirst, a[..n]) == Keys(newestFirst, a)[..n] == Keys(newestFirst, b[..n]);
      SameCountUpTo(newestFirst, key, a[..n], b[..n]);
    }
  }

  lemma {:induction false} NoneUpTo(newestFirst: bool, key: int, s: seq<Transaction>)
    requires forall tx | tx in s :: Key(newestFirst, tx) > key
    ensures Filter(s, UpTo(newestFirst, key)) == []
  {
    if s != [] {
      assert s[|s| - 1] in s;
      NoneUpTo(newestFirst, key, s[..|s| - 1]);
    }
  }

  /** Beyond a position that is above a key, a sorting has nothing up to the key. */
  lemma CountUpToFront(newestFirst: bool, key: int, all: seq<Transaction>, n: nat)
    requires Sorted(newestFirst, all) && 0 < n <= |all| && Key(newestFirst, all[n - 1]) > key
    ensures Filter(all, UpTo(newestFirst, key)) == Filter(all[..n], UpTo(newestFirst, key))
  {
    BeyondIsAbove(newestFirst, key, all, n);
    FrontUpTo(newestFirst, key, all[..n], all[n..]);
    assert all == all[..n] + all[n..];
  }

  lemma FrontUpTo(newestFirst: bool, key: int, a: seq<Transaction>, b: seq<Transaction>)
    requires forall tx | tx in b :: Key(newestFirst, tx) > key
    ensures Filter(a + b, UpTo(newestFirst, key)) == Filter(a, UpTo(newestFirst, key))
  {
    FilterConcat(a, b, UpTo(newestFirst, key));
    NoneUpTo(newestFirst, key, b);
  }

  lemma BeyondIsAbove(newestFirst: bool, key: int, all: seq<Transaction>, n: nat)
    requires Sorted(newestFirst, all) && 0 < n <= |all| && Key(newestFirst, all[n - 1]) > key
    ensures forall tx | tx in all[n..] :: Key(newestFirst, tx) > key
  {
    forall i | n <= i < |all| ensures Key(newestFirst, all[i]) > key {
      assert newestFirst ==> all[n - 1].timestamp >= all[i].timestamp;
    }
  }

  /** What is listed only in part has fewer transactions up to the key of one left out. */
  lemma FewerUpTo(newestFirst: bool, listed: seq<Transaction>, all: seq<Transaction>, x: Transaction)
    requires multiset(listed) <= multiset(all) && multiset(listed)[x] < multiset(all)[x]
    ensures |Filter(listed, UpTo(newestFirst, Key(newestFirst, x)))| < |Filter(all, UpTo(newestFirst, Key(newestFirst, x)))|
  {
    var p := UpTo(newestFirst, Key(newestFirst, x));
    var a, b := multiset(Filter(listed, p)), multiset(Filter(all, p));
    forall tx ensures a[tx] == (if p(tx) then multiset(listed)[tx] else 0) && b[tx] == if p(tx) then multiset(all)[tx] else 0 {
      FilterHolds(listed, p, tx);
      FilterHolds(all, p, tx);
    }
    assert a <= b && a[x] < b[x];
    SmallerBag(a, b, x);
  }

  lemma SmallerBag(a: multiset<Transaction>, b: multiset<Transaction>, x: Transaction)
    requires a <= b && a[x] < b[x]
    ensures |a| < |b|
  {
    var d := b - a;
    assert b == a + d;
    assert x in d;
    assert |b| == |a| + |d| && |d| > 0;
  }

  /** No transaction left out comes before a listed one: with newest first none is newer, else none is older. */
  ghost predicate NothingEarlierLeftOut(newestFirst: bool, listed: seq<Transaction>, all: seq<Transaction>) {
    forall x, y | y in listed && multiset(listed)[x] < multiset(all)[x] ::
      if newestFirst then x.timestamp <= y.timestamp else y.timestamp <= x.timestamp
  }

  /** Having the keys of the first entries of a sorting is leaving out nothing earlier. */
  lemma TopLeavesLater(newestFirst: bool, k: nat, listed: seq<Transaction>, all: seq<Transaction>)
    requires Sorted(newestFirst, all) && multiset(listed) <= multiset(all)
    requires Timestamps(listed) == Timestamps(First(k, all))
    ensures NothingEarlierLeftOut(newestFirst, listed, all)
  {
    var front := First(k, all);
    assert |listed| == |Timestamps(listed)| == |Timestamps(front)| == |front|;
    forall x, y | y in listed && multiset(listed)[x] < multiset(all)[x]
      ensures Key(newestFirst, y) <= Key(newestFirst, x)
    {
      if Key(newestFirst, y) > Key(newestFirst, x) {
        EarlierIsListed(newestFirst, listed, all, front, x, y);
      }
    }
  }

  lemma EarlierIsListed(newestFirst: bool, listed: seq<Transaction>, all: seq<Transaction>, front: seq<Transaction>,
                        x: Transaction, y: Transaction)
    requires Sorted(newestFirst, all) && multiset(listed) <= multiset(all) && |front| <= |all| && front == all[..|front|]
    requires Timestamps(listed) == Timestamps(front) && |listed| == |front|
    requires y in listed && Key(newestFirst, y) > Key(newestFirst, x)
    ensures !(multiset(listed)[x] < multiset(all)[x])
  {
    var n, key := |front|, Key(newestFirst, x);
    var i :| 0 <= i < |listed| && listed[i] == y;
    assert Timestamps(listed)[i] == Timestamps(front)[i];
    SortedByKey(newestFirst, all);
    assert Keys(newestFirst, all)[i] <= Keys(newestFirst, all)[n - 1];
    CountUpToFront(newestFirst, key, all, n);
    forall j | 0 <= j < n ensures Keys(newestFirst, listed)[j] == Keys(newestFirst, front)[j] {
      assert Timestamps(listed)[j] == Timestamps(front)[j];
    }
    assert Keys(newestFirst, listed) == Keys(newestFirst, front);
    SameCountUpTo(newestFirst, key, listed, front);
    if multiset(listed)[x] < multiset(all)[x] {
      FewerUpTo(newestFirst, listed, all, x);
    }
  }

  /** What is listed when nothing is skipped: sorted, and the whole or its first limit entries. */
  lemma ListedIsTop(newestFirst: bool, offset: int, limit: int, indexes: seq<Index>, lists: seq<seq<Transaction>>,
                    pages: seq<seq<Transaction>>, merged: seq<Transaction>)
    requires PagesUpTo(newestFirst, offset, limit, indexes, |indexes|, lists, pages) && offset <= 0
    requires SortingOf(newestFirst, merged, Concat(pages))
    ensures limit > 0 ==> LeadsEverySorting(newestFirst, limit, indexes, First(limit, merged))
    ensures limit <= 0 ==> SortingOf(newestFirst, merged, AllMatching(indexes))
  {
    if limit > 0 {
      forall all | SortingOf(newestFirst, all, AllMatching(indexes))
        ensures Timestamps(First(limit, merged)) == Timestamps(First(limit, all))
      {
        TopOfPagesIsTopOfAll(newestFirst, limit, indexes, lists, pages, merged, all);
      }
    } else {
      assert pages == lists;
      ConcatMatches(newestFirst, lists, indexes);
    }
  }

  lemma NothingEarlier(newestFirst: bool, limit: int, indexes: seq<Index>, listed: seq<Transaction>)
    requires multiset(listed) <= multiset(AllMatching(indexes))
    requires limit > 0 ==> LeadsEverySorting(newestFirst, limit, indexes, listed)
    requires limit <= 0 ==> SortingOf(newestFirst, listed, AllMatching(indexes))
    ensures NothingEarlierLeftOut(newestFirst, listed, AllMatching(indexes))
    ensures |listed| == if 0 < limit < |AllMatching(indexes)| then limit else |AllMatching(indexes)|
  {
    if limit <= 0 {
      assert |multiset(listed)| == |multiset(AllMatching(indexes))|;
    } else {
      var all := SortingExists(newestFirst, AllMatching(indexes));
      TopLeavesLater(newestFirst, limit, listed, all);
      assert |multiset(all)| == |multiset(AllMatching(indexes))|;
      assert |listed| == |Timestamps(listed)| == |Timestamps(First(limit, all))|;
    }
  }

  lemma {:induction false} SortingExists(newestFirst: bool, txs: seq<Transaction>) returns (sorted: seq<Transaction>)
    ensures SortingOf(newestFirst, sorted, txs)
  {
    if txs == [] {
      sorted := [];
    } else {
      var n := |txs| - 1;
      var rest := SortingExists(newestFirst, txs[..n]);
      var at := PlaceExists(newestFirst, rest, txs[n], 0);
      InsertSorted(newestFirst, rest, at, txs[n]);
      assert txs == txs[..n] + [txs[n]];
      sorted := rest[..at] + [txs[n]] + rest[at..];
    }
  }

  lemma {:induction false} PlaceExists(newestFirst: bool, sorted: seq<Transaction>, tx: Transaction, from: nat) returns (at: nat)
    requires from <= |sorted| && forall j | 0 <= j < from :: Key(newestFirst, sorted[j]) <= Key(newestFirst, tx)
    ensures at <= |sorted|
    ensures forall j | 0 <= j < at :: Key(newestFirst, sorted[j]) <= Key(newestFirst, tx)
    ensures at < |sorted| ==> Key(newestFirst, tx) <= Key(newestFirst, sorted[at])
    decreases |sorted| - from
  {
    if from < |sorted| && Key(newestFirst, sorted[from]) <= Key(newestFirst, tx) {
      at := PlaceExists(newestFirst, sorted, tx, from + 1);
    } else {
      at := from;
    }
  }

  method GetTransactions(indexes: seq<Index>, offset: int, limit: int, newestFirst: bool) returns (r: Listing)
    ensures r.EmptyReply? <==> exists i | 0 <= i < |indexes| :: indexes[i].fails
    ensures r.Listed? ==> Sorted(newestFirst, r.txs) && (limit > 0 ==> |r.txs| <= limit)
    ensures r.Listed? ==> multiset(r.txs) <= multiset(AllMatching(indexes))
    ensures r.Listed? && offset <= 0 && limit > 0 ==> LeadsEverySorting(newestFirst, limit, indexes, r.txs)
    ensures r.Listed? && offset <= 0 && limit <= 0 ==> SortingOf(newestFirst, r.txs, AllMatching(indexes))
    ensures r.Listed? ==> forall i, j | 0 <= i < j < |r.txs| ::
      if newestFirst then r.txs[i].timestamp >= r.txs[j].timestamp else r.txs[i].timestamp <= r.txs[j].timestamp
    ensures r.Listed? && offset <= 0 ==> NothingEarlierLeftOut(newestFirst, r.txs, AllMatching(indexes))
    ensures r.Listed? && offset <= 0 ==>
      |r.txs| == if 0 < limit < |AllMatching(indexes)| then limit else |AllMatching(indexes)|
  {
    var read, lists, pages := ReadAll(indexes, offset, limit, newestFirst);
    if read.Err? {
      return EmptyReply;
    }
    var transactions := Sort(newestFirst, read.value);
    PagesWithin(newestFirst, offset, limit, indexes, lists, pages);
    PageWithin(transactions, 0, limit);
    if offset <= 0 {
      ListedIsTop(newestFirst, offset, limit, indexes, lists, pages, transactions);
    }
    if |transactions| > limit && limit > 0 {
      transactions := transactions[..limit];
    }
    if offset <= 0 {
      NothingEarlier(newestFirst, limit, indexes, transactions);
    }
    return Listed(transactions);
  }
}
