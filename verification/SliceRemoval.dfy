/**
 Removing elements from a slice while ranging over it (spv/sync.go): the loop still reads the array the
 slice had when it began, which every removal shifts, and a removal may go past the end of the slice.
 */
module SliceRemoval {
  import opened Common

  type Hash = nat

  function NotIn(hashes: set<Hash>): Hash -> bool {
    h => h !in hashes
  }

  /** s without the given hashes. */
  function Outside(s: seq<Hash>, hashes: set<Hash>): seq<Hash> {
    Filter(s, NotIn(hashes))
  }

  /**
   The removal loop from index i on: s is the backing array of the slice as it was when the loop began, m
   the length that remains. Each removal shifts the array under the loop. None is a slice bounds panic.
   */
  function Sweep(s: seq<Hash>, i: nat, m: nat, h: Hash): Option<seq<Hash>>
    requires m <= |s|
    decreases |s| - i
  {
    if i >= |s| then Some(s[..m])
    else if s[i] != h then Sweep(s, i + 1, m, h)
    else if m < i + 1 then None
    else Sweep(s[..i] + s[i + 1..m] + s[m - 1..], i + 1, m - 1, h)
  }

  /** When the removal loop does remove h, in terms of the slice it is given. */
  predicate Removable(s: seq<Hash>, h: Hash) {
    && (forall i | 0 <= i < |s| - 1 :: !(s[i] == h && s[i + 1] == h))
    && (s != [] && s[|s| - 1] == h ==> h !in s[..|s| - 1])
  }

  /**
   What the removal loop sees of the original slice: at position pos after k removals it reads s[pos], or
   the stale last element once pos has passed the end, and a removal skips the element after it.
   */
  function Walk(s: seq<Hash>, pos: nat, k: nat, h: Hash): Option<seq<Hash>>
    requires s != []
    decreases |s| - pos
  {
    if pos >= |s| then
      if pos < |s| + k && s[|s| - 1] == h then None else Some([])
    else if s[pos] != h then Prepend([s[pos]], Walk(s, pos + 1, k, h))
    else Prepend(if pos + 1 < |s| then [s[pos + 1]] else [], Walk(s, pos + 2, k + 1, h))
  }

  function Prepend(a: seq<Hash>, b: Option<seq<Hash>>): Option<seq<Hash>> {
    match b
    case None => None
    case Some(t) => Some(a + t)
  }

  /** s is the original slice l after k removals, seen from index i on. */
  predicate Shifted(s: seq<Hash>, l: seq<Hash>, i: nat, k: nat) {
    && |s| == |l| && k <= |l| && i + k <= |l| + 1
    && forall j | i <= j < |s| :: s[j] == l[if j + k < |l| then j + k else |l| - 1]
  }

  lemma {:induction false} SweepPastEnd(s: seq<Hash>, l: seq<Hash>, i: nat, k: nat, h: Hash)
    requires l != [] && Shifted(s, l, i, k) && |l| <= i + k && i <= |l|
    ensures Sweep(s, i, |l| - k, h) ==
            if i < |l| && l[|l| - 1] == h then None else Some(s[..|l| - k])
    decreases |s| - i
  {
    if i < |s| && s[i] != h {
      SweepStale(s, l, i + 1, k, h);
    }
  }

  /** Past the end the loop only reads copies of the last element. */
  lemma {:induction false} SweepStale(s: seq<Hash>, l: seq<Hash>, i: nat, k: nat, h: Hash)
    requires l != [] && |s| == |l| && k <= |l| && i <= |s| && |l| - k <= i && l[|l| - 1] != h
    requires forall j | i <= j < |s| :: s[j] == l[|l| - 1]
    ensures Sweep(s, i, |l| - k, h) == Some(s[..|l| - k])
    decreases |s| - i
  {
    if i < |s| {
      SweepStale(s, l, i + 1, k, h);
    }
  }

  lemma {:induction false} SweepIsWalk(s: seq<Hash>, l: seq<Hash>, i: nat, k: nat, h: Hash)
    requires l != [] && Shifted(s, l, i, k) && i <= |l|
    ensures Sweep(s, i, |l| - k, h) ==
            Prepend(s[..if i < |l| - k then i else |l| - k], Walk(l, i + k, k, h))
    decreases |s| - i
  {
    var m := |l| - k;
    if i + k >= |l| {
      SweepPastEnd(s, l, i, k, h);
      assert s[..m] + [] == s[..m];
    } else if s[i] != h {
      SweepIsWalk(s, l, i + 1, k, h);
      assert s[..i + 1] == s[..i] + [l[i + k]];
      PrependTwice(s[..i], [l[i + k]], Walk(l, i + k + 1, k, h));
    } else {
      SweepRemoves(s, l, i, k, h);
    }
  }

  lemma {:induction false} SweepRemoves(s: seq<Hash>, l: seq<Hash>, i: nat, k: nat, h: Hash)
    requires l != [] && Shifted(s, l, i, k) && i + k < |l| && s[i] == h
    ensures Sweep(s, i, |l| - k, h) == Prepend(s[..i], Walk(l, i + k, k, h))
    decreases |s| - i, 0
  {
    var m := |l| - k;
    var t := s[..i] + s[i + 1..m] + s[m - 1..];
    ShiftedOnce(s, l, i, k);
    SweepIsWalk(t, l, i + 1, k + 1, h);
    var next := if i + 1 < m then [l[i + k + 1]] else [];
    assert t[..if i + 1 < m - 1 then i + 1 else m - 1] == s[..i] + next;
    PrependTwice(s[..i], next, Walk(l, i + k + 2, k + 1, h));
  }

  lemma ShiftedOnce(s: seq<Hash>, l: seq<Hash>, i: nat, k: nat)
    requires Shifted(s, l, i, k) && i + k < |l|
    ensures Shifted(s[..i] + s[i + 1..|l| - k] + s[|l| - k - 1..], l, i + 1, k + 1)
  {
  }

  lemma PrependTwice(a: seq<Hash>, b: seq<Hash>, c: Option<seq<Hash>>)
    ensures Prepend(a, Prepend(b, c)) == Prepend(a + b, c)
  {
    if c.Some? {
      assert a + (b + c.value) == (a + b) + c.value;
    }
  }

  lemma OutsideFirst(s: seq<Hash>, h: Hash, hashes: set<Hash>)
    ensures Outside([h] + s, hashes) == (if h in hashes then [] else [h]) + Outside(s, hashes)
  {
    FilterConcat([h], s, NotIn(hashes));
    assert Filter([h], NotIn(hashes)) == if h in hashes then [] else [h];
  }

  lemma OutsideHolds(s: seq<Hash>, hashes: set<Hash>, h: Hash)
    ensures h in Outside(s, hashes) <==> h in s && h !in hashes
  {
    FilterHolds(s, NotIn(hashes), h);
    assert h in multiset(Outside(s, hashes)) <==> h in multiset(s) && h !in hashes;
  }

  /** The tail of the slice from pos on is removed exactly, k removals having been made before it. */
  predicate TailRemovable(s: seq<Hash>, pos: nat, k: nat, h: Hash)
    requires s != []
  {
    && (forall i | pos <= i < |s| - 1 :: !(s[i] == h && s[i + 1] == h))
    && (s[|s| - 1] == h ==> if pos < |s| then k == 0 && h !in s[pos..|s| - 1] else |s| + k <= pos)
  }

  lemma {:induction false} WalkExactly(s: seq<Hash>, pos: nat, k: nat, h: Hash)
    requires s != [] && pos <= |s|
    ensures Walk(s, pos, k, h) == Some(Outside(s[pos..], {h})) <==> TailRemovable(s, pos, k, h)
    decreases |s| - pos
  {
    if pos == |s| {
      assert s[pos..] == [];
    } else {
      var rest := s[pos + 1..];
      assert s[pos..] == [s[pos]] + rest;
      OutsideFirst(rest, s[pos], {h});
      if s[pos] != h {
        WalkExactly(s, pos + 1, k, h);
        assert s[|s| - 1] == h && pos + 1 < |s| ==> s[pos..|s| - 1] == [s[pos]] + s[pos + 1..|s| - 1];
        SameAfter([s[pos]], Walk(s, pos + 1, k, h), Outside(rest, {h}));
      } else if pos + 1 == |s| {
        assert rest == [];
      } else {
        WalkRemoves(s, pos, k, h);
        assert Outside(s[pos..], {h}) == Outside(rest, {h});
      }
    }
  }

  lemma SameAfter(a: seq<Hash>, b: Option<seq<Hash>>, c: seq<Hash>)
    ensures Prepend(a, b) == Some(a + c) <==> b == Some(c)
  {
    if b.Some? {
      assert (a + b.value)[|a|..] == b.value;
      assert (a + c)[|a|..] == c;
    }
  }

  /** A removal before the last element: the next element is kept unseen, so it must not be h. */
  lemma {:induction false} WalkRemoves(s: seq<Hash>, pos: nat, k: nat, h: Hash)
    requires pos + 1 < |s| && s[pos] == h
    ensures Walk(s, pos, k, h) == Some(Outside(s[pos + 1..], {h})) <==> TailRemovable(s, pos, k, h)
    decreases |s| - pos, 0
  {
    var next, rest := s[pos + 1], s[pos + 2..];
    assert s[pos + 1..] == [next] + rest;
    OutsideFirst(rest, next, {h});
    assert s[pos] in s[pos..|s| - 1];
    if next == h {
      if Walk(s, pos + 2, k + 1, h).Some? {
        assert Walk(s, pos, k, h).value[0] == h;
        OutsideHolds(s[pos + 1..], {h}, h);
      }
    } else {
      WalkExactly(s, pos + 2, k + 1, h);
      SameAfter([next], Walk(s, pos + 2, k + 1, h), Outside(rest, {h}));
    }
  }

  /**
   One removal loop leaves the slice without h, and everything else in order, exactly if h never follows
   itself and a last h is the only one.
   */
  lemma SweepExactly(s: seq<Hash>, h: Hash)
    ensures Sweep(s, 0, |s|, h) == Some(Outside(s, {h})) <==> Removable(s, h)
  {
    if s != [] {
      SweepIsWalk(s, s, 0, 0, h);
      assert s[..0] + Outside(s, {h}) == Outside(s, {h});
      SameAfter(s[..0], Walk(s, 0, 0, h), Outside(s, {h}));
      WalkExactly(s, 0, 0, h);
      assert s[0..] == s && s[0..|s| - 1] == s[..|s| - 1];
    }
  }

  lemma {:induction false} FilterTwice(s: seq<Hash>, a: set<Hash>, b: set<Hash>)
    ensures Outside(Outside(s, a), b) == Outside(s, a + b)
  {
    if s != [] {
      var init, last := s[..|s| - 1], s[|s| - 1];
      FilterTwice(init, a, b);
      if last in a {
        assert Outside(s, a) == Outside(init, a);
      } else {
        FilterConcat(Outside(init, a), [last], NotIn(b));
        assert Filter([last], NotIn(b)) == if last in b then [] else [last];
        assert Outside(s, a) == Outside(init, a) + [last];
      }
    }
  }

  lemma {:induction false} OutsideAgree(s: seq<Hash>, a: set<Hash>, b: set<Hash>)
    requires forall h | h in s :: h in a <==> h in b
    ensures Outside(s, a) == Outside(s, b)
  {
    if s != [] {
      OutsideAgree(s[..|s| - 1], a, b);
    }
  }

  lemma OutsideNone(s: seq<Hash>)
    ensures Outside(s, {}) == s
  {
    if s != [] {
      OutsideNone(s[..|s| - 1]);
    }
  }

  lemma {:induction false} DistinctOutside(s: seq<Hash>, a: set<Hash>)
    requires Distinct(s)
    ensures Distinct(Outside(s, a))
  {
    if s != [] {
      var init, last := s[..|s| - 1], s[|s| - 1];
      DistinctOutside(init, a);
      OutsideHolds(init, a, last);
    }
  }

  lemma {:induction false} DistinctCounts(s: seq<Hash>, h: Hash)
    requires Distinct(s)
    ensures multiset(s)[h] == if h in s then 1 else 0
  {
    if s != [] {
      assert s == s[..|s| - 1] + [s[|s| - 1]];
      DistinctCounts(s[..|s| - 1], h);
    }
  }

  // ---------------------------------------------------------------- one loop, whatever the slice

  /**
   What a loop that does not panic makes of s: everything but h is kept in order, each loop removes some h
   while there is one, and a last element other than h stays last.
   */
  ghost predicate Swept(s: seq<Hash>, t: seq<Hash>, h: Hash) {
    && Outside(t, {h}) == Outside(s, {h})
    && multiset(t)[h] <= multiset(s)[h] && (h in s ==> multiset(t)[h] < multiset(s)[h])
    && (s == [] ==> t == [])
    && (s != [] && s[|s| - 1] != h ==> t != [] && t[|t| - 1] == s[|s| - 1])
  }

  lemma SweptKeeps(x: Hash, s: seq<Hash>, t: seq<Hash>, h: Hash)
    requires x != h && Swept(s, t, h)
    ensures Swept([x] + s, [x] + t, h)
  {
    OutsideFirst(s, x, {h});
    OutsideFirst(t, x, {h});
  }

  lemma SweptSkips(y: Hash, s: seq<Hash>, t: seq<Hash>, h: Hash)
    requires Swept(s, t, h)
    ensures Swept([h] + ([y] + s), [y] + t, h)
  {
    OutsideFirst([y] + s, h, {h});
    OutsideFirst(s, y, {h});
    OutsideFirst(t, y, {h});
  }

  /** When the loop from pos on panics, k removals having been made before it. */
  predicate PanicsFrom(s: seq<Hash>, pos: nat, k: nat, h: Hash)
    requires s != [] && pos <= |s|
  {
    s[|s| - 1] == h && (k > 0 || (pos < |s| && h in s[pos..|s| - 1]))
  }

  lemma PanicsNext(s: seq<Hash>, pos: nat, k: nat, h: Hash)
    requires pos < |s| && s[pos] != h
    ensures PanicsFrom(s, pos, k, h) <==> PanicsFrom(s, pos + 1, k, h)
  {
    assert pos + 1 < |s| ==> s[pos..|s| - 1] == [s[pos]] + s[pos + 1..|s| - 1];
  }

  lemma {:induction false} WalkOutcome(s: seq<Hash>, pos: nat, k: nat, h: Hash)
    requires s != [] && pos <= |s|
    ensures Walk(s, pos, k, h) == None <==> PanicsFrom(s, pos, k, h)
    ensures Walk(s, pos, k, h).Some? ==> Swept(s[pos..], Walk(s, pos, k, h).value, h)
    decreases |s| - pos
  {
    if pos == |s| {
      assert s[pos..] == [];
    } else if s[pos] != h {
      WalkOutcome(s, pos + 1, k, h);
      PanicsNext(s, pos, k, h);
      assert s[pos..] == [s[pos]] + s[pos + 1..];
      if Walk(s, pos + 1, k, h).Some? {
        SweptKeeps(s[pos], s[pos + 1..], Walk(s, pos + 1, k, h).value, h);
      }
    } else if pos + 1 == |s| {
      assert s[pos..] == [h] && s[pos..|s| - 1] == [];
      SweptLast(h);
    } else {
      WalkOutcomeRemoves(s, pos, k, h);
    }
  }

  lemma SweptLast(h: Hash)
    ensures Swept([h], [], h)
  {
    OutsideFirst([], h, {h});
    assert [h] + [] == [h];
  }

  lemma {:induction false} WalkOutcomeRemoves(s: seq<Hash>, pos: nat, k: nat, h: Hash)
    requires pos + 1 < |s| && s[pos] == h
    ensures Walk(s, pos, k, h) == None <==> PanicsFrom(s, pos, k, h)
    ensures Walk(s, pos, k, h).Some? ==> Swept(s[pos..], Walk(s, pos, k, h).value, h)
    decreases |s| - pos, 0
  {
    WalkOutcome(s, pos + 2, k + 1, h);
    assert s[pos] == s[pos..|s| - 1][0];
    var rest := s[pos + 2..];
    assert s[pos..] == [h] + ([s[pos + 1]] + rest) by {
      assert s[pos..] == [h] + s[pos + 1..] && s[pos + 1..] == [s[pos + 1]] + rest;
    }
    if Walk(s, pos + 2, k + 1, h).Some? {
      SweptSkips(s[pos + 1], rest, Walk(s, pos + 2, k + 1, h).value, h);
    }
  }

  /** One loop panics exactly if h is last and not only last. */
  lemma SweepOutcome(s: seq<Hash>, h: Hash)
    ensures Sweep(s, 0, |s|, h) == None <==> s != [] && s[|s| - 1] == h && h in s[..|s| - 1]
    ensures Sweep(s, 0, |s|, h).Some? ==> Swept(s, Sweep(s, 0, |s|, h).value, h)
  {
    if s != [] {
      SweepIsWalk(s, s, 0, 0, h);
      WalkOutcome(s, 0, 0, h);
      assert s[0..] == s && s[0..|s| - 1] == s[..|s| - 1];
      if Walk(s, 0, 0, h).Some? {
        assert s[..0] + Walk(s, 0, 0, h).value == Walk(s, 0, 0, h).value;
      }
    }
  }

  // ---------------------------------------------------------------- one loop after another

  /** A removal loop for each of hs in turn. */
  function SweepAll(s: seq<Hash>, hs: seq<Hash>): Option<seq<Hash>>
    decreases |hs|
  {
    if hs == [] then Some(s)
    else match Sweep(s, 0, |s|, hs[0])
         case None => None
         case Some(t) => SweepAll(t, hs[1..])
  }

  ghost function SetOf(hs: seq<Hash>): set<Hash> {
    set h | h in hs
  }

  lemma {:induction false} SweepAllPanics(s: seq<Hash>, hs: seq<Hash>)
    requires s != [] && s[|s| - 1] in hs && s[|s| - 1] in s[..|s| - 1]
    ensures SweepAll(s, hs) == None
    decreases |hs|
  {
    var last, h := s[|s| - 1], hs[0];
    SweepOutcome(s, h);
    assert hs == [h] + hs[1..];
    if h != last {
      var t := Sweep(s, 0, |s|, h).value;
      LastCount(s);
      SweptCounts(s, t, h, last);
      LastCount(t);
      SweepAllPanics(t, hs[1..]);
    }
  }

  /** The last element occurs before the end exactly if it occurs more than once. */
  lemma LastCount(s: seq<Hash>)
    requires s != []
    ensures s[|s| - 1] in s[..|s| - 1] <==> multiset(s)[s[|s| - 1]] > 1
  {
    assert s == s[..|s| - 1] + [s[|s| - 1]];
    assert s[|s| - 1] in s[..|s| - 1] <==> multiset(s[..|s| - 1])[s[|s| - 1]] > 0;
  }

  lemma SweptCounts(s: seq<Hash>, t: seq<Hash>, h: Hash, g: Hash)
    requires Swept(s, t, h) && g != h
    ensures multiset(t)[g] == multiset(s)[g]
  {
    FilterHolds(s, NotIn({h}), g);
    FilterHolds(t, NotIn({h}), g);
  }

  /**
   hs can be removed from s without a panic: every h comes as often as s has it, and if the last element
   is among them at all, it is the only one of its kind and removed last.
   */
  ghost predicate Sweepable(s: seq<Hash>, hs: seq<Hash>) {
    && (forall h | h in hs :: multiset(s)[h] <= multiset(hs)[h])
    && (s != [] && s[|s| - 1] in hs ==>
          && s[|s| - 1] == hs[|hs| - 1] && s[|s| - 1] !in hs[..|hs| - 1]
          && multiset(s)[s[|s| - 1]] == 1)
  }

  lemma CountsNext(s: seq<Hash>, hs: seq<Hash>, t: seq<Hash>, g: Hash)
    requires (forall h | h in hs :: multiset(s)[h] <= multiset(hs)[h]) && hs != [] && Swept(s, t, hs[0])
    ensures g in hs[1..] || g == hs[0] ==> multiset(t)[g] <= multiset(hs[1..])[g]
  {
    assert hs == [hs[0]] + hs[1..];
    assert multiset(hs) == multiset{hs[0]} + multiset(hs[1..]);
    assert hs[0] in multiset(s) <==> hs[0] in s;
    if g != hs[0] {
      SweptCounts(s, t, hs[0], g);
    }
  }

  lemma LastNext(s: seq<Hash>, hs: seq<Hash>, t: seq<Hash>)
    requires Sweepable(s, hs) && hs != [] && Swept(s, t, hs[0]) && t != [] && t[|t| - 1] in hs[1..]
    ensures t[|t| - 1] == hs[|hs| - 1] && t[|t| - 1] !in hs[1..|hs| - 1] && multiset(t)[t[|t| - 1]] == 1
  {
    assert hs == [hs[0]] + hs[1..];
    assert hs[0] == hs[..|hs| - 1][0];
    assert s[|s| - 1] != hs[0];
    SweptCounts(s, t, hs[0], s[|s| - 1]);
    assert hs[..|hs| - 1] == [hs[0]] + hs[1..|hs| - 1];
  }

  lemma SweepableNext(s: seq<Hash>, hs: seq<Hash>, t: seq<Hash>)
    requires Sweepable(s, hs) && hs != [] && Swept(s, t, hs[0])
    ensures Sweepable(t, hs[1..])
    ensures hs[0] !in hs[1..] ==> multiset(t)[hs[0]] == 0
  {
    var rest := hs[1..];
    forall g ensures g in rest || g == hs[0] ==> multiset(t)[g] <= multiset(rest)[g] {
      CountsNext(s, hs, t, g);
    }
    assert hs[0] !in rest ==> multiset(rest)[hs[0]] == 0;
    if t != [] && t[|t| - 1] in rest {
      LastNext(s, hs, t);
      assert rest[..|rest| - 1] == hs[1..|hs| - 1];
    }
  }

  /** Removing h and then hs is removing both at once. */
  lemma SweptThenOutside(s: seq<Hash>, t: seq<Hash>, h: Hash, rest: seq<Hash>)
    requires Swept(s, t, h) && (h !in rest ==> multiset(t)[h] == 0)
    ensures Outside(t, SetOf(rest)) == Outside(s, SetOf([h] + rest))
  {
    FilterTwice(s, {h}, SetOf(rest));
    FilterTwice(t, {h}, SetOf(rest));
    assert SetOf([h] + rest) == {h} + SetOf(rest);
    assert h in multiset(t) <==> h in t;
    OutsideAgree(t, SetOf(rest), {h} + SetOf(rest));
  }

  lemma {:induction false} SweepAllRemoves(s: seq<Hash>, hs: seq<Hash>)
    requires Sweepable(s, hs)
    ensures SweepAll(s, hs) == Some(Outside(s, SetOf(hs)))
    decreases |hs|
  {
    if hs == [] {
      OutsideNone(s);
      assert SetOf(hs) == {};
    } else {
      var h := hs[0];
      SweepOutcome(s, h);
      NoPanic(s, hs);
      var t := Sweep(s, 0, |s|, h).value;
      SweepableNext(s, hs, t);
      SweepAllRemoves(t, hs[1..]);
      SweptThenOutside(s, t, h, hs[1..]);
      assert hs == [h] + hs[1..];
    }
  }

  lemma NoPanic(s: seq<Hash>, hs: seq<Hash>)
    requires Sweepable(s, hs) && hs != []
    ensures !(s != [] && s[|s| - 1] == hs[0] && hs[0] in s[..|s| - 1])
  {
    if s != [] {
      LastCount(s);
    }
  }

  function In(hashes: set<Hash>): Hash -> bool {
    h => h in hashes
  }

  /**
   Removing, one loop each, the elements of s that are known, in the order of s and as often as s has them:
   it panics exactly if the last element is known and not the only one of its kind, and else removes exactly
   the known ones.
   */
  lemma RemovingKnownExactly(s: seq<Hash>, known: set<Hash>)
    ensures SweepAll(s, Filter(s, In(known)))
         == if s != [] && s[|s| - 1] in known && s[|s| - 1] in s[..|s| - 1] then None else Some(Outside(s, known))
  {
    var hs := Filter(s, In(known));
    forall h ensures multiset(hs)[h] == if h in known then multiset(s)[h] else 0 {
      FilterHolds(s, In(known), h);
    }
    forall h ensures h in hs <==> h in s && h in known {
      assert h in multiset(hs) <==> h in multiset(s) && h in known;
    }
    if s != [] && s[|s| - 1] in known {
      LastCount(s);
      LastCount(hs);
      if s[|s| - 1] in s[..|s| - 1] {
        SweepAllPanics(s, hs);
        return;
      }
    }
    SweepAllRemoves(s, hs);
    OutsideAgree(s, SetOf(hs), known);
  }

  /** Without duplicates no order of removal panics. */
  lemma {:induction false} RemovingDistinct(s: seq<Hash>, hs: seq<Hash>)
    requires Distinct(s)
    ensures SweepAll(s, hs) == Some(Outside(s, SetOf(hs)))
    decreases |hs|
  {
    if hs == [] {
      OutsideNone(s);
      assert SetOf(hs) == {};
    } else {
      SweepExactly(s, hs[0]);
      DistinctOutside(s, {hs[0]});
      RemovingDistinct(Outside(s, {hs[0]}), hs[1..]);
      FilterTwice(s, {hs[0]}, SetOf(hs[1..]));
      assert SetOf(hs) == {hs[0]} + SetOf(hs[1..]);
    }
  }

  /** Two slices with duplicates: one panics, in the other the copy skipped by one loop falls to the next. */
  lemma TwoDuplicates(h: Hash, other: Hash)
    requires h != other
    ensures SweepAll([h, h], [h, h]) == None
    ensures Sweep([h, h, other], 0, 3, h) == Some([h, other])
    ensures SweepAll([h, h, other], [h, h]) == Some([other])
  {
    var s, t := [h, h, other], [h, other, other];
    assert [h, h][..1] == [h];
    SweepAllPanics([h, h], [h, h]);
    assert s[..0] + s[1..3] + s[2..] == t && t[..2] == [h, other];
    assert Sweep(t, 3, 2, h) == Sweep(t, 2, 2, h) == Some([h, other]);
    SweepAllRemoves(s, [h, h]);
    assert SetOf([h, h]) == {h};
    assert s == [h] + ([h] + ([other] + []));
    OutsideFirst([h] + ([other] + []), h, {h});
    OutsideFirst([other] + [], h, {h});
    OutsideFirst([], other, {h});
    assert [other] + [] == [other];
  }
}
