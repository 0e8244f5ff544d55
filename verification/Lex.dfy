/** Byte strings in the order in which the flat store keeps its keys. */
module Lex {

  type byte = n: nat | n < 256

  type Bytes = seq<byte>

  /** Lexicographic order: a proper prefix comes first. */
  predicate Less(a: Bytes, b: Bytes) {
    if |b| == 0 then false
    else if |a| == 0 then true
    else a[0] < b[0] || (a[0] == b[0] && Less(a[1..], b[1..]))
  }

  predicate AtOrAbove(a: Bytes, low: Bytes) {
    !Less(a, low)
  }

  lemma {:induction false} Irreflexive(a: Bytes)
    ensures !Less(a, a)
  {
    if |a| > 0 {
      Irreflexive(a[1..]);
    }
  }

  lemma {:induction false} Transitive(a: Bytes, b: Bytes, c: Bytes)
    requires Less(a, b) && Less(b, c)
    ensures Less(a, c)
  {
    if |a| > 0 && a[0] == b[0] && b[0] == c[0] {
      Transitive(a[1..], b[1..], c[1..]);
    }
  }

  lemma {:induction false} Total(a: Bytes, b: Bytes)
    ensures Less(a, b) || a == b || Less(b, a)
  {
    if |a| > 0 && |b| > 0 && a[0] == b[0] {
      Total(a[1..], b[1..]);
      if a[1..] == b[1..] {
        assert a == [a[0]] + a[1..] && b == [b[0]] + b[1..];
      }
    }
  }

  /** A common prefix does not affect the order. */
  lemma {:induction false} CommonPrefix(p: Bytes, a: Bytes, b: Bytes)
    ensures Less(p + a, p + b) <==> Less(a, b)
  {
    if |p| == 0 {
      assert p + a == a && p + b == b;
    } else {
      CommonPrefix(p[1..], a, b);
      assert (p + a)[1..] == p[1..] + a && (p + b)[1..] == p[1..] + b;
    }
  }

  lemma PrefixFirst(p: Bytes, k: Bytes)
    requires p <= k
    ensures AtOrAbove(k, p)
  {
    CommonPrefix(p, k[|p|..], []);
    assert p + k[|p|..] == k && p + [] == p;
  }

  /** The keys with a given prefix are contiguous. */
  lemma {:induction false} PrefixConvex(p: Bytes, b: Bytes, c: Bytes)
    requires p <= c && AtOrAbove(b, p) && Less(b, c)
    ensures p <= b
  {
    if |p| > 0 {
      assert c[0] == p[0];
      assert |b| > 0 && b[0] == p[0];
      assert p[1..] <= c[1..];
      PrefixConvex(p[1..], b[1..], c[1..]);
      assert p == [p[0]] + p[1..] && b == [b[0]] + b[1..];
    }
  }

  ghost predicate Ascending(s: seq<Bytes>) {
    forall i, j | 0 <= i < j < |s| :: Less(s[i], s[j])
  }

  /** The least element of a non-empty finite set of byte strings. */
  lemma HasLeast(s: set<Bytes>) returns (m: Bytes)
    requires s != {}
    ensures m in s && forall x | x in s :: AtOrAbove(x, m)
    decreases |s|
  {
    var a :| a in s;
    if s == {a} {
      Irreflexive(a);
      m := a;
    } else {
      var rest := s - {a};
      assert s == rest + {a};
      var m' := HasLeast(rest);
      if Less(a, m') {
        m := a;
        Irreflexive(a);
        forall x | x in s ensures AtOrAbove(x, m) {
          if x in rest && Less(x, a) {
            Transitive(x, a, m');
          }
        }
      } else {
        m := m';
      }
    }
  }

  /** An ascending sequence is determined by its elements. */
  lemma {:induction false} AscendingUnique(s: seq<Bytes>, t: seq<Bytes>)
    requires Ascending(s) && Ascending(t) && forall x :: x in s <==> x in t
    ensures s == t
  {
    assert |s| > 0 ==> s[0] in t;
    assert |t| > 0 ==> t[0] in s;
    if |s| > 0 && |t| > 0 {
      LeastIsFirst(s, t);
      forall x ensures x in s[1..] <==> x in t[1..] {
        InTail(s, x);
        InTail(t, x);
      }
      AscendingUnique(s[1..], t[1..]);
      assert s == [s[0]] + s[1..] && t == [t[0]] + t[1..];
    }
  }

  lemma LeastIsFirst(s: seq<Bytes>, t: seq<Bytes>)
    requires Ascending(s) && Ascending(t) && |s| > 0 && |t| > 0 && forall x :: x in s <==> x in t
    ensures s[0] == t[0]
  {
    assert s[0] in t && t[0] in s;
    var i :| 0 <= i < |t| && t[i] == s[0];
    var j :| 0 <= j < |s| && s[j] == t[0];
    if i > 0 && j > 0 {
      Transitive(s[0], t[0], s[0]);
      Irreflexive(s[0]);
    }
  }

  lemma InTail(s: seq<Bytes>, x: Bytes)
    requires Ascending(s) && |s| > 0
    ensures x in s[1..] <==> x in s && x != s[0]
  {
    Irreflexive(s[0]);
  }
}
