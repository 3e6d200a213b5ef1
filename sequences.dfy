/** Sequence operations the registries rely on: List.IndexOf, List.Remove, and the
    "no key twice" invariant, with the facts proved about them. */
module Sequences {
  /** No key occurs twice: the last key is not among the others, which are themselves
      duplicate-free. */
  predicate Distinct<K(==,!new)>(s: seq<K>) {
    |s| == 0 || (s[|s| - 1] !in s[..|s| - 1] && Distinct(s[..|s| - 1]))
  }

  /** A duplicate-free list holds no key at two positions. */
  lemma {:induction false} DistinctPairs<K(!new)>(s: seq<K>)
    requires Distinct(s)
    ensures forall i, j :: 0 <= i < j < |s| ==> s[i] != s[j]
  {
    if |s| > 0 {
      var p := s[..|s| - 1];
      DistinctPairs(p);
      forall i, j | 0 <= i < j < |s| ensures s[i] != s[j] {
        if j == |s| - 1 {
          assert s[i] == p[i];
        } else {
          assert s[i] == p[i] && s[j] == p[j];
        }
      }
    }
  }

  /** A list that holds no key at two positions is duplicate-free. */
  lemma {:induction false} PairsDistinct<K(!new)>(s: seq<K>)
    requires forall i, j :: 0 <= i < j < |s| ==> s[i] != s[j]
    ensures Distinct(s)
  {
    if |s| > 0 {
      var p := s[..|s| - 1];
      forall i, j | 0 <= i < j < |p| ensures p[i] != p[j] {
        assert p[i] == s[i] && p[j] == s[j];
      }
      PairsDistinct(p);
    }
  }

  /** List.IndexOf: the first index of `k`, or -1. */
  function IndexOf<K(==,!new)>(s: seq<K>, k: K): (i: int)
    ensures -1 <= i < |s|
    ensures 0 <= i ==> s[i] == k && k !in s[..i]
    ensures i < 0 ==> k !in s
  {
    if |s| == 0 then -1
    else if s[0] == k then 0
    else
      var j := IndexOf(s[1..], k);
      if j < 0 then -1
      else
        assert s[..j + 1] == [s[0]] + s[1..][..j];
        j + 1
  }

  /** The index a top-down scan for `k` meets first: the last index of `k`, or -1. */
  function LastIndexOf<K(==,!new)>(s: seq<K>, k: K): (i: int)
    ensures -1 <= i < |s|
    ensures 0 <= i ==> s[i] == k && k !in s[i + 1..]
    ensures i < 0 ==> k !in s
  {
    if |s| == 0 then -1
    else if s[|s| - 1] == k then |s| - 1
    else
      var j := LastIndexOf(s[..|s| - 1], k);
      assert 0 <= j ==> s[j + 1..] == s[..|s| - 1][j + 1..] + [s[|s| - 1]];
      assert j < 0 ==> s == s[..|s| - 1] + [s[|s| - 1]];
      j
  }

  /** List.Remove: drops the first occurrence of `k`, if any. */
  function RemoveFirst<K(==,!new)>(s: seq<K>, k: K): (r: seq<K>)
    ensures k !in s ==> r == s
    ensures k in s ==> |r| == |s| - 1
    ensures multiset(r) == multiset(s) - multiset{k}
    ensures forall x :: x != k ==> (x in r <==> x in s)
  {
    var i := IndexOf(s, k);
    if i < 0 then s
    else
      assert s == s[..i] + [s[i]] + s[i + 1..];
      s[..i] + s[i + 1..]
  }

  /** Reference definition for "the other keys, in their order": `s` with every
      occurrence of `k` dropped. */
  function Without<K(==,!new)>(s: seq<K>, k: K): (r: seq<K>)
    ensures forall x :: x in r <==> x in s && x != k
  {
    if |s| == 0 then []
    else (if s[0] == k then [] else [s[0]]) + Without(s[1..], k)
  }

  lemma {:induction false} WithoutAppend<K(!new)>(a: seq<K>, b: seq<K>, k: K)
    ensures Without(a + b, k) == Without(a, k) + Without(b, k)
  {
    if |a| == 0 {
      assert a + b == b;
    } else {
      assert (a + b)[1..] == a[1..] + b;
      WithoutAppend(a[1..], b, k);
    }
  }

  lemma {:induction false} WithoutAbsent<K(!new)>(s: seq<K>, k: K)
    requires k !in s
    ensures Without(s, k) == s
  {
    if |s| > 0 {
      WithoutAbsent(s[1..], k);
      assert s == [s[0]] + s[1..];
    }
  }

  /** Removing the first occurrence of `k` keeps every other key in its order. */
  lemma RemoveFirstKeepsOthers<K(!new)>(s: seq<K>, k: K)
    ensures Without(RemoveFirst(s, k), k) == Without(s, k)
  {
    var i := IndexOf(s, k);
    if 0 <= i {
      var a, b := s[..i], s[i + 1..];
      assert s == a + ([k] + b);
      assert RemoveFirst(s, k) == a + b;
      calc {
        Without(s, k);
        { WithoutAppend(a, [k] + b, k); }
        Without(a, k) + Without([k] + b, k);
        { WithoutAppend([k], b, k);
          assert Without([k], k) == [] by { assert [k][1..] == []; } }
        Without(a, k) + Without(b, k);
        { WithoutAppend(a, b, k); }
        Without(a + b, k);
      }
    }
  }

  /** On a duplicate-free list, removing the first occurrence removes the key entirely. */
  lemma RemoveFirstOfDistinct<K(!new)>(s: seq<K>, k: K)
    requires Distinct(s)
    ensures RemoveFirst(s, k) == Without(s, k)
    ensures Distinct(RemoveFirst(s, k))
    ensures k !in RemoveFirst(s, k)
  {
    DistinctPairs(s);
    var i := IndexOf(s, k);
    if i < 0 {
      WithoutAbsent(s, k);
    } else {
      var r := s[..i] + s[i + 1..];
      assert RemoveFirst(s, k) == r;
      forall a | 0 <= a < |r| ensures r[a] == s[Skip(a, i)] {
        if a < i {
          assert r[a] == s[..i][a];
        } else {
          assert r[a] == s[i + 1..][a - i];
        }
      }
      forall a | 0 <= a < |r| ensures r[a] != k {
        assert r[a] == s[Skip(a, i)];
      }
      forall a, b | 0 <= a < b < |r| ensures r[a] != r[b] {
        assert r[a] == s[Skip(a, i)] && r[b] == s[Skip(b, i)];
      }
      PairsDistinct(r);
      WithoutAbsent(r, k);
      RemoveFirstKeepsOthers(s, k);
    }
  }

  /** The index in the original list of position `a` of the list with index `i` removed. */
  function Skip(a: int, i: int): int {
    if a < i then a else a + 1
  }

  /** Appending a key that is not in a duplicate-free list keeps it duplicate-free. */
  lemma AppendFresh<K(!new)>(s: seq<K>, k: K)
    requires Distinct(s) && k !in s
    ensures Distinct(s + [k])
  {
    assert (s + [k])[..|s|] == s;
  }

  /** In a duplicate-free list, the first and the last index of an element agree. */
  lemma DistinctIndex<K(!new)>(s: seq<K>, i: int)
    requires Distinct(s) && 0 <= i < |s|
    ensures IndexOf(s, s[i]) == i && LastIndexOf(s, s[i]) == i
  {
    DistinctPairs(s);
  }
}
