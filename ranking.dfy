/** Ranking by score, as the engine and the evaluation tools do it with
    Python's `list.sort(reverse=True, key=...)` and `sorted(..., reverse=True)`:
    a stable sort into non-increasing key order, followed by a slice `[:k]`. */
module Ranking {

  /** Non-increasing in the key. */
  ghost predicate NonIncreasing<T>(s: seq<(T, int)>)
  {
    forall i, j :: 0 <= i < j < |s| ==> s[i].1 >= s[j].1
  }

  /** The entries of `s` whose key is `k`, in the order of `s`. */
  function WithKey<T>(s: seq<(T, int)>, k: int): seq<(T, int)>
    decreases |s|
  {
    if s == [] then []
    else (if s[0].1 == k then [s[0]] else []) + WithKey(s[1..], k)
  }

  /** `x` inserted into the non-increasing `s` after every entry whose key is at
      least its own, so that among equal keys it comes last. */
  function Insert<T>(x: (T, int), s: seq<(T, int)>): (r: seq<(T, int)>)
    ensures |r| == |s| + 1
    decreases |s|
  {
    if s == [] then [x]
    else if s[0].1 >= x.1 then [s[0]] + Insert(x, s[1..])
    else [x] + s
  }

  /** The stable descending sort: each entry is inserted, in turn, behind every
      entry already placed whose key is not smaller. */
  function SortDesc<T>(s: seq<(T, int)>): (r: seq<(T, int)>)
    ensures |r| == |s|
    decreases |s|
  {
    if s == [] then [] else Insert(s[|s| - 1], SortDesc(s[..|s| - 1]))
  }

  /** The items of a keyed list, in order. */
  function ItemsOf<T>(s: seq<(T, int)>): (r: seq<T>)
    ensures |r| == |s| && forall k :: 0 <= k < |s| ==> r[k] == s[k].0
  {
    seq(|s|, k requires 0 <= k < |s| => s[k].0)
  }

  /** Python's slice `s[:k]`: the first k entries, or for a negative k all but
      the last -k. */
  function Take<T>(s: seq<T>, k: int): (r: seq<T>)
    ensures r <= s
    ensures k >= 0 ==> |r| == (if k < |s| then k else |s|)
    ensures k < 0 ==> |r| == (if |s| + k > 0 then |s| + k else 0)
  {
    if k >= 0 then (if k < |s| then s[..k] else s)
    else if |s| + k > 0 then s[..|s| + k]
    else []
  }

  // ---------------------------------------------------------------------------
  // What the sort guarantees

  lemma {:induction false} WithKeyAppend<T>(s: seq<(T, int)>, t: seq<(T, int)>, k: int)
    ensures WithKey(s + t, k) == WithKey(s, k) + WithKey(t, k)
    decreases |s|
  {
    if s != [] {
      assert (s + t)[1..] == s[1..] + t;
      WithKeyAppend(s[1..], t, k);
    } else {
      assert s + t == t;
    }
  }

  lemma {:induction false} WithKeyNone<T>(s: seq<(T, int)>, k: int)
    requires forall i :: 0 <= i < |s| ==> s[i].1 != k
    ensures WithKey(s, k) == []
    decreases |s|
  {
    if s != [] {
      WithKeyNone(s[1..], k);
    }
  }

  /** Insertion adds exactly `x`. */
  lemma {:induction false} InsertPerm<T>(x: (T, int), s: seq<(T, int)>)
    ensures multiset(Insert(x, s)) == multiset(s) + multiset{x}
    decreases |s|
  {
    if s != [] && s[0].1 >= x.1 {
      InsertPerm(x, s[1..]);
      assert s == [s[0]] + s[1..];
    }
  }

  /** Insertion keeps the order non-increasing. */
  lemma {:induction false} InsertSorted<T>(x: (T, int), s: seq<(T, int)>)
    requires NonIncreasing(s)
    ensures NonIncreasing(Insert(x, s))
    decreases |s|
  {
    if s != [] && s[0].1 >= x.1 {
      InsertSorted(x, s[1..]);
      InsertPerm(x, s[1..]);
      var r := Insert(x, s[1..]);
      forall i | 0 <= i < |r| ensures s[0].1 >= r[i].1 {
        assert r[i] in multiset(r);
        if r[i] != x {
          assert r[i] in s[1..];
          var l :| 0 <= l < |s[1..]| && s[1..][l] == r[i];
          assert s[l + 1] == r[i];
        }
      }
      assert Insert(x, s) == [s[0]] + r;
    }
  }

  /** Among the entries with x's key, `x` is placed last; the others keep their
      order. */
  lemma {:induction false} InsertStable<T>(x: (T, int), s: seq<(T, int)>, k: int)
    requires NonIncreasing(s)
    ensures WithKey(Insert(x, s), k) == WithKey(s, k) + (if x.1 == k then [x] else [])
    decreases |s|
  {
    if s == [] {
      assert WithKey([x], k) == (if x.1 == k then [x] else []) + WithKey<T>([], k);
    } else if s[0].1 >= x.1 {
      InsertStable(x, s[1..], k);
      assert Insert(x, s)[1..] == Insert(x, s[1..]);
    } else {
      assert Insert(x, s) == [x] + s;
      assert ([x] + s)[1..] == s;
      if x.1 == k {
        WithKeyNone(s, k);
      } else {
        assert WithKey([x] + s, k) == WithKey(s, k);
      }
    }
  }

  /** The sort puts the keys in non-increasing order and is a permutation of its
      input. */
  lemma {:induction false} SortDescSorted<T>(s: seq<(T, int)>)
    ensures NonIncreasing(SortDesc(s))
    ensures multiset(SortDesc(s)) == multiset(s)
    decreases |s|
  {
    if s != [] {
      var s' := s[..|s| - 1];
      SortDescSorted(s');
      InsertSorted(s[|s| - 1], SortDesc(s'));
      InsertPerm(s[|s| - 1], SortDesc(s'));
      assert s == s' + [s[|s| - 1]];
    }
  }

  /** The sort is stable: the entries sharing any one key come out in the order
      they went in. */
  lemma {:induction false} SortDescStable<T>(s: seq<(T, int)>, k: int)
    ensures WithKey(SortDesc(s), k) == WithKey(s, k)
    decreases |s|
  {
    if s != [] {
      var s' := s[..|s| - 1];
      var x := s[|s| - 1];
      SortDescStable(s', k);
      SortDescSorted(s');
      InsertStable(x, SortDesc(s'), k);
      assert s == s' + [x];
      WithKeyAppend(s', [x], k);
      assert WithKey([x], k) == (if x.1 == k then [x] else []) + WithKey<T>([], k);
    }
  }

  /** A prefix of a non-increasing list is non-increasing. */
  lemma TakeSorted<T>(s: seq<(T, int)>, k: int)
    requires NonIncreasing(s)
    ensures NonIncreasing(Take(s, k))
  {
    var r := Take(s, k);
    assert forall i :: 0 <= i < |r| ==> r[i] == s[i];
  }

  // ---------------------------------------------------------------------------
  // Lists without repeats

  /** No entry occurs twice. */
  ghost predicate Distinct<T>(s: seq<T>)
  {
    forall i, j :: 0 <= i < j < |s| ==> s[i] != s[j]
  }

  lemma {:induction false} DistinctCount<T>(s: seq<T>, x: T)
    requires Distinct(s)
    ensures multiset(s)[x] <= 1
    decreases |s|
  {
    if s != [] {
      var p := s[..|s| - 1];
      assert s == p + [s[|s| - 1]];
      DistinctCount(p, x);
      forall i | 0 <= i < |p| ensures p[i] != s[|s| - 1] {
        assert s[i] == p[i];
      }
    }
  }

  lemma RepeatCount<T>(s: seq<T>, i: int, j: int)
    requires 0 <= i < j < |s| && s[i] == s[j]
    ensures multiset(s)[s[i]] >= 2
  {
    assert s == s[..j] + [s[j]] + s[j + 1..];
    assert s[..j][i] == s[i];
  }

  /** A permutation of a list without repeats has none. */
  lemma PermDistinct<T>(s: seq<T>, t: seq<T>)
    requires multiset(s) == multiset(t) && Distinct(t)
    ensures Distinct(s)
  {
    forall i, j | 0 <= i < j < |s| ensures s[i] != s[j] {
      if s[i] == s[j] {
        RepeatCount(s, i, j);
        DistinctCount(t, s[i]);
      }
    }
  }

  /** No two entries share an item. */
  ghost predicate DistinctItems<T>(s: seq<(T, int)>)
  {
    forall i, j :: 0 <= i < j < |s| ==> s[i].0 != s[j].0
  }

  /** Ranking a list whose items are distinct keeps them distinct. */
  lemma SortDescItems<T>(s: seq<(T, int)>)
    requires DistinctItems(s)
    ensures DistinctItems(SortDesc(s))
  {
    var r := SortDesc(s);
    SortDescSorted(s);
    assert Distinct(s);
    PermDistinct(r, s);
    forall i, j | 0 <= i < j < |r| ensures r[i].0 != r[j].0 {
      assert r[i] in multiset(s) && r[j] in multiset(s);
      var p :| 0 <= p < |s| && s[p] == r[i];
      var q :| 0 <= q < |s| && s[q] == r[j];
      assert p != q ==> s[p].0 != s[q].0;
      assert r[i] != r[j];
    }
  }

  /** Ranking keeps the entries, so it keeps the items. */
  lemma SortDescMembers<T>(s: seq<(T, int)>)
    ensures forall e :: e in SortDesc(s) <==> e in s
    ensures forall x :: x in ItemsOf(SortDesc(s)) <==> x in ItemsOf(s)
  {
    SortDescSorted(s);
    PermItems(SortDesc(s), s);
    PermItems(s, SortDesc(s));
  }

  lemma PermItems<T>(s: seq<(T, int)>, t: seq<(T, int)>)
    requires multiset(s) == multiset(t)
    ensures forall e :: e in s ==> e in t
    ensures forall x :: x in ItemsOf(s) ==> x in ItemsOf(t)
  {
    forall e | e in s ensures e in t {
      assert e in multiset(s);
    }
    forall x | x in ItemsOf(s) ensures x in ItemsOf(t) {
      var k :| 0 <= k < |s| && ItemsOf(s)[k] == x;
      assert s[k] in multiset(t);
      var i :| 0 <= i < |t| && t[i] == s[k];
      assert ItemsOf(t)[i] == x;
    }
  }
}
