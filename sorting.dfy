/** Ordering candidates by decreasing elevation. Python's
    sorted(..., key=lambda p: -p[1]) is a stable sort; np.argsort(-heights) is
    not, and the order it leaves among equal heights is not part of this
    model: both are modelled by the one stable descending sort below. */
module Sorting {

  /** Keys never increase along s. */
  predicate NonIncreasing<T>(s: seq<T>, key: T -> int)
  {
    forall i, j :: 0 <= i < j < |s| ==> key(s[i]) >= key(s[j])
  }

  /** Insert x into s in front of the first element whose key is not
      larger. */
  function Insert<T>(x: T, s: seq<T>, key: T -> int): (r: seq<T>)
    ensures multiset(r) == multiset(s) + multiset{x}
    ensures |r| == |s| + 1
    decreases |s|
  {
    if |s| == 0 || key(s[0]) <= key(x) then [x] + s
    else
      assert s == [s[0]] + s[1..];
      [s[0]] + Insert(x, s[1..], key)
  }

  /** Inserting into a non-increasing sequence keeps it non-increasing. */
  lemma {:induction false} InsertSorted<T>(x: T, s: seq<T>, key: T -> int)
    requires NonIncreasing(s, key)
    ensures NonIncreasing(Insert(x, s, key), key)
    decreases |s|
  {
    if |s| > 0 && key(s[0]) > key(x) {
      var tail := s[1..];
      assert NonIncreasing(tail, key) by {
        forall i, j | 0 <= i < j < |tail|
          ensures key(tail[i]) >= key(tail[j])
        {
          assert tail[i] == s[i + 1] && tail[j] == s[j + 1];
        }
      }
      InsertSorted(x, tail, key);
      var rest := Insert(x, tail, key);
      var r := [s[0]] + rest;
      assert s == [s[0]] + tail;
      forall k | 0 <= k < |rest|
        ensures key(rest[k]) <= key(s[0])
      {
        assert rest[k] in multiset(rest);
        if rest[k] != x {
          assert rest[k] in multiset(tail);
          var m :| 0 <= m < |tail| && tail[m] == rest[k];
          assert tail[m] == s[m + 1];
        }
      }
      forall i, j | 0 <= i < j < |r|
        ensures key(r[i]) >= key(r[j])
      {
        assert r[j] == rest[j - 1];
        if i > 0 {
          assert r[i] == rest[i - 1];
        }
      }
    }
  }

  /** Stable sort by decreasing key. */
  function SortDescending<T>(s: seq<T>, key: T -> int): (r: seq<T>)
    ensures multiset(r) == multiset(s)
    ensures NonIncreasing(r, key)
    decreases |s|
  {
    if |s| == 0 then []
    else
      assert s == [s[0]] + s[1..];
      InsertSorted(s[0], SortDescending(s[1..], key), key);
      Insert(s[0], SortDescending(s[1..], key), key)
  }

  /** Sorting leaves the length unchanged. */
  lemma SortLength<T>(s: seq<T>, key: T -> int)
    ensures |SortDescending(s, key)| == |s|
  {
    assert |multiset(SortDescending(s, key))| == |multiset(s)|;
  }

  /** Every element of the sorted sequence comes from the input. */
  lemma SortedFromInput<T>(s: seq<T>, key: T -> int, k: nat)
    requires k < |SortDescending(s, key)|
    ensures SortDescending(s, key)[k] in s
  {
    var r := SortDescending(s, key);
    assert r[k] in multiset(r);
  }

  /** A sequence that is already in non-increasing order is returned
      unchanged: a stable sort never moves an element past an equal one. */
  lemma {:induction false} SortOfSortedIsIdentity<T>(s: seq<T>, key: T -> int)
    requires NonIncreasing(s, key)
    ensures SortDescending(s, key) == s
    decreases |s|
  {
    if |s| > 0 {
      var rest := s[1..];
      assert NonIncreasing(rest, key) by {
        forall i, j | 0 <= i < j < |rest|
          ensures key(rest[i]) >= key(rest[j])
        {
          assert rest[i] == s[i + 1] && rest[j] == s[j + 1];
        }
      }
      SortOfSortedIsIdentity(rest, key);
      assert |rest| == 0 || key(rest[0]) <= key(s[0]) by {
        if |rest| > 0 {
          assert rest[0] == s[1];
        }
      }
      assert [s[0]] + rest == s;
    }
  }
  /** No element occurs twice. */
  predicate Distinct<T(==)>(s: seq<T>)
  {
    forall a, b :: 0 <= a < b < |s| ==> s[a] != s[b]
  }

  /** In a sequence without repetitions every element occurs at most once. */
  lemma {:induction false} DistinctCount<T>(s: seq<T>, x: T)
    requires Distinct(s)
    ensures multiset(s)[x] <= 1
  {
    if |s| > 0 {
      var tail := s[1..];
      assert s == [s[0]] + tail;
      assert Distinct(tail) by {
        forall a, b | 0 <= a < b < |tail|
          ensures tail[a] != tail[b]
        {
          assert tail[a] == s[a + 1] && tail[b] == s[b + 1];
        }
      }
      DistinctCount(tail, x);
      assert x == s[0] ==> x !in tail by {
        forall k | 0 <= k < |tail|
          ensures tail[k] != s[0]
        {
          assert tail[k] == s[k + 1];
        }
      }
    }
  }

  /** Two equal elements at different places occur twice. */
  lemma RepeatCount<T>(s: seq<T>, a: nat, b: nat)
    requires a < b < |s|
    ensures s[a] == s[b] ==> multiset(s)[s[a]] >= 2
  {
    var front, back := s[..b], s[b..];
    assert s == front + back;
    assert front[a] == s[a] && back[0] == s[b];
    assert s[a] in multiset(front) && s[b] in multiset(back);
  }

  /** A permutation of a sequence without repetitions has none either. */
  lemma PermutationKeepsDistinct<T>(s: seq<T>, r: seq<T>)
    requires multiset(r) == multiset(s) && Distinct(s)
    ensures Distinct(r)
  {
    forall a, b | 0 <= a < b < |r|
      ensures r[a] != r[b]
    {
      DistinctCount(s, r[a]);
      RepeatCount(r, a, b);
    }
  }
}
