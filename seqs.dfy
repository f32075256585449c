/** Generic sequence operations used by the pipeline: `Array.prototype.filter`
    and the order-preserving subsequence relation it produces. */
module Seqs {

  /** `s.filter(keep)`: the elements of `s` that satisfy `keep`, in order. */
  function Filter<T>(s: seq<T>, keep: T -> bool): (r: seq<T>)
    ensures |r| <= |s|
  {
    if s == [] then []
    else (if keep(s[0]) then [s[0]] else []) + Filter(s[1..], keep)
  }

  /** The filtered list holds exactly the elements of `s` that pass the test. */
  lemma {:induction false} FilterMembers<T>(s: seq<T>, keep: T -> bool)
    ensures forall i :: 0 <= i < |Filter(s, keep)| ==> Filter(s, keep)[i] in s && keep(Filter(s, keep)[i])
    ensures forall i :: 0 <= i < |s| && keep(s[i]) ==> s[i] in Filter(s, keep)
  {
    if s != [] {
      var tail := s[1..];
      var rest := Filter(tail, keep);
      FilterMembers(tail, keep);
      var r := Filter(s, keep);
      assert r == (if keep(s[0]) then [s[0]] else []) + rest;
      forall i | 0 <= i < |r| ensures r[i] in s && keep(r[i]) {
        if keep(s[0]) && i == 0 {
          assert r[0] == s[0];
        } else {
          var m := if keep(s[0]) then i - 1 else i;
          assert r[i] == rest[m];
          assert rest[m] in tail;
        }
      }
      forall i | 0 <= i < |s| && keep(s[i]) ensures s[i] in r {
        if i > 0 {
          assert s[i] == tail[i - 1];
        }
      }
    }
  }

  lemma ConcatAssoc<T>(a: seq<T>, b: seq<T>, c: seq<T>)
    ensures a + (b + c) == (a + b) + c
  {
  }

  /** `a` is obtained from `b` by deleting elements, keeping the order of the rest. */
  predicate IsSubsequence<T(==)>(a: seq<T>, b: seq<T>)
    decreases |b|
  {
    if b == [] then a == []
    else (a != [] && a[0] == b[0] && IsSubsequence(a[1..], b[1..])) || IsSubsequence(a, b[1..])
  }

  /** No two positions of `s` carry the same key. */
  predicate DistinctKeys<T, K(==)>(s: seq<T>, key: T -> K)
  {
    forall i, j :: 0 <= i < j < |s| ==> key(s[i]) != key(s[j])
  }

  /** `rel` holds of every pair of positions, taken in order. */
  predicate Pairwise<T>(s: seq<T>, rel: (T, T) -> bool)
  {
    forall i, j :: 0 <= i < j < |s| ==> rel(s[i], s[j])
  }

  /** Filtering keeps every relation that held between the elements in order. */
  lemma {:induction false} FilterKeepsPairwise<T>(s: seq<T>, keep: T -> bool, rel: (T, T) -> bool)
    ensures Pairwise(s, rel) ==> Pairwise(Filter(s, keep), rel)
  {
    if s != [] && Pairwise(s, rel) {
      var tail := s[1..];
      PairwiseTail(s, rel);
      FilterKeepsPairwise(tail, keep, rel);
      var rest := Filter(tail, keep);
      if keep(s[0]) {
        FilterMembers(tail, keep);
        forall k | 0 <= k < |rest| ensures rel(s[0], rest[k]) {
          var j :| 0 <= j < |tail| && tail[j] == rest[k];
          assert rest[k] == s[j + 1];
        }
        PairwiseCons(s[0], rest, rel);
        assert Filter(s, keep) == [s[0]] + rest;
      } else {
        assert Filter(s, keep) == rest;
      }
    }
  }

  lemma PairwiseTail<T>(s: seq<T>, rel: (T, T) -> bool)
    requires s != [] && Pairwise(s, rel)
    ensures Pairwise(s[1..], rel)
  {
    var tail := s[1..];
    forall i, j | 0 <= i < j < |tail| ensures rel(tail[i], tail[j]) {
      assert tail[i] == s[i + 1] && tail[j] == s[j + 1];
    }
  }

  lemma PairwiseCons<T>(x: T, rest: seq<T>, rel: (T, T) -> bool)
    requires Pairwise(rest, rel)
    requires forall k :: 0 <= k < |rest| ==> rel(x, rest[k])
    ensures Pairwise([x] + rest, rel)
  {
    var r := [x] + rest;
    forall i, j | 0 <= i < j < |r| ensures rel(r[i], r[j]) {
      assert r[j] == rest[j - 1];
      if i > 0 {
        assert r[i] == rest[i - 1];
      }
    }
  }

  lemma FilterKeepsEveryPairwise<T>(s: seq<T>, keep: T -> bool)
    ensures forall rel: (T, T) -> bool :: Pairwise(s, rel) ==> Pairwise(Filter(s, keep), rel)
  {
    forall rel: (T, T) -> bool | Pairwise(s, rel) ensures Pairwise(Filter(s, keep), rel) {
      FilterKeepsPairwise(s, keep, rel);
    }
  }

  lemma {:induction false} FilterIsSubsequence<T>(s: seq<T>, keep: T -> bool)
    ensures IsSubsequence(Filter(s, keep), s)
  {
    if s != [] {
      var rest := Filter(s[1..], keep);
      FilterIsSubsequence(s[1..], keep);
      if keep(s[0]) {
        assert Filter(s, keep) == [s[0]] + rest;
        assert ([s[0]] + rest)[1..] == rest;
      } else {
        assert Filter(s, keep) == rest;
      }
    }
  }

  lemma {:induction false} FilterKeepsAll<T>(s: seq<T>, keep: T -> bool)
    ensures (forall i :: 0 <= i < |s| ==> keep(s[i])) ==> Filter(s, keep) == s
  {
    if s != [] && forall i :: 0 <= i < |s| ==> keep(s[i]) {
      assert forall i :: 0 <= i < |s| - 1 ==> s[1..][i] == s[i + 1];
      FilterKeepsAll(s[1..], keep);
      assert [s[0]] + s[1..] == s;
    }
  }

  lemma {:induction false} FilterConcat<T>(a: seq<T>, b: seq<T>, keep: T -> bool)
    ensures Filter(a + b, keep) == Filter(a, keep) + Filter(b, keep)
  {
    if a == [] {
      assert a + b == b;
    } else {
      var ab, head := a + b, if keep(a[0]) then [a[0]] else [];
      assert ab[0] == a[0];
      assert ab[1..] == a[1..] + b;
      FilterConcat(a[1..], b, keep);
      assert Filter(ab, keep) == head + (Filter(a[1..], keep) + Filter(b, keep));
      assert Filter(a, keep) == head + Filter(a[1..], keep);
    }
  }

  /** An element that fails the test adds nothing at the end of the list. */
  lemma FilterDropsLast<T>(a: seq<T>, x: T, keep: T -> bool)
    requires !keep(x)
    ensures Filter(a + [x], keep) == Filter(a, keep)
  {
    FilterConcat(a, [x], keep);
    assert [x][1..] == [];
    assert Filter([x], keep) == [];
  }

  lemma {:induction false} FilterKeepsDistinctKeys<T, K>(s: seq<T>, keep: T -> bool, key: T -> K)
    ensures DistinctKeys(s, key) ==> DistinctKeys(Filter(s, keep), key)
  {
    if s != [] && DistinctKeys(s, key) {
      var tail := s[1..];
      DistinctKeysTail(s, key);
      FilterKeepsDistinctKeys(tail, keep, key);
      var rest := Filter(tail, keep);
      if keep(s[0]) {
        FilterMembers(tail, keep);
        forall k | 0 <= k < |rest| ensures key(rest[k]) != key(s[0]) {
          var j :| 0 <= j < |tail| && tail[j] == rest[k];
          assert rest[k] == s[j + 1];
        }
        DistinctKeysCons(s[0], rest, key);
        assert Filter(s, keep) == [s[0]] + rest;
      } else {
        assert Filter(s, keep) == rest;
      }
    }
  }

  lemma DistinctKeysTail<T, K>(s: seq<T>, key: T -> K)
    requires s != [] && DistinctKeys(s, key)
    ensures DistinctKeys(s[1..], key)
  {
    var tail := s[1..];
    forall i, j | 0 <= i < j < |tail| ensures key(tail[i]) != key(tail[j]) {
      assert tail[i] == s[i + 1] && tail[j] == s[j + 1];
    }
  }

  lemma DistinctKeysCons<T, K>(x: T, rest: seq<T>, key: T -> K)
    requires DistinctKeys(rest, key)
    requires forall k :: 0 <= k < |rest| ==> key(rest[k]) != key(x)
    ensures DistinctKeys([x] + rest, key)
  {
    var r := [x] + rest;
    forall i, j | 0 <= i < j < |r| ensures key(r[i]) != key(r[j]) {
      assert r[j] == rest[j - 1];
      if i > 0 {
        assert r[i] == rest[i - 1];
      }
    }
  }

  lemma {:induction false} SubsequenceTransitive<T>(a: seq<T>, b: seq<T>, c: seq<T>)
    requires IsSubsequence(a, b) && IsSubsequence(b, c)
    ensures IsSubsequence(a, c)
    decreases |c|
  {
    if c != [] {
      if b != [] && b[0] == c[0] && IsSubsequence(b[1..], c[1..]) {
        if a != [] && a[0] == b[0] && IsSubsequence(a[1..], b[1..]) {
          SubsequenceTransitive(a[1..], b[1..], c[1..]);
        } else {
          SubsequenceTransitive(a, b[1..], c[1..]);
        }
      } else {
        SubsequenceTransitive(a, b, c[1..]);
      }
    }
  }
  /** Deleting elements never makes a sequence longer. */
  lemma {:induction false} SubsequenceNoLonger<T>(a: seq<T>, b: seq<T>)
    requires IsSubsequence(a, b)
    ensures |a| <= |b|
    decreases |b|
  {
    if b != [] {
      if a != [] && a[0] == b[0] && IsSubsequence(a[1..], b[1..]) {
        SubsequenceNoLonger(a[1..], b[1..]);
      } else {
        SubsequenceNoLonger(a, b[1..]);
      }
    }
  }

}
