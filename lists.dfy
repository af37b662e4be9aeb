/**
 * The array operations the list components share: `filter`, a stable sort
 * by a comparison (`Array.prototype.sort` is stable), keeping the first
 * element per key, and the code-point order of strings.
 */
module Lists {

  // ---------------------------------------------------------------- filter

  /** `s.filter(keep)`. */
  function Filter<T>(s: seq<T>, keep: T -> bool): (r: seq<T>)
    ensures |r| <= |s|
  {
    if s == [] then []
    else Filter(s[..|s| - 1], keep) + (if keep(s[|s| - 1]) then [s[|s| - 1]] else [])
  }

  /** What the filter keeps: exactly the elements that pass. */
  lemma {:induction false} FilterMembers<T>(s: seq<T>, keep: T -> bool, x: T)
    ensures x in Filter(s, keep) <==> x in s && keep(x)
    decreases |s|
  {
    if s != [] {
      FilterMembers(s[..|s| - 1], keep, x);
      assert s == s[..|s| - 1] + [s[|s| - 1]];
    }
  }

  /** A filter that keeps everything is the identity. */
  lemma {:induction false} FilterAll<T>(s: seq<T>, keep: T -> bool)
    requires forall i :: 0 <= i < |s| ==> keep(s[i])
    ensures Filter(s, keep) == s
    decreases |s|
  {
    if s != [] {
      var front := s[..|s| - 1];
      assert forall i :: 0 <= i < |front| ==> keep(front[i]) by {
        forall i | 0 <= i < |front| ensures keep(front[i]) {
          assert front[i] == s[i];
        }
      }
      FilterAll(front, keep);
      assert keep(s[|s| - 1]);
      assert front + [s[|s| - 1]] == s;
    }
  }

  /** `r` is `s` with some elements left out and the rest in order. */
  predicate SubsequenceOf<T(==)>(r: seq<T>, s: seq<T>)
    decreases |s|
  {
    if r == [] then true
    else if s == [] then false
    else if r[|r| - 1] == s[|s| - 1] then SubsequenceOf(r[..|r| - 1], s[..|s| - 1])
    else SubsequenceOf(r, s[..|s| - 1])
  }

  lemma {:induction false} SubsequenceOfExtend<T>(r: seq<T>, s: seq<T>, x: T)
    requires SubsequenceOf(r, s)
    ensures SubsequenceOf(r, s + [x])
    decreases |s|, 1
  {
    assert (s + [x])[..|s|] == s;
    if r != [] && r[|r| - 1] == x {
      SubsequenceOfDropLast(r, s);
    }
  }

  lemma {:induction false} SubsequenceOfDropLast<T>(r: seq<T>, s: seq<T>)
    requires r != [] && SubsequenceOf(r, s)
    ensures SubsequenceOf(r[..|r| - 1], s)
    decreases |s|, 0
  {
    var s' := s[..|s| - 1];
    assert s' + [s[|s| - 1]] == s;
    if r[|r| - 1] == s[|s| - 1] {
      SubsequenceOfExtend(r[..|r| - 1], s', s[|s| - 1]);
    } else {
      SubsequenceOfDropLast(r, s');
      SubsequenceOfExtend(r[..|r| - 1], s', s[|s| - 1]);
    }
  }

  /** Filtering keeps the relative order: the result is a subsequence of the input. */
  lemma {:induction false} FilterOrder<T>(s: seq<T>, keep: T -> bool)
    ensures SubsequenceOf(Filter(s, keep), s)
    decreases |s|
  {
    if s != [] {
      var front := s[..|s| - 1];
      FilterOrder(front, keep);
      if keep(s[|s| - 1]) {
        var r := Filter(s, keep);
        assert r[..|r| - 1] == Filter(front, keep);
      } else {
        assert Filter(s, keep) == Filter(front, keep);
        SubsequenceOfExtend(Filter(front, keep), front, s[|s| - 1]);
        assert front + [s[|s| - 1]] == s;
      }
    }
  }

  // ---------------------------------------------------------------- sorting

  /** `le` is total and transitive: a comparison `sort` can use. */
  ghost predicate TotalPreorder<T(!new)>(le: (T, T) -> bool)
  {
    (forall a, b :: le(a, b) || le(b, a))
    && (forall a, b, c :: le(a, b) && le(b, c) ==> le(a, c))
  }

  predicate SortedBy<T>(s: seq<T>, le: (T, T) -> bool)
  {
    forall i, j :: 0 <= i < j < |s| ==> le(s[i], s[j])
  }

  /** Put `x` after every element of `s` that it does not precede. */
  function Insert<T>(x: T, s: seq<T>, le: (T, T) -> bool): (r: seq<T>)
    ensures multiset(r) == multiset(s) + multiset{x}
  {
    if s == [] || le(s[|s| - 1], x) then s + [x]
    else
      assert s == s[..|s| - 1] + [s[|s| - 1]];
      Insert(x, s[..|s| - 1], le) + [s[|s| - 1]]
  }

  lemma {:induction false} InsertSorted<T(!new)>(x: T, s: seq<T>, le: (T, T) -> bool)
    requires TotalPreorder(le) && SortedBy(s, le)
    ensures SortedBy(Insert(x, s, le), le)
    ensures forall i :: 0 <= i < |Insert(x, s, le)| ==> Insert(x, s, le)[i] == x || Insert(x, s, le)[i] in s
    decreases |s|
  {
    if s != [] && !le(s[|s| - 1], x) {
      var front := s[..|s| - 1];
      var last := s[|s| - 1];
      InsertSorted(x, front, le);
      var r := Insert(x, front, le);
      assert le(x, last);
      forall i | 0 <= i < |r| ensures le(r[i], last) {
        if r[i] != x {
          assert r[i] in front;
          var k :| 0 <= k < |front| && front[k] == r[i];
          assert s[k] == r[i];
        }
      }
    }
  }

  /** Stable insertion sort: the order `sort` produces with this comparison. */
  function SortBy<T>(s: seq<T>, le: (T, T) -> bool): (r: seq<T>)
    ensures multiset(r) == multiset(s)
  {
    if s == [] then []
    else
      assert s == s[..|s| - 1] + [s[|s| - 1]];
      Insert(s[|s| - 1], SortBy(s[..|s| - 1], le), le)
  }

  /** The sorted list is in order, and a permutation of the input. */
  lemma {:induction false} SortBySorted<T(!new)>(s: seq<T>, le: (T, T) -> bool)
    requires TotalPreorder(le)
    ensures SortedBy(SortBy(s, le), le)
    ensures multiset(SortBy(s, le)) == multiset(s)
    decreases |s|
  {
    if s != [] {
      SortBySorted(s[..|s| - 1], le);
      InsertSorted(s[|s| - 1], SortBy(s[..|s| - 1], le), le);
    }
  }

  /** A value at two positions is counted twice. */
  lemma TwiceCounted<T>(b: seq<T>, i: nat, j: nat)
    requires i < j < |b| && b[i] == b[j]
    ensures multiset(b)[b[i]] >= 2
  {
    assert b == b[..i] + [b[i]] + b[i + 1..j] + [b[j]] + b[j + 1..];
  }

  /** In a sequence without repeats every value is counted at most once. */
  lemma {:induction false} DistinctCountedOnce<T>(a: seq<T>, x: T)
    requires forall i, j :: 0 <= i < j < |a| ==> a[i] != a[j]
    ensures multiset(a)[x] <= 1
    decreases |a|
  {
    if a != [] {
      var front := a[..|a| - 1];
      DistinctCountedOnce(front, x);
      assert a == front + [a[|a| - 1]];
      assert a[|a| - 1] !in front;
    }
  }

  /** A permutation of a sequence without repeats has none either. */
  lemma PermutationKeepsDistinct<T>(a: seq<T>, b: seq<T>)
    requires multiset(a) == multiset(b)
    requires forall i, j :: 0 <= i < j < |a| ==> a[i] != a[j]
    ensures forall i, j :: 0 <= i < j < |b| ==> b[i] != b[j]
  {
    forall i, j | 0 <= i < j < |b| ensures b[i] != b[j] {
      if b[i] == b[j] {
        TwiceCounted(b, i, j);
        DistinctCountedOnce(a, b[i]);
      }
    }
  }

  // ---------------------------------------------------------------- code-point order of strings

  /** `a` is `b` or comes before it, comparing code points from the left. */
  predicate StrLe(a: string, b: string)
  {
    if a == [] then true
    else if b == [] then false
    else if a[0] != b[0] then a[0] < b[0]
    else StrLe(a[1..], b[1..])
  }

  lemma {:induction false} StrLeTotal(a: string, b: string)
    ensures StrLe(a, b) || StrLe(b, a)
    decreases |a|
  {
    if a != [] && b != [] && a[0] == b[0] {
      StrLeTotal(a[1..], b[1..]);
    }
  }

  lemma {:induction false} StrLeTrans(a: string, b: string, c: string)
    requires StrLe(a, b) && StrLe(b, c)
    ensures StrLe(a, c)
    decreases |a|
  {
    if a != [] && b != [] && c != [] && a[0] == b[0] && b[0] == c[0] {
      StrLeTrans(a[1..], b[1..], c[1..]);
    }
  }

  lemma {:induction false} StrLeAntisymmetric(a: string, b: string)
    requires StrLe(a, b) && StrLe(b, a)
    ensures a == b
    decreases |a|
  {
    if a != [] && b != [] {
      StrLeAntisymmetric(a[1..], b[1..]);
      assert a == [a[0]] + a[1..] && b == [b[0]] + b[1..];
    }
  }

  /** Code-point order is a total order on strings. */
  lemma StrLeTotalPreorder()
    ensures TotalPreorder((a: string, b: string) => StrLe(a, b))
  {
    forall a: string, b: string ensures StrLe(a, b) || StrLe(b, a) {
      StrLeTotal(a, b);
    }
    forall a: string, b: string, c: string | StrLe(a, b) && StrLe(b, c) ensures StrLe(a, c) {
      StrLeTrans(a, b, c);
    }
  }

  // ---------------------------------------------------------------- first element per key

  /** Keep the first element for each key, in input order. */
  function DistinctBy<T, K(==)>(s: seq<T>, key: T -> K): seq<T>
  {
    if s == [] then []
    else
      var front := DistinctBy(s[..|s| - 1], key);
      if exists i :: 0 <= i < |front| && key(front[i]) == key(s[|s| - 1]) then front else front + [s[|s| - 1]]
  }

  /** The keys of `s`, in order. */
  function Keys<T, K>(s: seq<T>, key: T -> K): (r: seq<K>)
    ensures |r| == |s|
    ensures forall i :: 0 <= i < |s| ==> r[i] == key(s[i])
  {
    seq(|s|, i requires 0 <= i < |s| => key(s[i]))
  }

  /** No two elements of `s` share a key. */
  ghost predicate UniqueKeys<T, K>(s: seq<T>, key: T -> K)
  {
    forall i, j :: 0 <= i < j < |s| ==> key(s[i]) != key(s[j])
  }

  /** No two kept elements share a key. */
  lemma {:induction false} DistinctByUnique<T, K>(s: seq<T>, key: T -> K)
    ensures UniqueKeys(DistinctBy(s, key), key)
    decreases |s|
  {
    if s != [] {
      var f := DistinctBy(s[..|s| - 1], key);
      DistinctByUnique(s[..|s| - 1], key);
      var last := s[|s| - 1];
      if !exists i :: 0 <= i < |f| && key(f[i]) == key(last) {
        var r := f + [last];
        assert DistinctBy(s, key) == r;
        forall i, j | 0 <= i < j < |r| ensures key(r[i]) != key(r[j]) {
          if j == |f| {
            assert r[i] == f[i] && r[j] == last;
            assert !(0 <= i < |f| && key(f[i]) == key(last));
          } else {
            assert r[i] == f[i] && r[j] == f[j];
            assert key(f[i]) != key(f[j]);
          }
        }
      } else {
        assert DistinctBy(s, key) == f;
      }
    }
  }

  /** Every key of the input is kept, by an element of the input, in input order. */
  lemma {:induction false} DistinctByOrder<T, K>(s: seq<T>, key: T -> K)
    ensures SubsequenceOf(DistinctBy(s, key), s)
    decreases |s|
  {
    if s != [] {
      var front := s[..|s| - 1];
      var last := s[|s| - 1];
      DistinctByOrder(front, key);
      var f := DistinctBy(front, key);
      assert front + [last] == s;
      if exists i :: 0 <= i < |f| && key(f[i]) == key(last) {
        SubsequenceOfExtend(f, front, last);
      } else {
        var r := f + [last];
        assert r[..|r| - 1] == f;
      }
    }
  }

  /** A subsequence only holds elements of the sequence. */
  lemma {:induction false} SubsequenceMembers<T>(r: seq<T>, s: seq<T>)
    requires SubsequenceOf(r, s)
    ensures forall x :: x in r ==> x in s
    decreases |s|
  {
    if r != [] {
      var s' := s[..|s| - 1];
      if r[|r| - 1] == s[|s| - 1] {
        SubsequenceMembers(r[..|r| - 1], s');
        assert r == r[..|r| - 1] + [r[|r| - 1]];
      } else {
        SubsequenceMembers(r, s');
      }
    }
  }

  lemma {:induction false} DistinctByCovers<T, K>(s: seq<T>, key: T -> K, x: T)
    requires x in s
    ensures exists i :: 0 <= i < |DistinctBy(s, key)| && key(DistinctBy(s, key)[i]) == key(x)
    decreases |s|
  {
    var front := s[..|s| - 1];
    var last := s[|s| - 1];
    var f := DistinctBy(front, key);
    if x != last {
      assert x in front;
      DistinctByCovers(front, key, x);
      var i :| 0 <= i < |f| && key(f[i]) == key(x);
      assert DistinctBy(s, key)[i] == f[i];
    } else if exists i :: 0 <= i < |f| && key(f[i]) == key(last) {
      assert DistinctBy(s, key) == f;
    } else {
      assert DistinctBy(s, key) == f + [last];
      assert DistinctBy(s, key)[|f|] == last;
    }
  }

  /** Each element kept is the first of its key in the input. */
  lemma {:induction false} DistinctByFirst<T, K>(s: seq<T>, key: T -> K, j: nat)
    requires j < |s|
    requires forall k :: 0 <= k < j ==> key(s[k]) != key(s[j])
    ensures s[j] in DistinctBy(s, key)
    decreases |s|
  {
    var front := s[..|s| - 1];
    if j < |s| - 1 {
      DistinctByFirst(front, key, j);
    } else {
      var f := DistinctBy(front, key);
      DistinctByOrder(front, key);
      SubsequenceMembers(f, front);
      forall i | 0 <= i < |f| ensures key(f[i]) != key(s[j]) {
        assert f[i] in front;
        var k :| 0 <= k < |front| && front[k] == f[i];
        assert s[k] == f[i];
      }
      assert DistinctBy(s, key) == f + [s[j]];
    }
  }

  /** Keeping the first per key a second time changes nothing. */
  lemma {:induction false} DistinctByIdempotent<T, K>(s: seq<T>, key: T -> K)
    requires UniqueKeys(s, key)
    ensures DistinctBy(s, key) == s
    decreases |s|
  {
    if s != [] {
      var front := s[..|s| - 1];
      DistinctByIdempotent(front, key);
      assert !(exists i :: 0 <= i < |front| && key(front[i]) == key(s[|s| - 1]));
    }
  }

  lemma DistinctByTwice<T, K>(s: seq<T>, key: T -> K)
    ensures DistinctBy(DistinctBy(s, key), key) == DistinctBy(s, key)
  {
    DistinctByUnique(s, key);
    DistinctByIdempotent(DistinctBy(s, key), key);
  }
}
