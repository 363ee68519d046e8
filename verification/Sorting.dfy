/** Ordering of query results: an `order by` clause is modelled as a stable insertion sort under a comparator. */
module Sorting {

  ghost predicate Total<T(!new)>(le: (T, T) -> bool) {
    forall a, b :: le(a, b) || le(b, a)
  }

  ghost predicate Transitive<T(!new)>(le: (T, T) -> bool) {
    forall a, b, c :: le(a, b) && le(b, c) ==> le(a, c)
  }

  ghost predicate Sorted<T>(s: seq<T>, le: (T, T) -> bool) {
    forall i, j :: 0 <= i < j < |s| ==> le(s[i], s[j])
  }

  /** Places `x` before the first element it does not exceed. */
  function Insert<T>(x: T, s: seq<T>, le: (T, T) -> bool): (r: seq<T>)
    ensures |r| == |s| + 1
    ensures multiset(r) == multiset(s) + multiset{x}
  {
    if s == [] || le(x, s[0]) then [x] + s
    else
      assert s == [s[0]] + s[1..];
      [s[0]] + Insert(x, s[1..], le)
  }

  function SortBy<T>(s: seq<T>, le: (T, T) -> bool): (r: seq<T>)
    ensures |r| == |s|
    ensures multiset(r) == multiset(s)
  {
    if s == [] then []
    else
      assert s == [s[0]] + s[1..];
      Insert(s[0], SortBy(s[1..], le), le)
  }

  lemma {:induction false} InsertSorted<T(!new)>(x: T, s: seq<T>, le: (T, T) -> bool)
    requires Total(le) && Transitive(le)
    requires Sorted(s, le)
    ensures Sorted(Insert(x, s, le), le)
  {
    if s == [] || le(x, s[0]) {
    } else {
      var rest := Insert(x, s[1..], le);
      InsertSorted(x, s[1..], le);
      forall j | 0 <= j < |rest| ensures le(s[0], rest[j]) {
        assert rest[j] in multiset(s[1..]) + multiset{x};
        if rest[j] != x {
          assert rest[j] in s[1..];
        }
      }
    }
  }

  /** The sort yields its input ordered by `le`, whenever `le` is a total preorder. */
  lemma {:induction false} SortBySorted<T(!new)>(s: seq<T>, le: (T, T) -> bool)
    requires Total(le) && Transitive(le)
    ensures Sorted(SortBy(s, le), le)
  {
    if s != [] {
      SortBySorted(s[1..], le);
      InsertSorted(s[0], SortBy(s[1..], le), le);
    }
  }

  /** A contiguous slice of a sorted sequence is sorted. */
  lemma SliceSorted<T>(s: seq<T>, lo: nat, hi: nat, le: (T, T) -> bool)
    requires lo <= hi <= |s|
    requires Sorted(s, le)
    ensures Sorted(s[lo..hi], le)
  {
    forall i, j | 0 <= i < j < hi - lo ensures le(s[lo..hi][i], s[lo..hi][j]) {
      assert s[lo..hi][i] == s[lo + i] && s[lo..hi][j] == s[lo + j];
    }
  }

  /** `limit n offset k`: the rows from position `k` on, at most `n` of them. */
  function Page<T>(s: seq<T>, offset: nat, limit: nat): (r: seq<T>)
    ensures |r| <= limit
    ensures |r| == if offset >= |s| then 0 else if |s| - offset < limit then |s| - offset else limit
    ensures forall i :: 0 <= i < |r| ==> r[i] == s[offset + i]
  {
    var lo := if offset < |s| then offset else |s|;
    var hi := if lo + limit < |s| then lo + limit else |s|;
    s[lo..hi]
  }

  lemma PageSorted<T>(s: seq<T>, offset: nat, limit: nat, le: (T, T) -> bool)
    requires Sorted(s, le)
    ensures Sorted(Page(s, offset, limit), le)
  {
    var lo := if offset < |s| then offset else |s|;
    var hi := if lo + limit < |s| then lo + limit else |s|;
    SliceSorted(s, lo, hi, le);
  }

  /** No element occurs twice. */
  ghost predicate Distinct<T>(s: seq<T>) {
    forall i, j :: 0 <= i < j < |s| ==> s[i] != s[j]
  }

  lemma {:induction false} DistinctCount<T>(s: seq<T>, x: T)
    requires Distinct(s)
    ensures multiset(s)[x] <= 1
  {
    if s != [] {
      var init := s[..|s| - 1];
      assert s == init + [s[|s| - 1]];
      DistinctCount(init, x);
      if s[|s| - 1] == x {
        assert x !in init by {
          forall i | 0 <= i < |init| ensures init[i] != x {
            assert init[i] == s[i];
          }
        }
      }
    }
  }

  /** Reordering keeps a sequence free of repeats. */
  lemma DistinctPermutation<T>(a: seq<T>, b: seq<T>)
    requires multiset(a) == multiset(b)
    requires Distinct(a)
    ensures Distinct(b)
  {
    forall i, j | 0 <= i < j < |b| ensures b[i] != b[j] {
      if b[i] == b[j] {
        var x := b[i];
        assert b == b[..j] + b[j..];
        assert x in b[..j];
        assert x == b[j..][0];
        assert multiset(b)[x] == multiset(b[..j])[x] + multiset(b[j..])[x];
        DistinctCount(a, x);
        assert false;
      }
    }
  }

  /** A page of a repeat-free sequence is repeat-free. */
  lemma PageDistinct<T>(s: seq<T>, offset: nat, limit: nat)
    requires Distinct(s)
    ensures Distinct(Page(s, offset, limit))
  {
  }

  /**
   * `page` is what `order by ... limit n offset k` may return for `rows`: the page cut from some
   * ordering of all of `rows` by `le` (rows that `le` ties may come in any order).
   */
  ghost predicate SortedPageOf<T(!new)>(page: seq<T>, rows: seq<T>, le: (T, T) -> bool, offset: nat, limit: nat) {
    exists all :: multiset(all) == multiset(rows) && Sorted(all, le) && page == Page(all, offset, limit)
  }

  /** Sorting every row and then cutting the page is such a page. */
  lemma SortByPage<T(!new)>(s: seq<T>, le: (T, T) -> bool, offset: nat, limit: nat)
    requires Total(le) && Transitive(le)
    ensures SortedPageOf(Page(SortBy(s, le), offset, limit), s, le, offset, limit)
  {
    SortBySorted(s, le);
  }
}
