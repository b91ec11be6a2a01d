/** A stable insertion sort under a total preorder: the `ordering = ['language']`
    of translations, and, on a descending integer key, the
    `ordering = ['-frequency']` of collocations and the
    `sorted(..., reverse=True)` behind `Counter.most_common`. */
module Sorting {
  import opened Seqs

  /** `before(a, b)`: `a` may be listed ahead of `b`. Any two elements are
      comparable, and the relation is transitive. */
  ghost predicate TotalPreorder<T(!new)>(before: (T, T) -> bool) {
    && (forall a, b :: before(a, b) || before(b, a))
    && (forall a, b, c :: before(a, b) && before(b, c) ==> before(a, c))
  }

  predicate SortedBy<T>(s: seq<T>, before: (T, T) -> bool) {
    forall i, j :: 0 <= i < j < |s| ==> before(s[i], s[j])
  }

  /** Inserts `x` after every leading element that may precede it, so that
      equivalent elements keep their arrival order. */
  function Insert<T(==)>(x: T, s: seq<T>, before: (T, T) -> bool): (r: seq<T>)
    ensures |r| == |s| + 1
    ensures multiset(r) == multiset(s) + multiset{x}
  {
    if s == [] || !before(s[0], x) then [x] + s
    else
      assert s == [s[0]] + s[1..];
      [s[0]] + Insert(x, s[1..], before)
  }

  /** Every element of an insertion is the inserted one or was there before. */
  lemma InsertElem<T>(x: T, s: seq<T>, before: (T, T) -> bool, y: T)
    ensures y in Insert(x, s, before) <==> y == x || y in s
  {
    assert y in Insert(x, s, before) <==> y in multiset(Insert(x, s, before));
  }

  /** Insertion keeps a sorted list sorted. */
  lemma {:induction false} InsertSorted<T(!new)>(x: T, s: seq<T>, before: (T, T) -> bool)
    requires TotalPreorder(before) && SortedBy(s, before)
    ensures SortedBy(Insert(x, s, before), before)
  {
    var r := Insert(x, s, before);
    if s == [] || !before(s[0], x) {
      forall j | 1 <= j < |r| ensures before(x, r[j]) {
        assert r[j] == s[j - 1];
        if j > 1 {
          assert before(s[0], s[j - 1]);
        }
      }
    } else {
      var t := Insert(x, s[1..], before);
      InsertSorted(x, s[1..], before);
      assert r == [s[0]] + t;
      forall i, j | 0 <= i < j < |r| ensures before(r[i], r[j]) {
        if i == 0 {
          assert r[j] == t[j - 1] && t[j - 1] in t;
          if r[j] != x {
            InsertElem(x, s[1..], before, r[j]);
            assert r[j] in s[1..];
            var k :| 0 <= k < |s[1..]| && s[1..][k] == r[j];
            assert s[k + 1] == r[j];
          }
        } else {
          assert r[i] == t[i - 1] && r[j] == t[j - 1];
        }
      }
    }
  }

  /** Inserting a new element into a list without repetitions repeats nothing. */
  lemma {:induction false} InsertNoDup<T>(x: T, s: seq<T>, before: (T, T) -> bool)
    requires NoDup(s) && x !in s
    ensures NoDup(Insert(x, s, before))
  {
    if s != [] && before(s[0], x) {
      var t := Insert(x, s[1..], before);
      InsertNoDup(x, s[1..], before);
      InsertElem(x, s[1..], before, s[0]);
      assert s[0] !in s[1..];
      var r := [s[0]] + t;
      forall i, j | 0 <= i < j < |r| ensures r[i] != r[j] {
        if i == 0 {
          assert r[j] == t[j - 1] && t[j - 1] in t;
        } else {
          assert r[i] == t[i - 1] && r[j] == t[j - 1];
        }
      }
    }
  }

  /** Insertion sort, taking the elements of `s` in order. */
  function SortBy<T(==,!new)>(s: seq<T>, before: (T, T) -> bool): (r: seq<T>)
    requires TotalPreorder(before)
    ensures |r| == |s|
    ensures multiset(r) == multiset(s)
    ensures SortedBy(r, before)
    ensures NoDup(s) ==> NoDup(r)
  {
    if s == [] then []
    else
      var init, last := s[..|s| - 1], s[|s| - 1];
      assert s == init + [last];
      var sortedInit := SortBy(init, before);
      InsertSorted(last, sortedInit, before);
      if NoDup(s) then
        assert last !in multiset(sortedInit);
        InsertNoDup(last, sortedInit, before);
        Insert(last, sortedInit, before)
      else
        Insert(last, sortedInit, before)
  }

  predicate SortedDesc<T>(s: seq<T>, key: T -> int) {
    forall i, j :: 0 <= i < j < |s| ==> key(s[i]) >= key(s[j])
  }

  /** The sort on a descending integer key, equal keys in arrival order. */
  function SortDesc<T(==,!new)>(s: seq<T>, key: T -> int): (r: seq<T>)
    ensures |r| == |s|
    ensures multiset(r) == multiset(s)
    ensures SortedDesc(r, key)
    ensures NoDup(s) ==> NoDup(r)
  {
    var before := (a: T, b: T) => key(a) >= key(b);
    var r := SortBy(s, before);
    assert forall i, j :: 0 <= i < j < |r| ==> before(r[i], r[j]);
    r
  }
}
