/**
 * The sorts behind SortUtil. Their comparators (by name, by due date, by
 * numeric value, all locale- or number-format dependent) are not part of this
 * model and are taken as given relations; the sort itself is modelled as what
 * Collections.sort is: a stable sort by that relation. Here it is written as
 * an insertion sort.
 */
module Sorting {

  /** The relation is total and transitive: what a consistent Comparator provides. */
  ghost predicate TotalPreorder<T(!new)>(leq: (T, T) -> bool)
  {
    && (forall a, b :: leq(a, b) || leq(b, a))
    && (forall a, b, c :: leq(a, b) && leq(b, c) ==> leq(a, c))
  }

  /** Every element is at or before every later one. */
  ghost predicate SortedBy<T>(s: seq<T>, leq: (T, T) -> bool)
  {
    forall i, j :: 0 <= i < j < |s| ==> leq(s[i], s[j])
  }

  /** Puts x before the first element it does not come after, so that equal elements keep their order. */
  function Insert<T>(x: T, s: seq<T>, leq: (T, T) -> bool): (r: seq<T>)
    ensures multiset(r) == multiset(s) + multiset{x}
  {
    if s == [] then [x]
    else if leq(x, s[0]) then [x] + s
    else
      assert s == [s[0]] + s[1..];
      [s[0]] + Insert(x, s[1..], leq)
  }

  /** The list sorted by leq (Collections.sort with the corresponding comparator). */
  function SortBy<T>(s: seq<T>, leq: (T, T) -> bool): (r: seq<T>)
    ensures multiset(r) == multiset(s)
    ensures |r| == |s|
  {
    if s == [] then []
    else
      assert s == [s[0]] + s[1..];
      Insert(s[0], SortBy(s[1..], leq), leq)
  }

  lemma {:induction false} InsertSorted<T(!new)>(x: T, s: seq<T>, leq: (T, T) -> bool)
    requires TotalPreorder(leq)
    requires SortedBy(s, leq)
    ensures SortedBy(Insert(x, s, leq), leq)
    decreases |s|
  {
    if s != [] && !leq(x, s[0]) {
      var tail := s[1..];
      assert SortedBy(tail, leq);
      InsertSorted(x, tail, leq);
      var ins := Insert(x, tail, leq);
      assert leq(s[0], x);
      forall k | 0 <= k < |ins| ensures leq(s[0], ins[k]) {
        assert ins[k] in multiset(ins);
        assert ins[k] in multiset(tail) || ins[k] == x;
        if ins[k] != x {
          var m :| 0 <= m < |tail| && tail[m] == ins[k];
          assert s[m + 1] == tail[m];
        }
      }
    } else if s != [] {
      forall j | 0 < j <= |s| ensures leq(x, ([x] + s)[j]) {
        assert ([x] + s)[j] == s[j - 1];
        if j > 1 { assert leq(s[0], s[j - 1]); }
      }
    }
  }

  /** SortBy returns a sorted list whenever its relation is a total preorder. */
  lemma {:induction false} SortBySorted<T(!new)>(s: seq<T>, leq: (T, T) -> bool)
    requires TotalPreorder(leq)
    ensures SortedBy(SortBy(s, leq), leq)
    decreases |s|
  {
    if s != [] {
      SortBySorted(s[1..], leq);
      InsertSorted(s[0], SortBy(s[1..], leq), leq);
    }
  }

  /** Elements of a sequence with no repetitions. */
  predicate NoDuplicates<T(==)>(s: seq<T>)
  {
    forall i, j :: 0 <= i < j < |s| ==> s[i] != s[j]
  }

  /** A permutation of a sequence without repetitions has none either. */
  lemma PermutationNoDuplicates<T>(s: seq<T>, t: seq<T>)
    requires multiset(s) == multiset(t)
    requires NoDuplicates(s)
    ensures NoDuplicates(t)
  {
    forall i, j | 0 <= i < j < |t| ensures t[i] != t[j] {
      var x := t[i];
      assert x in multiset(s);
      NoDuplicatesCount(s, x);
      var front := t[..j];
      assert t == front + [t[j]] + t[j + 1..];
      assert front[i] == x;
      assert multiset(front)[x] >= 1;
      assert multiset(t)[x] == multiset(front)[x] + multiset([t[j]])[x] + multiset(t[j + 1..])[x];
    }
  }

  lemma {:induction false} NoDuplicatesCount<T>(s: seq<T>, x: T)
    requires NoDuplicates(s)
    requires x in s
    ensures multiset(s)[x] == 1
    decreases |s|
  {
    assert s == [s[0]] + s[1..];
    if s[0] == x {
      forall k | 0 <= k < |s| - 1 ensures s[1..][k] != x {
        assert s[1..][k] == s[k + 1];
      }
      assert x !in s[1..];
    } else {
      NoDuplicatesCount(s[1..], x);
    }
  }
}
