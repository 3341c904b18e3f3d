/** A stable sort by a comparator, standing for `Array.prototype.sort` (stable since
    ES2019) and for the database's `order by`. `lt(a, b)` means `a` must come before `b`. */
module Sorting {

  /** A strict order: nothing precedes itself, and precedence is transitive. */
  ghost predicate StrictOrder<T(!new)>(lt: (T, T) -> bool)
  {
    (forall a :: !lt(a, a)) && (forall a, b, c :: lt(a, b) && lt(b, c) ==> lt(a, c))
  }

  /** No element is strictly required to come before an earlier one. */
  predicate SortedBy<T>(s: seq<T>, lt: (T, T) -> bool)
  {
    forall i, j :: 0 <= i < j < |s| ==> !lt(s[j], s[i])
  }

  /** Inserts `x` after every element it does not have to precede. */
  function Insert<T>(x: T, s: seq<T>, lt: (T, T) -> bool): (r: seq<T>)
    ensures multiset(r) == multiset(s) + multiset{x}
  {
    if s == [] then [x]
    else if lt(x, s[0]) then [x] + s
    else
      assert s == [s[0]] + s[1..];
      [s[0]] + Insert(x, s[1..], lt)
  }

  /** Insertion sort, inserting the elements from first to last. */
  function SortBy<T>(s: seq<T>, lt: (T, T) -> bool): (r: seq<T>)
    ensures multiset(r) == multiset(s)
  {
    if s == [] then []
    else
      assert s == s[..|s| - 1] + [s[|s| - 1]];
      Insert(s[|s| - 1], SortBy(s[..|s| - 1], lt), lt)
  }

  lemma {:induction false} InsertSorted<T(!new)>(x: T, s: seq<T>, lt: (T, T) -> bool)
    requires StrictOrder(lt)
    requires SortedBy(s, lt)
    ensures SortedBy(Insert(x, s, lt), lt)
  {
    if s != [] && !lt(x, s[0]) {
      InsertSorted(x, s[1..], lt);
      var tail := Insert(x, s[1..], lt);
      assert Insert(x, s, lt) == [s[0]] + tail;
      forall j | 0 <= j < |tail| ensures !lt(tail[j], s[0]) {
        InsertedFromInput(x, s, lt, tail[j]);
      }
    } else if s != [] {
      assert Insert(x, s, lt) == [x] + s;
      forall k | 0 <= k < |s| ensures !lt(s[k], x) {
        if k > 0 { assert !lt(s[k], s[0]); }
      }
    }
  }

  /** Every element of the tail built by `Insert` is `x` or comes from after the head. */
  lemma InsertedFromInput<T(!new)>(x: T, s: seq<T>, lt: (T, T) -> bool, y: T)
    requires StrictOrder(lt)
    requires SortedBy(s, lt)
    requires s != [] && !lt(x, s[0])
    requires y in multiset(Insert(x, s[1..], lt))
    ensures !lt(y, s[0])
  {
    assert y in multiset(s[1..]) + multiset{x};
    if y != x {
      assert y in s[1..];
      var k :| 0 <= k < |s[1..]| && s[1..][k] == y;
      assert s[k + 1] == y;
    }
  }

  /** The sorted sequence respects the comparator whenever the comparator is a strict order. */
  lemma {:induction false} SortBySorted<T(!new)>(s: seq<T>, lt: (T, T) -> bool)
    requires StrictOrder(lt)
    ensures SortedBy(SortBy(s, lt), lt)
  {
    if s != [] {
      SortBySorted(s[..|s| - 1], lt);
      InsertSorted(s[|s| - 1], SortBy(s[..|s| - 1], lt), lt);
    }
  }

  lemma SortByLength<T>(s: seq<T>, lt: (T, T) -> bool)
    ensures |SortBy(s, lt)| == |s|
  {
    assert |multiset(SortBy(s, lt))| == |multiset(s)|;
  }

  function Reverse<T>(s: seq<T>): (r: seq<T>)
    ensures |r| == |s|
    ensures forall i :: 0 <= i < |s| ==> r[i] == s[|s| - 1 - i]
  {
    if s == [] then [] else Reverse(s[1..]) + [s[0]]
  }

  /** Lexicographic order of strings by character code, as JavaScript compares strings. */
  predicate StringBefore(a: string, b: string)
  {
    if a == [] then b != []
    else if b == [] then false
    else a[0] < b[0] || (a[0] == b[0] && StringBefore(a[1..], b[1..]))
  }

  lemma {:induction false} StringBeforeIrreflexive(a: string)
    ensures !StringBefore(a, a)
  {
    if a != [] {
      StringBeforeIrreflexive(a[1..]);
    }
  }

  lemma {:induction false} StringBeforeTransitive(a: string, b: string, c: string)
    requires StringBefore(a, b) && StringBefore(b, c)
    ensures StringBefore(a, c)
  {
    if a != [] && b != [] && c != [] && a[0] == b[0] == c[0] {
      StringBeforeTransitive(a[1..], b[1..], c[1..]);
    }
  }

  /** Two different strings are always ordered one way or the other. */
  lemma {:induction false} StringBeforeTotal(a: string, b: string)
    requires a != b
    ensures StringBefore(a, b) || StringBefore(b, a)
  {
    if a != [] && b != [] && a[0] == b[0] {
      assert a == [a[0]] + a[1..] && b == [b[0]] + b[1..];
      StringBeforeTotal(a[1..], b[1..]);
    }
  }

  lemma StringBeforeIsStrictOrder()
    ensures StrictOrder(StringBefore)
  {
    forall a ensures !StringBefore(a, a) {
      StringBeforeIrreflexive(a);
    }
    forall a, b, c | StringBefore(a, b) && StringBefore(b, c) ensures StringBefore(a, c) {
      StringBeforeTransitive(a, b, c);
    }
  }

  predicate Distinct<T(==)>(s: seq<T>)
  {
    forall i, j :: 0 <= i < j < |s| ==> s[i] != s[j]
  }

  lemma {:induction false} DistinctMultiplicity<T>(s: seq<T>, x: T)
    requires Distinct(s)
    ensures multiset(s)[x] <= 1
  {
    if s != [] {
      DistinctMultiplicity(s[1..], x);
      assert s == [s[0]] + s[1..];
      assert s[0] !in s[1..];
    }
  }

  lemma TwiceCounted<T>(s: seq<T>, i: nat, j: nat)
    requires i < j < |s|
    ensures s[i] == s[j] ==> multiset(s)[s[i]] >= 2
  {
    assert s == s[..j] + s[j..];
    assert s[i] in s[..j] && s[j] in s[j..];
  }

  /** A permutation of a sequence without repetitions has none either. */
  lemma SameMultisetDistinct<T>(s: seq<T>, t: seq<T>)
    requires multiset(s) == multiset(t) && Distinct(s)
    ensures Distinct(t)
  {
    forall i, j | 0 <= i < j < |t| ensures t[i] != t[j] {
      TwiceCounted(t, i, j);
      DistinctMultiplicity(s, t[i]);
    }
  }

  /** Sorting distinct strings orders them strictly. */
  lemma SortedDistinctStrings(s: seq<string>)
    requires SortedBy(s, StringBefore) && Distinct(s)
    ensures forall i, j :: 0 <= i < j < |s| ==> StringBefore(s[i], s[j])
  {
    forall i, j | 0 <= i < j < |s| ensures StringBefore(s[i], s[j]) {
      StringBeforeTotal(s[i], s[j]);
    }
  }
}
