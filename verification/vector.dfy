/**
 * A growable array of elements of one type: `logLen` slots of `elems` are in
 * use and `elems.Length` (the C `allocLen`) slots are allocated. Insertion
 * and deletion shift the later elements one slot; a full vector grows to
 * twice its allocation plus one.
 *
 * The C vector stores elements of a fixed byte size behind `void *`; here
 * the elements are values of a type parameter and the client's callbacks
 * are function values.
 */
module Vectors {
  import opened Wrappers
  import Bsearch = Search

  /**
   * The auxiliary data after a map function has been applied to every
   * element of `s`, first to last.
   */
  function Fold<T, A>(s: seq<T>, mapFn: (T, A) -> A, auxData: A): A
    decreases |s|
  {
    if s == [] then auxData else Fold(s[1..], mapFn, mapFn(s[0], auxData))
  }

  /** Mapping over two runs of elements is mapping over the first, then over the second. */
  lemma {:induction false} FoldConcat<T, A>(s: seq<T>, t: seq<T>, mapFn: (T, A) -> A, auxData: A)
    ensures Fold(s + t, mapFn, auxData) == Fold(t, mapFn, Fold(s, mapFn, auxData))
    decreases |s|
  {
    if s == [] {
      assert s + t == t;
    } else {
      assert (s + t)[1..] == s[1..] + t;
      FoldConcat(s[1..], t, mapFn, mapFn(s[0], auxData));
    }
  }

  /** A map function that logs what it is given sees every element exactly once, in order. */
  lemma {:induction false} FoldVisitsInOrder<T>(s: seq<T>, log: seq<T>)
    ensures Fold(s, (x: T, l: seq<T>) => l + [x], log) == log + s
    decreases |s|
  {
    if s != [] {
      FoldVisitsInOrder(s[1..], log + [s[0]]);
      assert log + [s[0]] + s[1..] == log + s;
    }
  }

  // ---------------------------------------------------------------------
  // What `qsort` and `bsearch` assume of a comparator.

  function Sign(c: int): int
  {
    if c < 0 then -1 else if c > 0 then 1 else 0
  }

  /**
   * On the values of `s`, `cmp` is a three-way comparator: swapping its
   * arguments flips the sign of the answer, and "not after" is transitive.
   */
  ghost predicate ComparatorOn<T>(s: seq<T>, cmp: (T, T) -> int)
  {
    && (forall x, y :: x in s && y in s ==> Sign(cmp(x, y)) == -Sign(cmp(y, x)))
    && (forall x, y, z :: x in s && y in s && z in s && NotAfterChain(cmp, x, y, z) ==> cmp(x, z) <= 0)
  }

  /** `x` is not after `y`, which is not after `z`. */
  ghost predicate NotAfterChain<T>(cmp: (T, T) -> int, x: T, y: T, z: T)
  {
    cmp(x, y) <= 0 && cmp(y, z) <= 0
  }

  /** "Not after" is transitive on the values a consistent comparator is used on. */
  lemma Transitive<T>(s: seq<T>, cmp: (T, T) -> int, x: T, y: T, z: T)
    requires ComparatorOn(s, cmp) && x in s && y in s && z in s
    ensures cmp(x, y) <= 0 && cmp(y, z) <= 0 ==> cmp(x, z) <= 0
  {
    if cmp(x, y) <= 0 && cmp(y, z) <= 0 {
      assert NotAfterChain(cmp, x, y, z);
    }
  }

  ghost predicate SortedBy<T>(s: seq<T>, cmp: (T, T) -> int)
  {
    forall i, j :: 0 <= i < j < |s| ==> cmp(s[i], s[j]) <= 0
  }

  lemma ComparatorOnSubset<T>(s: seq<T>, t: seq<T>, cmp: (T, T) -> int)
    requires ComparatorOn(s, cmp) && forall x :: x in t ==> x in s
    ensures ComparatorOn(t, cmp)
  {
  }

  /** `x` put into sorted `s` in front of the first element it does not come after. */
  function InsertSorted<T>(x: T, s: seq<T>, cmp: (T, T) -> int): (r: seq<T>)
    ensures multiset(r) == multiset(s) + multiset{x}
  {
    if s == [] then [x]
    else if cmp(x, s[0]) <= 0 then [x] + s
    else
      assert s == [s[0]] + s[1..];
      [s[0]] + InsertSorted(x, s[1..], cmp)
  }

  /** Insertion sort: a reference for the outcome `qsort` promises. */
  function SortBy<T>(s: seq<T>, cmp: (T, T) -> int): (r: seq<T>)
    ensures multiset(r) == multiset(s)
  {
    if s == [] then []
    else
      assert s == [s[0]] + s[1..];
      InsertSorted(s[0], SortBy(s[1..], cmp), cmp)
  }

  /** What insertion puts into a sequence is `x` and what was there. */
  lemma InsertSortedMembers<T>(x: T, s: seq<T>, cmp: (T, T) -> int)
    ensures forall y :: y in InsertSorted(x, s, cmp) ==> y == x || y in s
  {
    forall y | y in InsertSorted(x, s, cmp)
      ensures y == x || y in s
    {
      assert y in multiset(InsertSorted(x, s, cmp));
    }
  }

  /** Placing `x` in front keeps the order when it does not come after the head. */
  lemma InsertInFront<T>(x: T, s: seq<T>, cmp: (T, T) -> int)
    requires s != [] && cmp(x, s[0]) <= 0
    requires SortedBy(s, cmp) && ComparatorOn([x] + s, cmp)
    ensures SortedBy([x] + s, cmp)
  {
    var r := [x] + s;
    forall i, j | 0 <= i < j < |r|
      ensures cmp(r[i], r[j]) <= 0
    {
      if i == 0 && j > 1 {
        assert r[1] == s[0] && r[j] == s[j - 1];
        Transitive(r, cmp, x, s[0], s[j - 1]);
      }
    }
  }

  /** Keeping the head in front keeps the order when the head comes before everything behind it. */
  lemma KeepHead<T>(h: T, rest: seq<T>, cmp: (T, T) -> int)
    requires SortedBy(rest, cmp)
    requires forall y :: y in rest ==> cmp(h, y) <= 0
    ensures SortedBy([h] + rest, cmp)
  {
    var r := [h] + rest;
    forall i, j | 0 <= i < j < |r|
      ensures cmp(r[i], r[j]) <= 0
    {
      assert r[j] == rest[j - 1] && r[j] in rest;
      if i > 0 {
        assert r[i] == rest[i - 1];
      }
    }
  }

  lemma {:induction false} InsertSortedSorted<T>(x: T, s: seq<T>, cmp: (T, T) -> int)
    requires SortedBy(s, cmp) && ComparatorOn([x] + s, cmp)
    ensures SortedBy(InsertSorted(x, s, cmp), cmp)
    decreases |s|
  {
    if s != [] && cmp(x, s[0]) <= 0 {
      InsertInFront(x, s, cmp);
    } else if s != [] {
      var rest := InsertSorted(x, s[1..], cmp);
      ComparatorOnSubset([x] + s, [x] + s[1..], cmp);
      InsertSortedSorted(x, s[1..], cmp);
      InsertSortedMembers(x, s[1..], cmp);
      assert s[0] in [x] + s && x in [x] + s;
      forall y | y in rest
        ensures cmp(s[0], y) <= 0
      {
        if y != x {
          var k :| 0 <= k < |s[1..]| && s[1..][k] == y;
          assert s[k + 1] == y;
        }
      }
      KeepHead(s[0], rest, cmp);
    }
  }

  /** Insertion sort yields a sorted permutation under a consistent comparator. */
  lemma {:induction false} SortBySorted<T>(s: seq<T>, cmp: (T, T) -> int)
    requires ComparatorOn(s, cmp)
    ensures SortedBy(SortBy(s, cmp), cmp) && multiset(SortBy(s, cmp)) == multiset(s)
    decreases |s|
  {
    if s != [] {
      var rest := SortBy(s[1..], cmp);
      ComparatorOnSubset(s, s[1..], cmp);
      SortBySorted(s[1..], cmp);
      forall y | y in [s[0]] + rest
        ensures y in s
      {
        if y != s[0] {
          assert y in multiset(rest);
          assert y in multiset(s[1..]);
        }
      }
      ComparatorOnSubset(s, [s[0]] + rest, cmp);
      InsertSortedSorted(s[0], rest, cmp);
    }
  }

  /**
   * A table sorted by a consistent comparator is laid out as `bsearch`
   * needs for any key: first the elements the key comes after, then those
   * equal to it, then those it comes before.
   */
  lemma SortedIsSearchable<T>(s: seq<T>, key: T, cmp: (T, T) -> int)
    requires SortedBy(s, cmp) && ComparatorOn([key] + s, cmp)
    ensures Bsearch.Ordered(s, e => Some(cmp(key, e)))
  {
    forall i, j | 0 <= i < j < |s|
      ensures Bsearch.Rank(cmp(key, s[i])) <= Bsearch.Rank(cmp(key, s[j]))
    {
      var keyed := [key] + s;
      assert key in keyed && s[i] in keyed && s[j] in keyed;
      assert cmp(s[i], s[j]) <= 0;
      Transitive(keyed, cmp, key, s[i], s[j]);
      Transitive(keyed, cmp, s[i], s[j], key);
    }
  }

  /** A sequence that agrees with `s` before `p`, holds `x` at `p` and `s` shifted one up after it. */
  lemma InsertedAt<T>(a: seq<T>, s: seq<T>, x: T, p: nat)
    requires p <= |s| && |a| == |s| + 1 && a[p] == x
    requires forall k :: 0 <= k < p ==> a[k] == s[k]
    requires forall k :: p < k < |a| ==> a[k] == s[k - 1]
    ensures a == s[..p] + [x] + s[p..]
  {
    forall k | 0 <= k < |a|
      ensures a[k] == (s[..p] + [x] + s[p..])[k]
    {
    }
  }

  // ---------------------------------------------------------------------

  class Vector<T(0)> {
    var elems: array<T>
    var logLen: nat

    ghost predicate Valid()
      reads this
    {
      logLen <= elems.Length
    }

    /** The elements in use, first to last. */
    ghost function Elements(): seq<T>
      reads this, elems
      requires Valid()
    {
      elems[..logLen]
    }

    constructor (initialAllocation: nat)
      ensures Valid() && fresh(elems)
      ensures elems.Length == initialAllocation && Elements() == []
    {
      logLen := 0;
      elems := new T[initialAllocation];
    }

    /** Reallocation to `2 * allocLen + 1` slots, keeping every allocated slot's contents. */
    method Grow()
      requires Valid()
      modifies this
      ensures Valid() && fresh(elems) && logLen == old(logLen)
      ensures elems.Length == 2 * old(elems.Length) + 1
      ensures elems[..old(elems.Length)] == old(elems[..])
      ensures Elements() == old(Elements())
    {
      var grown := new T[2 * elems.Length + 1];
      var i := 0;
      while i < elems.Length
        invariant 0 <= i <= elems.Length
        invariant grown[..i] == elems[..i]
        modifies grown
      {
        grown[i] := elems[i];
        i := i + 1;
      }
      assert grown[..elems.Length][..logLen] == elems[..logLen];
      elems := grown;
    }

    function Nth(position: int): (x: T)
      reads this, elems
      requires Valid() && 0 <= position < logLen
      ensures x == Elements()[position]
    {
      elems[position]
    }

    method Replace(x: T, position: int)
      requires Valid() && 0 <= position < logLen
      modifies elems
      ensures Valid() && Elements() == old(Elements())[position := x]
    {
      elems[position] := x;
    }

    method Insert(x: T, position: int)
      requires Valid() && 0 <= position <= logLen
      modifies this, elems
      ensures Valid()
      ensures Elements() == old(Elements())[..position] + [x] + old(Elements())[position..]
      ensures old(logLen) < old(elems.Length) ==> elems == old(elems)
      ensures old(logLen) >= old(elems.Length) ==> fresh(elems) && elems.Length == 2 * old(elems.Length) + 1
    {
      if logLen >= elems.Length {
        Grow();
      }
      ghost var s := Elements();
      ShiftUp(position);
      elems[position] := x;
      logLen := logLen + 1;
      InsertedAt(Elements(), s, x, position);
    }

    /** Moves the elements from `position` on one slot up, into spare capacity, last first. */
    method ShiftUp(position: nat)
      requires Valid() && position <= logLen < elems.Length
      modifies elems
      ensures forall k :: 0 <= k < position ==> elems[k] == old(elems[k])
      ensures forall k :: position < k <= logLen ==> elems[k] == old(elems[k - 1])
    {
      var i: int := logLen - 1;
      while i >= position
        invariant position - 1 <= i <= logLen - 1
        invariant forall k :: 0 <= k <= i ==> elems[k] == old(elems[k])
        invariant forall k :: i + 2 <= k <= logLen ==> elems[k] == old(elems[k - 1])
      {
        elems[i + 1] := elems[i];
        i := i - 1;
      }
    }

    method Append(x: T)
      requires Valid()
      modifies this, elems
      ensures Valid() && Elements() == old(Elements()) + [x]
      ensures old(logLen) < old(elems.Length) ==> elems == old(elems)
      ensures old(logLen) >= old(elems.Length) ==> fresh(elems) && elems.Length == 2 * old(elems.Length) + 1
    {
      Insert(x, logLen);
    }

    method Delete(position: int)
      requires Valid() && 0 <= position < logLen
      modifies this, elems
      ensures Valid() && elems == old(elems)
      ensures Elements() == old(Elements())[..position] + old(Elements())[position + 1..]
    {
      ghost var s := Elements();
      var i := position + 1;
      while i < logLen
        invariant position + 1 <= i <= logLen && logLen == |s|
        invariant forall k :: 0 <= k < position ==> elems[k] == s[k]
        invariant forall k :: position <= k < i - 1 ==> elems[k] == s[k + 1]
        invariant forall k :: i <= k < logLen ==> elems[k] == s[k]
        modifies elems
      {
        elems[i - 1] := elems[i];
        i := i + 1;
      }
      logLen := logLen - 1;
      assert Elements() == s[..position] + s[position + 1..] by {
        forall k | 0 <= k < logLen
          ensures Elements()[k] == (s[..position] + s[position + 1..])[k]
        {
        }
      }
    }

    /** `mapFn` applied to each element in order, threading the auxiliary data. */
    method Map<A>(mapFn: (T, A) -> A, auxData: A) returns (r: A)
      requires Valid()
      ensures r == Fold(Elements(), mapFn, auxData)
    {
      r := auxData;
      var i := 0;
      while i < logLen
        invariant 0 <= i <= logLen
        invariant Fold(Elements(), mapFn, auxData) == Fold(Elements()[i..], mapFn, r)
      {
        assert Elements()[i..][1..] == Elements()[i + 1..];
        r := mapFn(elems[i], r);
        i := i + 1;
      }
    }

    /**
     * The index of an element that `searchFn(key, element)` reports equal,
     * looking from `startIndex` on, or -1. Unsorted mode finds the first
     * such index; sorted mode finds one whenever the elements are laid out
     * as binary search needs.
     */
    method Search(key: T, searchFn: (T, T) -> int, startIndex: int, isSorted: bool) returns (r: int)
      requires Valid()
      requires logLen != 0 ==> 0 <= startIndex < logLen
      ensures logLen == 0 ==> r == -1
      ensures r == -1 || (startIndex <= r < logLen && searchFn(key, Elements()[r]) == 0)
      ensures !isSorted && r != -1 ==> forall i :: 0 <= i && startIndex <= i < r ==> searchFn(key, Elements()[i]) != 0
      ensures !isSorted && r == -1 ==> forall i :: 0 <= i && startIndex <= i < logLen ==> searchFn(key, Elements()[i]) != 0
      ensures isSorted && r == -1 && logLen != 0 && Bsearch.Ordered(Elements()[startIndex..], e => Some(searchFn(key, e)))
              ==> forall i :: 0 <= i && startIndex <= i < logLen ==> searchFn(key, Elements()[i]) != 0
    {
      if logLen == 0 {
        return -1;
      }
      r := SearchSafe(key, searchFn, startIndex, isSorted);
    }

    method SearchSafe(key: T, searchFn: (T, T) -> int, startIndex: int, isSorted: bool) returns (r: int)
      requires Valid() && 0 <= startIndex < logLen
      ensures r == -1 || (startIndex <= r < logLen && searchFn(key, Elements()[r]) == 0)
      ensures !isSorted && r != -1 ==> forall i :: 0 <= i && startIndex <= i < r ==> searchFn(key, Elements()[i]) != 0
      ensures !isSorted && r == -1 ==> forall i :: 0 <= i && startIndex <= i < logLen ==> searchFn(key, Elements()[i]) != 0
      ensures isSorted && r == -1 && Bsearch.Ordered(Elements()[startIndex..], e => Some(searchFn(key, e)))
              ==> forall i :: 0 <= i && startIndex <= i < logLen ==> searchFn(key, Elements()[i]) != 0
    {
      if isSorted {
        var table := elems[startIndex..logLen];
        assert table == Elements()[startIndex..];
        var outcome := Bsearch.BinarySearch(table, e => Some(searchFn(key, e)));
        if outcome.Found? {
          r := startIndex + outcome.index;
        } else {
          r := -1;
          assert forall i :: 0 <= i < |table| ==> table[i] == Elements()[startIndex + i];
        }
      } else {
        r := startIndex;
        while r < logLen
          invariant startIndex <= r <= logLen
          invariant forall i :: 0 <= i && startIndex <= i < r ==> searchFn(key, Elements()[i]) != 0
        {
          if searchFn(key, elems[r]) == 0 {
            return;
          }
          r := r + 1;
        }
        r := -1;
      }
    }

    /** `qsort` over the elements in use: afterwards they are a sorted permutation of what they were. */
    method Sort(compare: (T, T) -> int)
      requires Valid() && ComparatorOn(Elements(), compare)
      modifies elems
      ensures Valid() && SortedBy(Elements(), compare)
      ensures multiset(Elements()) == multiset(old(Elements()))
    {
      var sorted := SortBy(elems[..logLen], compare);
      SortBySorted(elems[..logLen], compare);
      forall k | 0 <= k < logLen {
        elems[k] := sorted[k];
      }
      assert Elements() == sorted;
    }
  }
}
