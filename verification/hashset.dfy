/**
 * A hash set of `numBuckets` buckets, each a `Vector` searched linearly.
 * Entering an element that compares equal to one already present replaces
 * it; otherwise the element is appended to its bucket and counted.
 */
module HashSets {
  import opened Wrappers
  import opened Vectors

  /** `a`, `b` and `c` compare equal in a chain. */
  ghost predicate Chained<T>(cmp: (T, T) -> int, a: T, b: T, c: T)
  {
    cmp(a, b) == 0 && cmp(b, c) == 0
  }

  /**
   * The comparator's "equal" (zero) is an equivalence relation. Transitivity
   * is stated over `Chained`, so a proof uses it only where it names a chain.
   */
  ghost predicate ZeroIsEquivalence<T(!new)>(cmp: (T, T) -> int)
  {
    && (forall a :: cmp(a, a) == 0)
    && (forall a, b :: cmp(a, b) == 0 ==> cmp(b, a) == 0)
    && (forall a, b, c :: Chained(cmp, a, b, c) ==> cmp(a, c) == 0)
  }

  /** No two entries of a bucket compare equal. */
  ghost predicate NoEqualPair<T>(s: seq<T>, cmp: (T, T) -> int)
  {
    forall i, j :: 0 <= i < |s| && 0 <= j < |s| && i != j ==> cmp(s[i], s[j]) != 0
  }

  /** The index of the first entry of `s` that `cmp(key, entry)` reports equal. */
  function FirstMatch<T>(s: seq<T>, key: T, cmp: (T, T) -> int): (r: Option<nat>)
    ensures r.Some? ==> r.value < |s| && cmp(key, s[r.value]) == 0
    ensures r.Some? ==> forall i :: 0 <= i < r.value ==> cmp(key, s[i]) != 0
    ensures r.None? ==> forall i :: 0 <= i < |s| ==> cmp(key, s[i]) != 0
    decreases |s|
  {
    if s == [] then None
    else if cmp(key, s[0]) == 0 then Some(0)
    else match FirstMatch(s[1..], key, cmp)
      case None => None
      case Some(k) => Some(k + 1)
  }

  /** A bucket after `e` is entered: the first equal entry replaced, or `e` appended. */
  function EnterBucket<T>(s: seq<T>, e: T, cmp: (T, T) -> int): seq<T>
  {
    match FirstMatch(s, e, cmp)
    case Some(k) => s[k := e]
    case None => s + [e]
  }

  /** The entry of a bucket that a lookup of `e` yields, if any. */
  function FindIn<T>(s: seq<T>, e: T, cmp: (T, T) -> int): (r: Option<T>)
    ensures r.Some? ==> r.value in s && cmp(e, r.value) == 0
    ensures r.None? ==> forall x :: x in s ==> cmp(e, x) != 0
  {
    match FirstMatch(s, e, cmp)
    case Some(k) => Some(s[k])
    case None => None
  }

  function Flatten<T>(buckets: seq<seq<T>>): seq<T>
  {
    if buckets == [] then [] else Flatten(buckets[..|buckets| - 1]) + buckets[|buckets| - 1]
  }

  function TotalLength<T>(buckets: seq<seq<T>>): nat
  {
    if buckets == [] then 0 else TotalLength(buckets[..|buckets| - 1]) + |buckets[|buckets| - 1]|
  }

  /** The count the set keeps is the number of entries that mapping over it visits. */
  lemma {:induction false} TotalLengthFlatten<T>(buckets: seq<seq<T>>)
    ensures TotalLength(buckets) == |Flatten(buckets)|
    decreases |buckets|
  {
    if buckets != [] {
      TotalLengthFlatten(buckets[..|buckets| - 1]);
    }
  }

  /** Changing one bucket changes the total by the change in that bucket's length. */
  lemma {:induction false} TotalLengthUpdate<T>(buckets: seq<seq<T>>, b: nat, s: seq<T>)
    requires b < |buckets|
    ensures TotalLength(buckets[b := s]) + |buckets[b]| == TotalLength(buckets) + |s|
    decreases |buckets|
  {
    var n := |buckets| - 1;
    if b < n {
      assert buckets[b := s][..n] == buckets[..n][b := s];
      TotalLengthUpdate(buckets[..n], b, s);
    } else {
      assert buckets[b := s][..n] == buckets[..n];
    }
  }

  /** Entering keeps a bucket free of equal pairs and grows it exactly when nothing equal was there. */
  lemma EnterBucketKeepsDistinct<T(!new)>(s: seq<T>, e: T, cmp: (T, T) -> int)
    requires ZeroIsEquivalence(cmp) && NoEqualPair(s, cmp)
    ensures NoEqualPair(EnterBucket(s, e, cmp), cmp)
    ensures |EnterBucket(s, e, cmp)| == |s| + (if FirstMatch(s, e, cmp).None? then 1 else 0)
  {
    var r := EnterBucket(s, e, cmp);
    match FirstMatch(s, e, cmp)
    case None =>
      forall i, j | 0 <= i < |r| && 0 <= j < |r| && i != j
        ensures cmp(r[i], r[j]) != 0
      {
        if j == |s| {
          assert cmp(e, r[i]) != 0;
        } else if i != |s| {
          assert r[i] == s[i] && r[j] == s[j];
        }
      }
    case Some(k) =>
      forall i, j | 0 <= i < |r| && 0 <= j < |r| && i != j
        ensures cmp(r[i], r[j]) != 0
      {
        if i == k {
          assert !Chained(cmp, s[j], e, s[k]);
        } else if j == k {
          assert !Chained(cmp, s[i], e, s[k]);
        }
      }
  }

  /**
   * After `e` is entered, looking up any key that compares equal to `e`
   * (`e` itself included) yields `e`.
   */
  lemma FindAfterEnter<T(!new)>(s: seq<T>, e: T, key: T, cmp: (T, T) -> int)
    requires ZeroIsEquivalence(cmp) && cmp(key, e) == 0
    ensures FindIn(EnterBucket(s, e, cmp), key, cmp) == Some(e)
  {
    var r := EnterBucket(s, e, cmp);
    var k := match FirstMatch(s, e, cmp) case Some(k) => k case None => |s|;
    assert k < |r| && r[k] == e && forall i :: 0 <= i < k ==> r[i] == s[i] && cmp(e, s[i]) != 0;
    forall i | 0 <= i < k
      ensures cmp(key, r[i]) != 0
    {
      assert !Chained(cmp, e, key, r[i]);
    }
    assert FirstMatch(r, key, cmp) == Some(k);
  }

  /** Entering into one bucket leaves what the other buckets yield unchanged. */
  lemma FindElsewhereAfterEnter<T>(buckets: seq<seq<T>>, b: nat, e: T, c: nat, key: T, cmp: (T, T) -> int)
    requires b < |buckets| && c < |buckets| && b != c
    ensures FindIn(buckets[b := EnterBucket(buckets[b], e, cmp)][c], key, cmp) == FindIn(buckets[c], key, cmp)
  {
  }

  /** One bucket: a well-formed vector holding `entries`, no two of which compare equal. */
  ghost predicate BucketHolds<T(0)>(v: Vector<T>, entries: seq<T>, cmp: (T, T) -> int)
    reads v, v.elems
  {
    v.Valid() && v.Elements() == entries && NoEqualPair(entries, cmp)
  }

  /** The buckets are distinct vectors over distinct arrays, all within `repr`. */
  ghost predicate BucketsOwned<T(0)>(buckets: seq<Vector<T>>, repr: set<object>)
    reads buckets
  {
    && (forall i :: 0 <= i < |buckets| ==> buckets[i] in repr && buckets[i].elems in repr)
    && (forall i, j :: 0 <= i < j < |buckets| ==> buckets[i] != buckets[j] && buckets[i].elems != buckets[j].elems)
  }

  /**
   * The per-bucket half of entering `e`: a linear search for an entry equal
   * to `e`, which is replaced if found; otherwise `e` is appended and the
   * result says so.
   */
  method EnterIntoBucket<T(0)>(v: Vector<T>, e: T, cmp: (T, T) -> int) returns (appended: bool)
    requires v.Valid()
    modifies v, v.elems
    ensures v.Valid() && v.Elements() == EnterBucket(old(v.Elements()), e, cmp)
    ensures appended == FirstMatch(old(v.Elements()), e, cmp).None?
    ensures v.elems == old(v.elems) || fresh(v.elems)
  {
    var indexInVector := v.Search(e, cmp, 0, false);
    ghost var s := v.Elements();
    if indexInVector == -1 {
      assert FirstMatch(s, e, cmp).None?;
      v.Append(e);
      appended := true;
    } else {
      assert FirstMatch(s, e, cmp) == Some(indexInVector);
      v.Replace(e, indexInVector);
      appended := false;
    }
  }

  /** `n` fresh, empty vectors of initial allocation 0, over distinct arrays. */
  method NewBuckets<T(0)>(n: nat, cmp: (T, T) -> int) returns (vs: seq<Vector<T>>, ghost owned: set<object>)
    ensures |vs| == n && fresh(owned) && BucketsOwned(vs, owned)
    ensures forall i :: 0 <= i < n ==> BucketHolds(vs[i], [], cmp)
  {
    vs := [];
    owned := {};
    while |vs| < n
      invariant |vs| <= n && fresh(owned)
      invariant BucketsOwned(vs, owned)
      invariant forall i :: 0 <= i < |vs| ==> BucketHolds(vs[i], [], cmp)
    {
      var v := new Vector<T>(0);
      vs := vs + [v];
      owned := owned + {v, v.elems};
    }
  }

  class HashSet<T(0,!new)> {
    var elemAmount: nat
    const numBuckets: nat
    const hashFn: (T, int) -> int
    const cmpFn: (T, T) -> int
    const buckets: seq<Vector<T>>
    /** The entries of each bucket, first to last. */
    ghost var Contents: seq<seq<T>>
    ghost var Repr: set<object>

    ghost predicate Valid()
      reads this, Repr
    {
      && this in Repr
      && (forall i :: 0 <= i < |buckets| ==> buckets[i] in Repr)
      && |buckets| == numBuckets && |Contents| == numBuckets
      && BucketsOwned(buckets, Repr)
      && (forall i :: 0 <= i < numBuckets ==> BucketHolds(buckets[i], Contents[i], cmpFn))
      && elemAmount == TotalLength(Contents)
    }

    constructor (numBuckets: nat, hashFn: (T, int) -> int, cmpFn: (T, T) -> int)
      ensures Valid() && fresh(Repr)
      ensures this.numBuckets == numBuckets && this.hashFn == hashFn && this.cmpFn == cmpFn
      ensures Contents == EmptyBuckets(numBuckets) && elemAmount == 0
    {
      var vs, owned := NewBuckets(numBuckets, cmpFn);
      elemAmount := 0;
      this.numBuckets := numBuckets;
      this.hashFn := hashFn;
      this.cmpFn := cmpFn;
      buckets := vs;
      Contents := EmptyBuckets(numBuckets);
      new;
      Repr := owned + {this};
      TotalLengthEmpty<T>(numBuckets);
    }

    function Count(): (n: nat)
      reads this, Repr
      requires Valid()
      ensures n == TotalLength(Contents)
    {
      elemAmount
    }

    method Enter(e: T)
      requires Valid() && 0 <= hashFn(e, numBuckets) < numBuckets
      requires ZeroIsEquivalence(cmpFn)
      modifies Repr
      ensures Valid() && fresh(Repr - old(Repr))
      ensures Contents == old(Contents)[hashFn(e, numBuckets) := EnterBucket(old(Contents)[hashFn(e, numBuckets)], e, cmpFn)]
      ensures elemAmount == old(elemAmount) + if FirstMatch(old(Contents)[hashFn(e, numBuckets)], e, cmpFn).None? then 1 else 0
    {
      var bucket := hashFn(e, numBuckets);
      var v := buckets[bucket];
      EnterBucketKeepsDistinct(Contents[bucket], e, cmpFn);
      var appended := EnterIntoBucket(v, e, cmpFn);
      if appended {
        elemAmount := elemAmount + 1;
      }
      Contents := Contents[bucket := v.Elements()];
      Repr := Repr + {v.elems};
      OneBucketChanged(bucket);
    }

    /** `Valid` survives a change confined to one bucket's vector that keeps the count in step. */
    twostate lemma OneBucketChanged(bucket: nat)
      requires old(Valid()) && bucket < numBuckets
      requires forall o :: o in old(Repr) && o != this && o != buckets[bucket] && o != old(buckets[bucket].elems) ==> unchanged(o)
      requires old(buckets[bucket].elems) == buckets[bucket].elems || fresh(buckets[bucket].elems)
      requires buckets[bucket].Valid() && Contents == old(Contents)[bucket := buckets[bucket].Elements()]
      requires BucketHolds(buckets[bucket], Contents[bucket], cmpFn)
      requires Repr == old(Repr) + {buckets[bucket].elems}
      requires elemAmount + |old(Contents)[bucket]| == old(elemAmount) + |Contents[bucket]|
      ensures Valid()
    {
      TotalLengthUpdate(old(Contents), bucket, Contents[bucket]);
      forall i | 0 <= i < numBuckets && i != bucket
        ensures BucketHolds(buckets[i], Contents[i], cmpFn)
      {
        assert old(buckets[i] != buckets[bucket] && buckets[i].elems != buckets[bucket].elems);
        assert unchanged(buckets[i]) && unchanged(old(buckets[i].elems));
        assert old(BucketHolds(buckets[i], Contents[i], cmpFn));
      }
      assert BucketsOwned(buckets, Repr) by {
        forall i, j | 0 <= i < j < numBuckets
          ensures buckets[i].elems != buckets[j].elems
        {
          assert old(buckets[i].elems != buckets[j].elems);
        }
      }
    }

    method Lookup(e: T) returns (r: Option<T>)
      requires Valid() && 0 <= hashFn(e, numBuckets) < numBuckets
      ensures r == FindIn(Contents[hashFn(e, numBuckets)], e, cmpFn)
    {
      var bucket := hashFn(e, numBuckets);
      var v := buckets[bucket];
      var indexInVector := v.Search(e, cmpFn, 0, false);
      ghost var s := Contents[bucket];
      assert s == v.Elements();
      if indexInVector == -1 {
        assert FirstMatch(s, e, cmpFn).None?;
        return None;
      }
      assert FirstMatch(s, e, cmpFn) == Some(indexInVector);
      return Some(v.Nth(indexInVector));
    }

    /** `mapFn` applied to every entry, bucket by bucket, threading the auxiliary data. */
    method Map<A>(mapFn: (T, A) -> A, auxData: A) returns (r: A)
      requires Valid()
      ensures r == Fold(Flatten(Contents), mapFn, auxData)
    {
      r := auxData;
      var i := 0;
      while i < numBuckets
        invariant 0 <= i <= numBuckets
        invariant r == Fold(Flatten(Contents[..i]), mapFn, auxData)
      {
        assert Contents[..i + 1][..i] == Contents[..i];
        FoldConcat(Flatten(Contents[..i]), Contents[i], mapFn, auxData);
        r := buckets[i].Map(mapFn, r);
        i := i + 1;
      }
      assert Contents[..numBuckets] == Contents;
    }
  }

  function EmptyBuckets<T>(n: nat): seq<seq<T>>
  {
    seq(n, _ => [])
  }

  lemma {:induction false} TotalLengthEmpty<T>(n: nat)
    ensures TotalLength(EmptyBuckets<T>(n)) == 0
  {
    if n > 0 {
      assert EmptyBuckets<T>(n)[..n - 1] == EmptyBuckets<T>(n - 1);
      TotalLengthEmpty<T>(n - 1);
    }
  }
}
