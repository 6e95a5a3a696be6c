/**
 * A model of the C library's `bsearch`: a binary search of a table for an
 * element that a three-way comparator reports equal to the key. The
 * comparator is given already applied to the key; it answers
 *   > 0 when the key sorts after the element, 0 when they are equal,
 *   < 0 when the key sorts before the element,
 * or None when the element cannot be compared (a corrupt record).
 */
module Search {
  import opened Wrappers

  /** Position of a comparison outcome in a table sorted for the key. */
  function Rank(c: int): (r: nat)
    ensures r <= 2
  {
    if c > 0 then 0 else if c == 0 then 1 else 2
  }

  /**
   * What `bsearch` demands of its table: every element compares, and the
   * elements below the key come first, then those equal, then those above.
   */
  ghost predicate Ordered<T>(a: seq<T>, cmp: T -> Option<int>)
  {
    && (forall i :: 0 <= i < |a| ==> cmp(a[i]).Some?)
    && (forall i, j :: 0 <= i < j < |a| ==> Rank(cmp(a[i]).value) <= Rank(cmp(a[j]).value))
  }

  datatype Outcome = Found(index: nat) | Absent | Failed

  method BinarySearch<T>(a: seq<T>, cmp: T -> Option<int>) returns (r: Outcome)
    ensures r.Found? ==> r.index < |a| && cmp(a[r.index]) == Some(0)
    ensures r.Failed? ==> exists i :: 0 <= i < |a| && cmp(a[i]).None?
    ensures r.Absent? && Ordered(a, cmp) ==> forall i :: 0 <= i < |a| ==> cmp(a[i]) != Some(0)
  {
    var lo, hi := 0, |a|;
    while lo < hi
      invariant 0 <= lo <= hi <= |a|
      invariant Ordered(a, cmp) ==> forall i :: 0 <= i < lo || hi <= i < |a| ==> cmp(a[i]) != Some(0)
    {
      var mid := lo + (hi - lo) / 2;
      var c := cmp(a[mid]);
      if c.None? {
        return Failed;
      }
      if c.value == 0 {
        return Found(mid);
      } else if c.value < 0 {
        hi := mid;
      } else {
        lo := mid + 1;
      }
    }
    return Absent;
  }
}
