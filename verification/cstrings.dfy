/**
 * The pieces of the C library's string handling that the programs rely on:
 * NUL-terminated byte strings, `strcmp`, `tolower` and `strcasecmp` in the
 * "C" locale. A C string is modelled as the sequence of its bytes without
 * the terminating NUL.
 */
module CStrings {

  type byte = x: int | 0 <= x < 256

  const NUL: byte := 0

  /** A sequence of bytes that can be held in a C string. */
  predicate NoNul(s: seq<byte>)
  {
    forall i :: 0 <= i < |s| ==> s[i] != NUL
  }

  /**
   * `strcmp`: the sign of the first difference, bytes compared as unsigned
   * char; a proper prefix compares below (its NUL meets a non-NUL byte).
   */
  function Compare(a: seq<byte>, b: seq<byte>): (r: int)
    ensures -1 <= r <= 1
  {
    if a == [] then (if b == [] then 0 else -1)
    else if b == [] then 1
    else if a[0] < b[0] then -1
    else if a[0] > b[0] then 1
    else Compare(a[1..], b[1..])
  }

  lemma {:induction false} CompareZeroIffEqual(a: seq<byte>, b: seq<byte>)
    ensures Compare(a, b) == 0 <==> a == b
  {
    if a != [] && b != [] && a[0] == b[0] {
      CompareZeroIffEqual(a[1..], b[1..]);
      assert a == [a[0]] + a[1..] && b == [b[0]] + b[1..];
    }
  }

  lemma {:induction false} CompareAntisymmetric(a: seq<byte>, b: seq<byte>)
    ensures Compare(a, b) == -Compare(b, a)
  {
    if a != [] && b != [] && a[0] == b[0] {
      CompareAntisymmetric(a[1..], b[1..]);
    }
  }

  lemma {:induction false} CompareTransitive(a: seq<byte>, b: seq<byte>, c: seq<byte>)
    requires Compare(a, b) < 0 && Compare(b, c) < 0
    ensures Compare(a, c) < 0
  {
    if a != [] && b != [] && c != [] && a[0] == b[0] && b[0] == c[0] {
      CompareTransitive(a[1..], b[1..], c[1..]);
    }
  }

  /** `tolower` in the "C" locale: only 'A'..'Z' change. */
  function ToLower(c: byte): (r: byte)
    ensures 'A' as int <= c <= 'Z' as int ==> r == c + 32
    ensures !('A' as int <= c <= 'Z' as int) ==> r == c
  {
    if 'A' as int <= c <= 'Z' as int then c + 32 else c
  }

  function Lower(s: seq<byte>): (r: seq<byte>)
    ensures |r| == |s|
    ensures forall i :: 0 <= i < |s| ==> r[i] == ToLower(s[i])
  {
    if s == [] then [] else [ToLower(s[0])] + Lower(s[1..])
  }

  /**
   * `strcasecmp`: the sign of the first difference between the lower-cased
   * bytes, a proper prefix comparing below.
   */
  function CaseCompare(a: seq<byte>, b: seq<byte>): (r: int)
    ensures -1 <= r <= 1
  {
    if a == [] then (if b == [] then 0 else -1)
    else if b == [] then 1
    else if ToLower(a[0]) < ToLower(b[0]) then -1
    else if ToLower(a[0]) > ToLower(b[0]) then 1
    else CaseCompare(a[1..], b[1..])
  }

  /** `strcasecmp` is `strcmp` on the lower-cased strings. */
  lemma {:induction false} CaseCompareIsCompareOfLower(a: seq<byte>, b: seq<byte>)
    ensures CaseCompare(a, b) == Compare(Lower(a), Lower(b))
  {
    if a != [] && b != [] {
      assert Lower(a)[1..] == Lower(a[1..]) && Lower(b)[1..] == Lower(b[1..]);
      CaseCompareIsCompareOfLower(a[1..], b[1..]);
    }
  }

  lemma CaseCompareZeroIff(a: seq<byte>, b: seq<byte>)
    ensures CaseCompare(a, b) == 0 <==> Lower(a) == Lower(b)
    ensures CaseCompare(a, b) == -CaseCompare(b, a)
  {
    CaseCompareIsCompareOfLower(a, b);
    CaseCompareIsCompareOfLower(b, a);
    CompareZeroIffEqual(Lower(a), Lower(b));
    CompareAntisymmetric(Lower(a), Lower(b));
  }
}
