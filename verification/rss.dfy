/**
 * The indexing and query core of the RSS news search engine: which tokens
 * count as words, the string hash its hash sets use, the removal of CDATA
 * markers from a downloaded page, the two article comparators, recording
 * one sighting of a word in an article, and answering a query with the ten
 * most relevant articles.
 *
 * Downloading, HTML/XML tokenising and printing are not modelled. A word's
 * list of articles is a value inside the word's entry, so changes the
 * program makes to that list in place are modelled as entering the changed
 * entry into the word index again.
 */
module RssNewsSearch {
  import opened Wrappers
  import opened CStrings
  import opened Vectors
  import opened HashSets

  /** The bytes of an ASCII string literal. */
  function Bytes(s: string): (r: seq<byte>)
    requires forall i :: 0 <= i < |s| ==> s[i] as int < 256
    ensures |r| == |s| && forall i :: 0 <= i < |s| ==> r[i] == s[i] as int
  {
    seq(|s|, i requires 0 <= i < |s| => s[i] as int)
  }

  // ---------------------------------------------------------------------
  // Words

  /** `isalpha` in the "C" locale. */
  predicate IsAlpha(c: byte)
  {
    'A' as int <= c <= 'Z' as int || 'a' as int <= c <= 'z' as int
  }

  /** `isalnum` in the "C" locale. */
  predicate IsAlnum(c: byte)
  {
    IsAlpha(c) || '0' as int <= c <= '9' as int
  }

  const Hyphen: byte := '-' as int

  /**
   * A word worth indexing: empty, or a letter followed by letters, digits
   * and hyphens.
   */
  predicate WellFormed(w: seq<byte>)
  {
    |w| == 0 || (IsAlpha(w[0]) && forall k :: 1 <= k < |w| ==> IsAlnum(w[k]) || w[k] == Hyphen)
  }

  method WordIsWellFormed(word: seq<byte>) returns (ok: bool)
    ensures ok == WellFormed(word)
  {
    if |word| == 0 {
      return true;
    }
    if !IsAlpha(word[0]) {
      return false;
    }
    var i := 1;
    while i < |word|
      invariant 1 <= i <= |word|
      invariant forall k :: 1 <= k < i ==> IsAlnum(word[k]) || word[k] == Hyphen
    {
      if !IsAlnum(word[i]) && word[i] != Hyphen {
        return false;
      }
      i := i + 1;
    }
    return true;
  }

  /** The bytes at which the page tokeniser splits text into words. */
  predicate IsTextDelimiter(c: byte)
  {
    c in Bytes(" \t\n\r\U{8}!@$%^*()_+={[}]|\\'\":;/?.>,<~`")
  }

  /** No well-formed word contains a byte the tokeniser splits at. */
  lemma WellFormedHasNoDelimiter(w: seq<byte>)
    requires WellFormed(w)
    ensures forall k :: 0 <= k < |w| ==> !IsTextDelimiter(w[k])
  {
    forall k | 0 <= k < |w|
      ensures !IsTextDelimiter(w[k])
    {
      assert k == 0 || IsAlnum(w[k]) || w[k] == Hyphen;
    }
  }

  // ---------------------------------------------------------------------
  // String hashing

  const HashMultiplier: int := -1664117991
  const WordModulus: int := 0x1_0000_0000_0000_0000

  /** A byte as the signed `char` it is read as. */
  function SignedChar(b: byte): (c: int)
    ensures -128 <= c < 128 && c % 256 == b
  {
    if b < 128 then b else b - 256
  }

  /** `tolower` of a signed char: only 'A'..'Z' change, other values pass through. */
  function CharToLower(c: int): int
  {
    if 'A' as int <= c <= 'Z' as int then c + 32 else c
  }

  function HashedChar(b: byte): int
  {
    CharToLower(SignedChar(b))
  }

  /**
   * The unsigned 64-bit hash code of a string: each byte in turn is folded
   * in by multiplying by the (negative) multiplier and adding the byte's
   * lower-case value, all modulo 2^64.
   */
  function HashCode(s: seq<byte>): (h: int)
    ensures 0 <= h < WordModulus
  {
    if s == [] then 0
    else (HashCode(s[..|s| - 1]) * HashMultiplier + HashedChar(s[|s| - 1])) % WordModulus
  }

  /**
   * The bucket of a string among `numBuckets`. The source divides by
   * `numBuckets`, so no bucket exists when it is not positive; the model
   * then answers 0.
   */
  function Bucket(s: seq<byte>, numBuckets: int): (b: int)
    ensures numBuckets > 0 ==> 0 <= b < numBuckets
  {
    if numBuckets > 0 then HashCode(s) % numBuckets else 0
  }

  method StringHash(s: seq<byte>, numBuckets: int) returns (r: int)
    requires numBuckets > 0
    ensures r == Bucket(s, numBuckets) && 0 <= r < numBuckets
  {
    var hashcode := 0;
    var i := 0;
    while i < |s|
      invariant 0 <= i <= |s|
      invariant hashcode == HashCode(s[..i])
    {
      assert s[..i + 1][..i] == s[..i];
      hashcode := (hashcode * HashMultiplier + CharToLower(SignedChar(s[i]))) % WordModulus;
      i := i + 1;
    }
    assert s[..i] == s;
    r := hashcode % numBuckets;
  }

  /** Upper and lower case of a byte hash alike. */
  lemma HashedCharIgnoresCase(b: byte)
    ensures HashedChar(ToLower(b)) == HashedChar(b)
  {
  }

  lemma {:induction false} HashCodeOfEqualChars(a: seq<byte>, b: seq<byte>)
    requires |a| == |b| && forall i :: 0 <= i < |a| ==> HashedChar(a[i]) == HashedChar(b[i])
    ensures HashCode(a) == HashCode(b)
  {
    if a != [] {
      HashCodeOfEqualChars(a[..|a| - 1], b[..|b| - 1]);
    }
  }

  /**
   * Strings that `strcasecmp` calls equal hash to the same bucket, so a
   * hash set keyed by this hash and `strcasecmp` finds every entry.
   */
  lemma BucketIgnoresCase(a: seq<byte>, b: seq<byte>, numBuckets: int)
    requires CaseCompare(a, b) == 0
    ensures Bucket(a, numBuckets) == Bucket(b, numBuckets)
  {
    CaseCompareZeroIff(a, b);
    assert |a| == |Lower(a)| == |Lower(b)| == |b|;
    forall i | 0 <= i < |a|
      ensures HashedChar(a[i]) == HashedChar(b[i])
    {
      HashedCharIgnoresCase(a[i]);
      HashedCharIgnoresCase(b[i]);
      assert ToLower(a[i]) == Lower(a)[i] == Lower(b)[i] == ToLower(b[i]);
    }
    HashCodeOfEqualChars(a, b);
  }

  // ---------------------------------------------------------------------
  // CDATA markers

  const Open: seq<byte> := Bytes("<![CDATA[")
  const Close: seq<byte> := Bytes("]]>")

  /** `s` starts with `p`, bytes compared ignoring case (`strncasecmp` over the length of `p`). */
  predicate CaseMatches(s: seq<byte>, p: seq<byte>)
  {
    |p| <= |s| && (p == [] || (ToLower(s[0]) == ToLower(p[0]) && CaseMatches(s[1..], p[1..])))
  }

  /** The text starts with the CDATA opener, in any mix of case. */
  predicate StartsOpen(s: seq<byte>)
  {
    CaseMatches(s, Open)
  }

  /** The text starts with the CDATA closer exactly (`strncmp`). */
  predicate StartsClose(s: seq<byte>)
  {
    |s| >= |Close| && s[..|Close|] == Close
  }

  /**
   * The text with CDATA markers removed: every opener goes, and so does the
   * first closer after one; every other byte is kept.
   */
  function Strip(s: seq<byte>, inside: bool): (r: seq<byte>)
    ensures |r| <= |s|
    decreases |s|
  {
    if s == [] then []
    else if StartsOpen(s) then Strip(s[|Open|..], true)
    else if inside && StartsClose(s) then Strip(s[|Close|..], false)
    else [s[0]] + Strip(s[1..], inside)
  }

  method RemoveCData(contents: seq<byte>) returns (out: seq<byte>)
    ensures out == Strip(contents, false)
  {
    out := [];
    var insideCData := false;
    var i := 0;
    while i < |contents|
      invariant 0 <= i <= |contents|
      invariant Strip(contents, false) == out + Strip(contents[i..], insideCData)
    {
      StripStepAfter(out, contents, i, insideCData);
      if StartsOpen(contents[i..]) {
        insideCData := true;
        i := i + |Open|;
      } else if insideCData && StartsClose(contents[i..]) {
        insideCData := false;
        i := i + |Close|;
      } else {
        out := out + [contents[i]];
        i := i + 1;
      }
    }
    assert contents[i..] == [];
  }

  /** `StripStep` behind the text `out` kept so far, as the loop of `RemoveCData` uses it. */
  lemma StripStepAfter(out: seq<byte>, s: seq<byte>, i: nat, inside: bool)
    requires i < |s|
    ensures StartsOpen(s[i..]) ==>
      i + |Open| <= |s| && out + Strip(s[i..], inside) == out + Strip(s[i + |Open|..], true)
    ensures !StartsOpen(s[i..]) && inside && StartsClose(s[i..]) ==>
      i + |Close| <= |s| && out + Strip(s[i..], inside) == out + Strip(s[i + |Close|..], false)
    ensures !StartsOpen(s[i..]) && !(inside && StartsClose(s[i..])) ==>
      out + Strip(s[i..], inside) == (out + [s[i]]) + Strip(s[i + 1..], inside)
  {
    StripStep(s, i, inside);
    var rest := Strip(s[i + 1..], inside);
    assert out + ([s[i]] + rest) == (out + [s[i]]) + rest;
  }

  /** One step of the scan in `RemoveCData` at position `i`. */
  lemma StripStep(s: seq<byte>, i: nat, inside: bool)
    requires i < |s|
    ensures StartsOpen(s[i..]) ==>
      i + |Open| <= |s| && Strip(s[i..], inside) == Strip(s[i + |Open|..], true)
    ensures !StartsOpen(s[i..]) && inside && StartsClose(s[i..]) ==>
      i + |Close| <= |s| && Strip(s[i..], inside) == Strip(s[i + |Close|..], false)
    ensures !StartsOpen(s[i..]) && !(inside && StartsClose(s[i..])) ==>
      Strip(s[i..], inside) == [s[i]] + Strip(s[i + 1..], inside)
  {
    var t := s[i..];
    if StartsOpen(t) {
      assert t[|Open|..] == s[i + |Open|..];
    } else if inside && StartsClose(t) {
      assert t[|Close|..] == s[i + |Close|..];
    } else {
      assert t[1..] == s[i + 1..];
    }
  }

  const LessThan: byte := '<' as int
  const CloseBracket: byte := ']' as int

  /** Every opener starts with '<'. */
  lemma OpenStartsWithLessThan(s: seq<byte>)
    requires s != [] && s[0] != LessThan
    ensures !StartsOpen(s)
  {
    assert Open[0] == LessThan;
  }

  lemma {:induction false} CaseMatchesExtended(s: seq<byte>, t: seq<byte>, p: seq<byte>)
    requires CaseMatches(s, p)
    ensures CaseMatches(s + t, p)
  {
    if p != [] {
      assert (s + t)[1..] == s[1..] + t;
      CaseMatchesExtended(s[1..], t, p[1..]);
    }
  }

  /** Text without a '<' outside any CDATA section comes through unchanged. */
  lemma {:induction false} StripKeepsPlainText(s: seq<byte>)
    requires LessThan !in s
    ensures Strip(s, false) == s
  {
    if s != [] {
      OpenStartsWithLessThan(s);
      StripKeepsPlainText(s[1..]);
    }
  }

  /** A closer with no section open is ordinary text. */
  lemma StrayCloseKept(rest: seq<byte>)
    ensures Strip(Close + rest, false) == Close + Strip(rest, false)
  {
    var s := Close + rest;
    assert s[1..] == Close[1..] + rest && s[2..] == Close[2..] + rest;
    assert s[1..][1..] == s[2..] && s[2..][1..] == rest;
    OpenStartsWithLessThan(s);
    OpenStartsWithLessThan(s[1..]);
    OpenStartsWithLessThan(s[2..]);
    assert Strip(s[2..], false) == [s[2]] + Strip(rest, false);
    assert Strip(s[1..], false) == [s[1]] + Strip(s[2..], false);
    assert Strip(s, false) == [s[0]] + Strip(s[1..], false);
    assert Close == [s[0], s[1], s[2]];
  }

  /** No CDATA opener and no closer starts in the first `n` bytes of `s`. */
  predicate NoMarkerBefore(s: seq<byte>, n: nat)
    requires n <= |s|
  {
    forall k :: 0 <= k < n ==> PlainAt(s, k)
  }

  /** Neither marker starts at position `k` of `s`. */
  predicate PlainAt(s: seq<byte>, k: nat)
    requires k < |s|
  {
    !StartsOpen(s[k..]) && !StartsClose(s[k..])
  }

  /**
   * A section whose body holds no marker is removed down to its body: the
   * opener (in any case) and the closer are dropped.
   */
  lemma StripSection(open: seq<byte>, body: seq<byte>, rest: seq<byte>, inside: bool)
    requires |open| == |Open| && CaseMatches(open, Open)
    requires NoMarkerBefore(body + Close + rest, |body|)
    ensures Strip(open + body + Close + rest, inside) == body + Strip(rest, false)
  {
    var s := open + body + Close + rest;
    assert s == open + (body + Close + rest) && s[|Open|..] == body + Close + rest;
    CaseMatchesExtended(open, body + Close + rest, Open);
    StripBody(body, rest);
  }

  /** Inside a section the body is kept up to the first closer, which ends the section. */
  lemma StripBody(body: seq<byte>, rest: seq<byte>)
    requires NoMarkerBefore(body + Close + rest, |body|)
    ensures Strip(body + Close + rest, true) == body + Strip(rest, false)
  {
    var s := body + Close + rest;
    assert s[|body|..][..|Close|] == Close && s[|body| + |Close|..] == rest;
    StripFrom(s, 0, |body|);
    assert s[0..] == s && s[0..|body|] == body;
  }

  /** From position `i` of a section the scan keeps every byte up to the closer at `n`, then leaves the section. */
  lemma {:induction false} StripFrom(s: seq<byte>, i: nat, n: nat)
    requires i <= n && n + |Close| <= |s| && NoMarkerBefore(s, n) && StartsClose(s[n..])
    ensures Strip(s[i..], true) == s[i..n] + Strip(s[n + |Close|..], false)
    decreases n - i
  {
    if i == n {
      StripAtClose(s, n);
    } else {
      StripKeepsByte(s, i, n);
      StripFrom(s, i + 1, n);
      ConcatAssoc([s[i]], s[i + 1..n], Strip(s[n + |Close|..], false));
    }
  }

  /** Concatenation is associative. */
  lemma ConcatAssoc(a: seq<byte>, b: seq<byte>, c: seq<byte>)
    ensures a + (b + c) == (a + b) + c
  {
  }

  /** Inside a section a closer at `n` ends it and is dropped. */
  lemma StripAtClose(s: seq<byte>, n: nat)
    requires n + |Close| <= |s| && StartsClose(s[n..])
    ensures Strip(s[n..], true) == s[n..n] + Strip(s[n + |Close|..], false)
  {
    var t := s[n..];
    assert t[0] == Close[0];
    OpenStartsWithLessThan(t);
    assert t[|Close|..] == s[n + |Close|..];
  }

  /** Inside a section a byte at `i` that starts no marker is kept. */
  lemma StripKeepsByte(s: seq<byte>, i: nat, n: nat)
    requires i < n <= |s| && NoMarkerBefore(s, n)
    ensures Strip(s[i..], true) == [s[i]] + Strip(s[i + 1..], true)
    ensures s[i..n] == [s[i]] + s[i + 1..n]
  {
    assert PlainAt(s, i);
    var t := s[i..];
    assert t[1..] == s[i + 1..];
  }

  /** A body free of '<' and ']' holds no marker, whatever follows it. */
  lemma {:induction false} PlainBodyHasNoMarker(body: seq<byte>, rest: seq<byte>)
    requires LessThan !in body && CloseBracket !in body
    ensures NoMarkerBefore(body + Close + rest, |body|)
  {
    var s := body + Close + rest;
    forall k | 0 <= k < |body|
      ensures PlainAt(s, k)
    {
      assert s[k..][0] == body[k];
      OpenStartsWithLessThan(s[k..]);
      assert Close[0] == CloseBracket;
    }
  }

  /** `a` can be had from `s` by deleting bytes. */
  predicate Subsequence(a: seq<byte>, s: seq<byte>)
    decreases |s|
  {
    if a == [] then true
    else if s == [] then false
    else (a[0] == s[0] && Subsequence(a[1..], s[1..])) || Subsequence(a, s[1..])
  }

  lemma {:induction false} SubsequenceOfSuffix(a: seq<byte>, s: seq<byte>, k: nat)
    requires k <= |s| && Subsequence(a, s[k..])
    ensures Subsequence(a, s)
    decreases k
  {
    if k > 0 {
      assert s[k - 1..][1..] == s[k..];
      assert Subsequence(a, s[k - 1..]);
      SubsequenceOfSuffix(a, s, k - 1);
    }
  }

  /** What is kept is kept in order: the output only ever deletes bytes. */
  lemma {:induction false} StripIsSubsequence(s: seq<byte>, inside: bool)
    ensures Subsequence(Strip(s, inside), s)
    ensures |Strip(s, inside)| <= |s|
    decreases |s|
  {
    if s == [] {
    } else if StartsOpen(s) {
      StripIsSubsequence(s[|Open|..], true);
      SubsequenceOfSuffix(Strip(s, inside), s, |Open|);
    } else if inside && StartsClose(s) {
      StripIsSubsequence(s[|Close|..], false);
      SubsequenceOfSuffix(Strip(s, inside), s, |Close|);
    } else {
      StripIsSubsequence(s[1..], inside);
      var r := Strip(s, inside);
      assert r[0] == s[0] && r[1..] == Strip(s[1..], inside);
    }
  }

  // ---------------------------------------------------------------------
  // Articles

  datatype Article = Article(title: seq<byte>, url: seq<byte>, server: seq<byte>, timesSeen: int)

  /**
   * Two articles are the same when their URLs agree, or when their servers
   * and titles both agree (all ignoring case); otherwise they order by URL.
   */
  function ArticleCompare(a: Article, b: Article): (r: int)
    ensures -1 <= r <= 1
    ensures r != 0 ==> r == CaseCompare(a.url, b.url)
  {
    var urls := CaseCompare(a.url, b.url);
    if urls == 0 then 0
    else if CaseCompare(a.server, b.server) == 0 && CaseCompare(a.title, b.title) == 0 then 0
    else urls
  }

  lemma ArticleCompareZeroIff(a: Article, b: Article)
    ensures ArticleCompare(a, b) == 0 <==>
      Lower(a.url) == Lower(b.url) || (Lower(a.server) == Lower(b.server) && Lower(a.title) == Lower(b.title))
    ensures ArticleCompare(a, b) == -ArticleCompare(b, a)
  {
    CaseCompareZeroIff(a.url, b.url);
    CaseCompareZeroIff(a.server, b.server);
    CaseCompareZeroIff(a.title, b.title);
  }

  /**
   * Being the same article is not transitive: one article can share its
   * URL with a second and its server and title with a third that is
   * different from the second.
   */
  lemma ArticleSamenessNotTransitive()
    ensures exists a, b, c :: ArticleCompare(a, b) == 0 && ArticleCompare(b, c) == 0 && ArticleCompare(a, c) != 0
  {
    var a := Article([1], [2], [3], 0);
    var b := Article([4], [2], [5], 0);
    var c := Article([4], [6], [5], 0);
    CaseCompareZeroIff(a.url, b.url);
    CaseCompareZeroIff(b.server, c.server);
    CaseCompareZeroIff(b.title, c.title);
    CaseCompareZeroIff(a.url, c.url);
    CaseCompareZeroIff(a.server, c.server);
    assert Lower(a.url)[0] != Lower(c.url)[0];
    assert Lower(a.server)[0] != Lower(c.server)[0];
    assert ArticleCompare(a, b) == 0 && ArticleCompare(b, c) == 0 && ArticleCompare(a, c) != 0;
  }

  /** More often seen articles come first. */
  function RelevanceCompare(a: Article, b: Article): (r: int)
    ensures r < 0 <==> a.timesSeen > b.timesSeen
    ensures r == 0 <==> a.timesSeen == b.timesSeen
  {
    b.timesSeen - a.timesSeen
  }

  lemma RelevanceIsComparator(s: seq<Article>)
    ensures ComparatorOn(s, RelevanceCompare)
    ensures forall x, y :: RelevanceCompare(x, y) <= 0 <==> x.timesSeen >= y.timesSeen
  {
    forall x, y, z | NotAfterChain(RelevanceCompare, x, y, z)
      ensures RelevanceCompare(x, z) <= 0
    {
    }
  }

  // ---------------------------------------------------------------------
  // The word index

  /** A word and the articles it was seen in, with how often. */
  datatype WordInfo = WordInfo(word: seq<byte>, articles: seq<Article>)

  /** `wordInfoCompareFn`: two entries are the same exactly when their words agree ignoring case. */
  function WordInfoCompare(a: WordInfo, b: WordInfo): (r: int)
    ensures -1 <= r <= 1
    ensures r == 0 <==> Lower(a.word) == Lower(b.word)
  {
    CaseCompareZeroIff(a.word, b.word);
    CaseCompare(a.word, b.word)
  }

  /** `wordInfoHashFn`: an entry lives in the bucket of its word. */
  function WordInfoBucket(w: WordInfo, numBuckets: int): (b: int)
    ensures numBuckets > 0 ==> 0 <= b < numBuckets
  {
    Bucket(w.word, numBuckets)
  }

  /** `strcasecmp` equality is an equivalence, so both sets may use it. */
  lemma CaseEquivalences()
    ensures ZeroIsEquivalence(CaseCompare)
    ensures ZeroIsEquivalence(WordInfoCompare)
  {
    forall a, b
      ensures CaseCompare(a, b) == 0 <==> Lower(a) == Lower(b)
    {
      CaseCompareZeroIff(a, b);
    }
  }

  /** The stop-word set: words hashed by `Bucket`, compared by `strcasecmp`. */
  ghost predicate StopWordSet(h: HashSet<seq<byte>>)
    reads h, h.Repr
  {
    h.Valid() && h.numBuckets > 0 && h.hashFn == Bucket && h.cmpFn == CaseCompare
  }

  /** The word index: entries hashed and compared by their word. */
  ghost predicate WordDatabase(h: HashSet<WordInfo>)
    reads h, h.Repr
  {
    h.Valid() && h.numBuckets > 0 && h.hashFn == WordInfoBucket && h.cmpFn == WordInfoCompare
  }

  ghost predicate IsStopWord(h: HashSet<seq<byte>>, word: seq<byte>)
    reads h, h.Repr
    requires StopWordSet(h)
  {
    FindIn(h.Contents[Bucket(word, h.numBuckets)], word, CaseCompare).Some?
  }

  /** The entry the index holds for `word`, if any. */
  function Indexed(index: seq<seq<WordInfo>>, word: seq<byte>): Option<WordInfo>
  {
    var b := Bucket(word, |index|);
    if |index| == 0 then None else FindIn(index[b], WordInfo(word, []), WordInfoCompare)
  }

  /** `HashSetEnter` on the word index: the entry replaces the one for its word, or joins its bucket. */
  method EnterWordInfo(info: WordInfo, database: HashSet<WordInfo>)
    requires WordDatabase(database)
    modifies database.Repr
    ensures WordDatabase(database) && fresh(database.Repr - old(database.Repr))
    ensures var b := Bucket(info.word, database.numBuckets);
      database.Contents == old(database.Contents)[b := EnterBucket(old(database.Contents)[b], info, WordInfoCompare)]
  {
    CaseEquivalences();
    database.Enter(info);
  }

  /** The entry found for a word lives in the word's own bucket. */
  lemma IndexedBucket(index: seq<seq<WordInfo>>, word: seq<byte>)
    requires Indexed(index, word).Some?
    ensures Bucket(Indexed(index, word).value.word, |index|) == Bucket(word, |index|)
  {
    var info := Indexed(index, word).value;
    CaseCompareZeroIff(word, info.word);
    BucketIgnoresCase(info.word, word, |index|);
  }

  /** The sum of the sighting counts of a list of articles. */
  function TotalSeen(articles: seq<Article>): int
  {
    if articles == [] then 0 else TotalSeen(articles[..|articles| - 1]) + articles[|articles| - 1].timesSeen
  }

  /**
   * One more sighting of `art`: the first article that is the same as `art`
   * is seen once more, or `art` joins the list seen once.
   */
  function Recorded(articles: seq<Article>, art: Article): seq<Article>
  {
    match FirstMatch(articles, art, ArticleCompare)
    case None => articles + [art.(timesSeen := 1)]
    case Some(k) => articles[k := articles[k].(timesSeen := articles[k].timesSeen + 1)]
  }

  lemma {:induction false} TotalSeenUpdate(s: seq<Article>, k: nat, a: Article)
    requires k < |s|
    ensures TotalSeen(s[k := a]) == TotalSeen(s) - s[k].timesSeen + a.timesSeen
  {
    if k < |s| - 1 {
      assert s[k := a][..|s| - 1] == s[..|s| - 1][k := a];
      TotalSeenUpdate(s[..|s| - 1], k, a);
    } else {
      assert s[k := a][..|s| - 1] == s[..|s| - 1];
    }
  }

  /** Every sighting adds exactly one to the word's total count. */
  lemma RecordedCountsOne(articles: seq<Article>, art: Article)
    ensures TotalSeen(Recorded(articles, art)) == TotalSeen(articles) + 1
  {
    var r := Recorded(articles, art);
    match FirstMatch(articles, art, ArticleCompare)
    case None =>
      assert r == articles + [art.(timesSeen := 1)];
      assert r[..|articles|] == articles;
    case Some(k) =>
      var a := articles[k].(timesSeen := articles[k].timesSeen + 1);
      assert r == articles[k := a];
      TotalSeenUpdate(articles, k, a);
  }

  /**
   * A first sighting adds the article seen once at the end; a later one
   * adds one to the count of the entry it matches and changes nothing else.
   * Either way the next search for the article finds that entry.
   */
  lemma RecordedSighting(articles: seq<Article>, art: Article)
    ensures FirstMatch(articles, art, ArticleCompare).None? ==>
      Recorded(articles, art) == articles + [art.(timesSeen := 1)] &&
      FirstMatch(Recorded(articles, art), art, ArticleCompare) == Some(|articles|)
    ensures FirstMatch(articles, art, ArticleCompare).Some? ==>
      var k := FirstMatch(articles, art, ArticleCompare).value;
      var r := Recorded(articles, art);
      |r| == |articles| && r[k].timesSeen == articles[k].timesSeen + 1 &&
      r[k].(timesSeen := articles[k].timesSeen) == articles[k] &&
      (forall j :: 0 <= j < |r| && j != k ==> r[j] == articles[j]) &&
      FirstMatch(r, art, ArticleCompare) == Some(k)
  {
    var r := Recorded(articles, art);
    match FirstMatch(articles, art, ArticleCompare)
    case None =>
      CaseCompareZeroIff(art.url, art.url);
      assert ArticleCompare(art, r[|articles|]) == 0;
      assert forall i :: 0 <= i < |articles| ==> r[i] == articles[i];
    case Some(k) =>
      assert ArticleCompare(art, r[k]) == ArticleCompare(art, articles[k]);
  }

  /** The entry `word` gets after one sighting in `art`. */
  function Sighted(found: Option<WordInfo>, word: seq<byte>, art: Article): WordInfo
  {
    match found
    case None => WordInfo(word, [art.(timesSeen := 1)])
    case Some(info) => info.(articles := Recorded(info.articles, art))
  }

  /** The index after one sighting of `word` in `art`. */
  function AfterSighting(index: seq<seq<WordInfo>>, word: seq<byte>, art: Article): seq<seq<WordInfo>>
  {
    var b := Bucket(word, |index|);
    if |index| == 0 then index
    else index[b := EnterBucket(index[b], Sighted(Indexed(index, word), word, art), WordInfoCompare)]
  }

  /**
   * After a sighting the index holds an entry for the word whose articles
   * are the old ones with the sighting recorded (a single article seen
   * once when the word is new).
   */
  lemma SightingIsIndexed(index: seq<seq<WordInfo>>, word: seq<byte>, art: Article)
    requires |index| > 0
    ensures Indexed(AfterSighting(index, word, art), word) == Some(Sighted(Indexed(index, word), word, art))
  {
    var e := Sighted(Indexed(index, word), word, art);
    var b := Bucket(word, |index|);
    CaseEquivalences();
    CaseCompareZeroIff(word, e.word);
    if Indexed(index, word).Some? {
      var info := Indexed(index, word).value;
      CaseCompareZeroIff(word, info.word);
    }
    FindAfterEnter(index[b], e, WordInfo(word, []), WordInfoCompare);
  }

  method UpdateWordInfo(word: seq<byte>, art: Article, stopWords: HashSet<seq<byte>>, database: HashSet<WordInfo>)
    requires StopWordSet(stopWords) && WordDatabase(database) && stopWords.Repr !! database.Repr
    modifies database.Repr
    ensures WordDatabase(database) && fresh(database.Repr - old(database.Repr))
    ensures old(IsStopWord(stopWords, word)) ==> database.Contents == old(database.Contents)
    ensures !old(IsStopWord(stopWords, word)) ==> database.Contents == AfterSighting(old(database.Contents), word, art)
  {
    var stop := stopWords.Lookup(word);
    DatabaseUntouched(database);
    assert stop.Some? <==> old(IsStopWord(stopWords, word));
    if stop.None? {
      RecordSighting(word, art, database);
    }
  }

  /** A step that leaves the index's objects alone leaves the index as it was. */
  twostate lemma DatabaseUntouched(database: HashSet<WordInfo>)
    requires old(WordDatabase(database)) && unchanged(database) && unchanged(old(database.Repr))
    ensures WordDatabase(database) && database.Repr == old(database.Repr) && database.Contents == old(database.Contents)
  {
  }

  /** The part of `UpdateWordInfo` past the stop-word check. */
  method RecordSighting(word: seq<byte>, art: Article, database: HashSet<WordInfo>)
    requires WordDatabase(database)
    modifies database.Repr
    ensures WordDatabase(database) && fresh(database.Repr - old(database.Repr))
    ensures database.Contents == AfterSighting(old(database.Contents), word, art)
  {
    var found := database.Lookup(WordInfo(word, []));
    var info := Sighted(found, word, art);
    SightedBucket(database.Contents, word, art, found);
    EnterWordInfo(info, database);
  }

  /** The entry a sighting stores goes back into the bucket of the word it was found under. */
  lemma SightedBucket(index: seq<seq<WordInfo>>, word: seq<byte>, art: Article, found: Option<WordInfo>)
    requires |index| > 0 && found == Indexed(index, word)
    ensures var info := Sighted(found, word, art);
      var b := Bucket(info.word, |index|);
      index[b := EnterBucket(index[b], info, WordInfoCompare)] == AfterSighting(index, word, art)
  {
    if found.Some? {
      IndexedBucket(index, word);
    }
  }

  // ---------------------------------------------------------------------
  // Queries

  /** The answer to a query for one word. */
  datatype Response =
    | Malformed
    | TooCommon
    | Unindexed
      /** `sorted` is the word's articles most relevant first; `reported` the ones listed. */
    | Ranked(sorted: seq<Article>, reported: seq<Article>)

  const ReportLimit: nat := 10

  /** The ten articles a query lists: the first ones of the ranking. */
  predicate ReportsTop(sorted: seq<Article>, reported: seq<Article>)
  {
    |reported| == (if |sorted| < ReportLimit then |sorted| else ReportLimit) &&
    reported == sorted[..|reported|]
  }

  /** Every listed article, taken from the front of a ranking, is seen at least as often as every unlisted one. */
  lemma ReportedOutrankRest(sorted: seq<Article>, reported: seq<Article>)
    requires forall i, j :: 0 <= i < j < |sorted| ==> sorted[i].timesSeen >= sorted[j].timesSeen
    requires ReportsTop(sorted, reported)
    ensures forall i, j :: 0 <= i < |reported| <= j < |sorted| ==> reported[i].timesSeen >= sorted[j].timesSeen
  {
  }

  method ProcessResponse(word: seq<byte>, stopWords: HashSet<seq<byte>>, database: HashSet<WordInfo>) returns (r: Response)
    requires StopWordSet(stopWords) && WordDatabase(database) && stopWords.Repr !! database.Repr
    modifies database.Repr
    ensures WordDatabase(database) && fresh(database.Repr - old(database.Repr))
    ensures r.Malformed? <==> !WellFormed(word)
    ensures r.TooCommon? <==> WellFormed(word) && old(IsStopWord(stopWords, word))
    ensures r.Unindexed? <==> WellFormed(word) && !old(IsStopWord(stopWords, word)) && Indexed(old(database.Contents), word).None?
    ensures !r.Ranked? ==> database.Contents == old(database.Contents)
    ensures r.Ranked? ==> Answered(old(database.Contents), word, r, database.Contents)
  {
    var ok := WordIsWellFormed(word);
    if !ok {
      r := Malformed;
    } else {
      var stop := stopWords.Lookup(word);
      if stop.Some? {
        r := TooCommon;
      } else {
        r := RankArticles(word, database);
      }
    }
  }

  /**
   * A ranked answer for `word`: its articles reordered most seen first
   * (and stored so), with the first ten of them listed; every listed
   * article is seen at least as often as every unlisted one.
   */
  ghost predicate Answered(index: seq<seq<WordInfo>>, word: seq<byte>, r: Response, index': seq<seq<WordInfo>>)
    requires r.Ranked?
  {
    var b := Bucket(word, |index|);
    Indexed(index, word).Some? && 0 <= b < |index| &&
    var info := Indexed(index, word).value;
    multiset(r.sorted) == multiset(info.articles) &&
    (forall i, j :: 0 <= i < j < |r.sorted| ==> r.sorted[i].timesSeen >= r.sorted[j].timesSeen) &&
    index' == index[b := EnterBucket(index[b], info.(articles := r.sorted), WordInfoCompare)] &&
    ReportsTop(r.sorted, r.reported) &&
    (forall i, j :: 0 <= i < |r.reported| <= j < |r.sorted| ==> r.reported[i].timesSeen >= r.sorted[j].timesSeen)
  }

  /** The articles a query lists, taken from the front of the ranking. */
  method TopArticles(sorted: seq<Article>) returns (reported: seq<Article>)
    ensures ReportsTop(sorted, reported)
  {
    reported := [];
    var i := 0;
    while i < ReportLimit && i < |sorted|
      invariant 0 <= i <= |sorted| && i <= ReportLimit
      invariant reported == sorted[..i]
    {
      reported := reported + [sorted[i]];
      i := i + 1;
    }
  }

  /** A word's articles reordered most seen first, as `VectorSort` with `RelevanceCompare` leaves them. */
  method SortByRelevance(articles: seq<Article>) returns (sorted: seq<Article>)
    ensures multiset(sorted) == multiset(articles)
    ensures forall i, j :: 0 <= i < j < |sorted| ==> sorted[i].timesSeen >= sorted[j].timesSeen
  {
    RelevanceIsComparator(articles);
    sorted := SortBy(articles, RelevanceCompare);
    SortBySorted(articles, RelevanceCompare);
  }

  /** The part of `ProcessResponse` past the stop-word check. */
  method RankArticles(word: seq<byte>, database: HashSet<WordInfo>) returns (r: Response)
    requires WordDatabase(database)
    modifies database.Repr
    ensures WordDatabase(database) && fresh(database.Repr - old(database.Repr))
    ensures r.Unindexed? || r.Ranked?
    ensures r.Unindexed? <==> Indexed(old(database.Contents), word).None?
    ensures r.Unindexed? ==> database.Contents == old(database.Contents)
    ensures r.Ranked? ==> Answered(old(database.Contents), word, r, database.Contents)
  {
    var found := database.Lookup(WordInfo(word, []));
    assert found == Indexed(database.Contents, word);
    if found.None? {
      r := Unindexed;
    } else {
      r := RankEntry(word, found.value, database);
    }
  }

  /** Ranking the articles of the entry found for `word`. */
  method RankEntry(word: seq<byte>, info: WordInfo, database: HashSet<WordInfo>) returns (r: Response)
    requires WordDatabase(database) && Indexed(database.Contents, word) == Some(info)
    modifies database.Repr
    ensures WordDatabase(database) && fresh(database.Repr - old(database.Repr))
    ensures r.Ranked? && Answered(old(database.Contents), word, r, database.Contents)
  {
    var sorted := SortByRelevance(info.articles);
    var reported := TopArticles(sorted);
    r := Ranked(sorted, reported);
    ReportedOutrankRest(sorted, reported);
    IndexedBucket(database.Contents, word);
    EnterWordInfo(info.(articles := sorted), database);
  }
}
