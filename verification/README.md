# Programming-paradigms assignments: verified model

This project models, in Dafny, the core of four C/C++ assignment programs and
proves what they promise.

- **The IMDB index reader** (`assn-02/imdb.cc`, module `Imdb`, file `imdb.dfy`).
  - The database is two byte buffers of offset-addressed records.
  - `getCredits` and `getCast` binary-search a sorted offset table, then decode one actor or movie record.
  - Decoding is bounds-checked: a read outside a buffer yields `CorruptIndex`.
  - The C code has no such check; out of bounds it has undefined behaviour.
  - An encoder for both record kinds comes with `decode(encode(x)) == x` lemmas.
- **The six-degrees search** (`assn-02/six-degrees.cc`, module `SixDegrees`).
  - A breadth-first search over partial paths, with global seen-sets and a bound of six hops.
  - The main loop proves that a reported path is valid, ends in the target and is a shortest one.
  - No answer means there is no connection of six hops or fewer.
  - Each film's cast is fetched at most once, and each player ends at most one path.
- **The generic containers** (`assn-03/vector.c`, `assn-03/hashset.c`, modules `Vectors` and `HashSets`).
  - A growable array class over a Dafny `array`, with a `2n+1` growth rule and in-place shifting.
  - A separate-chaining hash set class whose buckets are vectors.
  - `Enter` replaces an equal entry or appends and counts.
- **The RSS indexer's core** (`assn-04/rss-news-search.c`, module `RssNewsSearch`).
  - Word validation and the case-insensitive string hash.
  - The CDATA-marker removal loop and the two article comparators.
  - `updateWordInfo` (one sighting of a word in an article).
  - The ranking and top-10 selection of `ProcessResponse`, over the `HashSet` and `Vector` models.

Supporting modules:

- `Wrappers` holds `Option`.
- `CStrings` models bytes, `strcmp`, `tolower` and `strcasecmp` in the "C" locale.
- `Search` models the C library's `bsearch`, with a comparator that may fail on corrupt data.

## Model

| member | source | states |
|---|---|---|
| CStrings.Compare | assn-02/imdb.cc:40 | `strcmp` answers -1, 0 or 1 (only its sign matters to the callers) |
| CStrings.CaseCompare | assn-04/rss-news-search.c:87-90 | `strcasecmp` answers -1, 0 or 1 |
| CStrings.CompareZeroIffEqual | assn-02/imdb.cc:40 | `strcmp` answers 0 exactly when the two strings are equal |
| CStrings.CompareTransitive | assn-02/imdb.cc:75 | `strcmp` order is transitive, as `bsearch` over name-sorted offsets needs |
| CStrings.CaseCompareIsCompareOfLower | assn-04/rss-news-search.c:87-90 | `strcasecmp` is `strcmp` of the lower-cased strings |
| CStrings.CaseCompareZeroIff | assn-04/rss-news-search.c:136-141 | `strcasecmp` answers 0 exactly when the lower-cased strings are equal, and swapping its arguments negates it |
| Imdb.FilmCompare | assn-02/imdb.cc:58-62 | the three-way film answer is 0 iff the films are equal, negative iff the key sorts first, positive iff it sorts after |
| Imdb.FilmLessIsStrictOrder | assn-02/imdb.cc:58-62 | film order (title by `strcmp`, then year) is irreflexive, transitive and total |
| Imdb.CStringAt | assn-02/imdb.cc:95-98 | a string read succeeds iff a NUL follows the offset inside the buffer; the result is the NUL-free bytes up to that NUL |
| Imdb.Int32sAt | assn-02/imdb.cc:66-68 | `n` consecutive `int`s decode iff they fit in the buffer, each being the `int` at its position |
| Imdb.OffsetTable | assn-02/imdb.cc:66-68 | the table has the length read from the first `int`, entry `i` is the `int` at `4 + 4i`, and failure means a short buffer, a negative count or an overrun |
| Imdb.ActorCountPos | assn-02/imdb.cc:82-85 | an actor's film count sits at an even position, `len(name)+1` or `+2` from the record start |
| Imdb.MovieCountPos | assn-02/imdb.cc:122-124 | a movie's cast count sits at an even position, `len(title)+2` or `+3` from the record start |
| Imdb.OffsetsPos | assn-02/imdb.cc:88-90 | the offsets start 2 to 4 bytes after the count, at a multiple of 4 when the count position is even |
| Imdb.OffsetArraysAligned | assn-02/imdb.cc:127-129 | for both record kinds the offset array starts 4-aligned relative to the record |
| Imdb.RecordOffsets | assn-02/imdb.cc:87-90 | a record's offsets are as many as its signed `short` count (none if negative), read from the aligned offset array |
| Imdb.FilmAt | assn-02/imdb.cc:96-99 | a film decodes iff its title and the year byte after the NUL are in the buffer; the year is 1900 plus the signed byte |
| Imdb.FilmsAt | assn-02/imdb.cc:93-102 | a list of movie offsets decodes iff every film does, giving the films in order |
| Imdb.NamesAt | assn-02/imdb.cc:132-137 | a list of actor offsets decodes iff every name does, giving the names in order |
| Imdb.DecodeAll | assn-02/imdb.cc:93-102 | decoding a list of offsets succeeds iff every offset decodes, giving one item per offset in order |
| Imdb.CreditsAt | assn-02/imdb.cc:82-102 | decoded credits are exactly the films at the actor record's offsets, one per offset, in order |
| Imdb.CastAt | assn-02/imdb.cc:121-137 | a decoded cast is exactly the names at the movie record's offsets, one per offset, in order |
| Imdb.NamesCmp | assn-02/imdb.cc:33-41 | `namesCmp` fails iff the stored name is corrupt; otherwise it is 0 iff that name equals the key and negative iff the key sorts first |
| Imdb.FilmsCmp | assn-02/imdb.cc:48-63 | `filmsCmp` fails iff the stored film is corrupt; otherwise it is 0, negative or positive as the key equals, precedes or follows it |
| Imdb.SortedNamesSearchable | assn-02/imdb.cc:75-78 | an actor table sorted by `strcmp` of the names is ordered for the name comparator, whatever the key |
| Imdb.SortedFilmsSearchable | assn-02/imdb.cc:113-116 | a movie table sorted by film order is ordered for the film comparator, whatever the key |
| Search.BinarySearch | assn-02/imdb.cc:75-78 | a hit is an entry the comparator calls equal; a failure names an uncomparable entry; on an ordered table, absence means no entry is equal |
| Imdb.AppendRecord | assn-02/imdb.cc:82-102 | on success exactly the record's count of decoded items is appended in on-disk order; on failure the offsets or one item are corrupt; the prefix is never touched |
| Imdb.CreditsFromRecord | assn-02/imdb.cc:93-102 | films appended one per record offset are the actor record's credits |
| Imdb.GetCredits | assn-02/imdb.cc:65-105 | false leaves `films` unchanged and, on a sorted table, means no actor has the name; true means a record with the name was found and its credits appended in order |
| Imdb.CastFromRecord | assn-02/imdb.cc:132-137 | names appended one per record offset are the movie record's cast |
| Imdb.GetCast | assn-02/imdb.cc:107-140 | false leaves `players` unchanged and, on a sorted table, means no record holds the film; true means its cast was appended in order |
| Imdb.Int16RoundTrip | assn-02/imdb.cc:87 | a `short` written little-endian reads back as itself |
| Imdb.Int32RoundTrip | assn-02/imdb.cc:95 | an `int` written little-endian reads back as itself |
| Imdb.Int32sRoundTrip | assn-02/imdb.cc:93-101 | a written run of `int`s reads back as itself |
| Imdb.CStringRoundTrip | assn-02/imdb.cc:98 | a NUL-free string written with its NUL reads back as itself |
| Imdb.EncodeOffsetsRoundTrip | assn-02/imdb.cc:87-101 | an encoded count, padding and offset array decode to the offsets |
| Imdb.ActorRecordRoundTrip | assn-02/imdb.cc:80-102 | an encoded actor record decodes to its name and film offsets, wherever it sits in the buffer |
| Imdb.FilmRoundTrip | assn-02/imdb.cc:55-56 | a title, NUL and year byte decode to the film |
| Imdb.MovieRecordRoundTrip | assn-02/imdb.cc:121-137 | an encoded movie record decodes to its film and cast offsets |
| SixDegrees.AddConnectionValid | assn-02/six-degrees.cc:71-72 | extending a valid path by a film of its last player and a member of that film's cast gives a valid path one hop longer ending in that member |
| SixDegrees.ReachActor | assn-02/six-degrees.cc:67-80 | an unseen cast member is marked seen and ends a new path, which is the answer if it is the target; the search invariant holds and the log shows no player twice |
| SixDegrees.ExpandFilm | assn-02/six-degrees.cc:65-81 | every cast member of the film is reached at most one level on; a result is a valid path to the target, with no shorter one |
| SixDegrees.VisitFilm | assn-02/six-degrees.cc:57-63 | an unseen film is marked seen and its cast fetched once; otherwise nothing changes |
| SixDegrees.ExpandPlayer | assn-02/six-degrees.cc:50-83 | every film of the front path's last player is visited; queued paths keep non-decreasing length; a result is a valid shortest path to the target |
| SixDegrees.GenerateShortestPath | assn-02/six-degrees.cc:40-86 | a found path connects start to target in 1 to 6 hops and is shortest when they differ; none found means no connection within 6 hops; no film is queried and no player named twice; every named player is in the cast of a queried film; with none found, the queried films are exactly the credits of the expanded players, and every cast member of a queried film other than start is named |
| SixDegrees.ExhaustedLogs | assn-02/six-degrees.cc:48-85 | when the queue is spent, the expanded players are start and named players, and the queried films are exactly their credits |
| SixDegrees.FindConnection | assn-02/six-degrees.cc:117-121 | equal players are turned away; otherwise the answer is a shortest connection within 6 hops or proof that none exists |
| Vectors.Vector.constructor | assn-03/vector.c:25-32 | a new vector is empty with `initialAllocation` slots |
| Vectors.Vector.Grow | assn-03/vector.c:14-23 | the allocation becomes `2 * allocLen + 1`, every allocated slot and the elements are kept |
| Vectors.Vector.Nth | assn-03/vector.c:53-57 | requires `0 <= position < logLen`; yields the element at `position` |
| Vectors.Vector.Replace | assn-03/vector.c:59-69 | only the slot at `position` changes; the length stays |
| Vectors.Vector.ShiftUp | assn-03/vector.c:81-86 | elements before `position` stay, those from `position` move one slot up |
| Vectors.Vector.Insert | assn-03/vector.c:71-92 | the elements become the old ones with `x` at `position`; the array is reallocated exactly when the vector was full |
| Vectors.Vector.Append | assn-03/vector.c:94-98 | `x` is added at the old length |
| Vectors.Vector.Delete | assn-03/vector.c:100-117 | the element at `position` is removed, later ones shift down, the allocation stays |
| Vectors.Vector.Map | assn-03/vector.c:126-135 | the result is the map function folded over the elements, first to last |
| Vectors.FoldVisitsInOrder | assn-03/vector.c:131-134 | a logging map function sees every element exactly once, in order |
| Vectors.Vector.SearchSafe | assn-03/vector.c:138-152 | a result is an index from `startIndex` on whose element matches; unsorted mode finds the first; -1 in sorted mode on a sorted range means no match |
| Vectors.Vector.Search | assn-03/vector.c:154-167 | -1 on an empty vector; otherwise as the safe search, with `startIndex` required in range |
| Vectors.SortBySorted | assn-03/vector.c:119-124 | the reference sort yields a sorted permutation under a consistent comparator |
| Vectors.SortedIsSearchable | assn-03/vector.c:142-143 | a sorted table is laid out as binary search needs, for any key |
| Vectors.Vector.Sort | assn-03/vector.c:119-124 | the elements become a sorted permutation of themselves |
| HashSets.FirstMatch | assn-03/hashset.c:51 | the linear search finds the first entry equal to the key, or says none is |
| HashSets.EnterBucketKeepsDistinct | assn-03/hashset.c:53-59 | entering keeps a bucket free of equal pairs and lengthens it exactly when no equal entry was there |
| HashSets.FindAfterEnter | assn-03/hashset.c:62-71 | after `e` is entered, a lookup of any key equal to `e` yields `e` |
| HashSets.FindElsewhereAfterEnter | assn-03/hashset.c:50-59 | entering into one bucket leaves lookups in every other bucket unchanged |
| HashSets.TotalLengthFlatten | assn-03/hashset.c:34-46 | the count of entries is the number of entries mapping visits |
| HashSets.TotalLengthUpdate | assn-03/hashset.c:55 | changing one bucket changes the total by that bucket's change in length |
| HashSets.NewBuckets | assn-03/hashset.c:17-20 | `numBuckets` fresh empty vectors over distinct arrays |
| HashSets.HashSet.constructor | assn-03/hashset.c:6-21 | a new set has `numBuckets` empty buckets, count 0 and the given hash and compare functions |
| HashSets.HashSet.Count | assn-03/hashset.c:34-37 | the count is the total number of entries in all buckets |
| HashSets.EnterIntoBucket | assn-03/hashset.c:51-59 | the bucket's entries become the old ones with `e` replacing the first equal entry or appended, and says which |
| HashSets.HashSet.Enter | assn-03/hashset.c:48-60 | only bucket `hashFn(e)` changes: `e` replaces an equal entry or is appended; the count grows exactly on append |
| HashSets.HashSet.Lookup | assn-03/hashset.c:62-71 | yields the entry of bucket `hashFn(e)` equal to `e`, or none, changing nothing |
| HashSets.HashSet.Map | assn-03/hashset.c:39-46 | the map function is folded over every entry, bucket by bucket |
| RssNewsSearch.WordIsWellFormed | assn-04/rss-news-search.c:741-752 | accepts exactly the empty word and words of a letter followed by letters, digits and hyphens |
| RssNewsSearch.WellFormedHasNoDelimiter | assn-04/rss-news-search.c:60-61 | no well-formed word contains a byte the tokeniser splits at |
| RssNewsSearch.HashCode | assn-04/rss-news-search.c:67-72 | the hash code is an unsigned 64-bit value |
| RssNewsSearch.StringHash | assn-04/rss-news-search.c:65-75 | the loop computes the string's hash code modulo 2^64, and the bucket lies in `[0, numBuckets)` |
| RssNewsSearch.BucketIgnoresCase | assn-04/rss-news-search.c:72 | strings `strcasecmp` calls equal fall in the same bucket |
| RssNewsSearch.HashCodeOfEqualChars | assn-04/rss-news-search.c:71-72 | strings whose bytes hash alike one by one have equal hash codes |
| RssNewsSearch.RemoveCData | assn-04/rss-news-search.c:213-224 | the output is the input with CDATA markers removed |
| RssNewsSearch.StripStep | assn-04/rss-news-search.c:214-223 | each loop step drops an opener, drops a closer inside a section, or keeps one byte |
| RssNewsSearch.StripKeepsPlainText | assn-04/rss-news-search.c:221-222 | text without a `<` outside any section comes through unchanged |
| RssNewsSearch.StrayCloseKept | assn-04/rss-news-search.c:218 | a `]]>` with no section open is kept |
| RssNewsSearch.StripSection | assn-04/rss-news-search.c:215-220 | a section's opener (in any case) and closer are dropped and its body kept, when no marker starts inside the body |
| RssNewsSearch.StripBody | assn-04/rss-news-search.c:218-220 | inside a section the body is kept up to the first `]]>`, which closes it, when no marker starts inside the body |
| RssNewsSearch.PlainBodyHasNoMarker | assn-04/rss-news-search.c:215-218 | no marker can start inside a body free of `<` and `]` |
| RssNewsSearch.Strip | assn-04/rss-news-search.c:213-224 | the stripped text is never longer than the input |
| RssNewsSearch.StripIsSubsequence | assn-04/rss-news-search.c:213-224 | the output only deletes bytes: it is an in-order subsequence of the input |
| RssNewsSearch.ArticleCompare | assn-04/rss-news-search.c:98-113 | the answer is -1, 0 or 1, and a nonzero answer is the URL comparison |
| RssNewsSearch.ArticleCompareZeroIff | assn-04/rss-news-search.c:98-113 | two articles compare equal iff their URLs match ignoring case or both servers and titles do; swapping negates the answer |
| RssNewsSearch.ArticleSamenessNotTransitive | assn-04/rss-news-search.c:98-113 | three articles exist where the first equals the second and the second the third, but not the first the third |
| RssNewsSearch.RelevanceCompare | assn-04/rss-news-search.c:115-120 | negative iff the first article was seen more often, 0 iff equally often |
| RssNewsSearch.RelevanceIsComparator | assn-04/rss-news-search.c:115-120 | the relevance comparator is consistent, and puts `x` no later than `y` iff `x` was seen at least as often |
| RssNewsSearch.WordInfoCompare | assn-04/rss-news-search.c:136-141 | two word entries compare equal iff their words are equal once lower-cased |
| RssNewsSearch.WordInfoBucket | assn-04/rss-news-search.c:143-147 | a word entry's bucket lies in `[0, numBuckets)` |
| RssNewsSearch.Bucket | assn-04/rss-news-search.c:65-75 | a string's bucket lies in `[0, numBuckets)` |
| RssNewsSearch.CaseEquivalences | assn-04/rss-news-search.c:136-141 | `strcasecmp` and the word-entry comparator have an equivalence relation as their "equal" |
| RssNewsSearch.IndexedBucket | assn-04/rss-news-search.c:143-147 | the entry found for a word hashes to the word's own bucket |
| RssNewsSearch.EnterWordInfo | assn-04/rss-news-search.c:794 | entering an entry replaces the one for its word, or joins its bucket |
| RssNewsSearch.TotalSeenUpdate | assn-04/rss-news-search.c:810 | changing one article's count changes the word's total by the difference |
| RssNewsSearch.RecordedCountsOne | assn-04/rss-news-search.c:800-811 | every sighting adds exactly one to the word's total count |
| RssNewsSearch.RecordedSighting | assn-04/rss-news-search.c:800-811 | a first sighting appends the article seen once; a later one adds one to the matched article's count and changes nothing else; the next search finds it |
| RssNewsSearch.SightingIsIndexed | assn-04/rss-news-search.c:786-811 | after a sighting the index yields the word's entry with the sighting recorded |
| RssNewsSearch.RecordSighting | assn-04/rss-news-search.c:783-811 | the index becomes the old one with the sighting recorded |
| RssNewsSearch.UpdateWordInfo | assn-04/rss-news-search.c:773-812 | a stop word leaves the index unchanged; any other word has the sighting recorded |
| RssNewsSearch.TopArticles | assn-04/rss-news-search.c:709-722 | the listed articles are the first `min(10, n)` of the ranking |
| RssNewsSearch.SortByRelevance | assn-04/rss-news-search.c:707 | the articles are reordered, as a permutation, most seen first |
| RssNewsSearch.RankEntry | assn-04/rss-news-search.c:705-722 | the answer ranks the entry's articles, stores the new order, and lists the first ten, each seen at least as often as any unlisted one |
| RssNewsSearch.RankArticles | assn-04/rss-news-search.c:696-723 | an unindexed word gets a "none found" answer with nothing changed; an indexed one a ranked answer |
| RssNewsSearch.ProcessResponse | assn-04/rss-news-search.c:683-728 | malformed iff the word is not well-formed; too common iff it is a stop word; unindexed iff it has no entry; otherwise a ranked answer, with at most ten articles listed in non-increasing count order |

## Left out

- I/O is not modelled:
  - mapping the index files (`acquireFileMap`, `releaseFileMap`, `good`) and the prompt loop of `main`;
  - printing; curl, feed fetching and parsing, tokenising and stop-word loading.
  - The index buffers, the graph and the query word are parameters.
  - `RemoveCData` works on a byte sequence in memory rather than a file.
- `Film` `==` and `<`, and the `path` class, live in headers that are not part of this model.
  - Film order is taken as title by `strcmp`, then year.
  - A path is a value: a start player plus (film, player) hops.
- The year byte and the count `short` are read as signed (x86 `char`, little-endian).
  - A negative count means no iterations, as the C `for` loop gives.
- Imdb.GetCredits, Imdb.GetCast: every out-of-bounds read yields `CorruptIndex` instead of the undefined behaviour of the C code.
- `bsearch`, `lfind`, `qsort`, `realloc`, `malloc` and `free` are library calls. They are modelled by their contracts:
  - `bsearch` by a binary search proved against that contract;
  - `lfind` by the first-match loop;
  - `qsort` by an insertion-sort reference whose outcome, a sorted permutation, is written back.
- Element size, `memcpy`/`memmove` and the free-function callbacks are not modelled; elements are values of a type parameter.
  - `VectorDispose` and `HashSetDispose` release memory only and are not modelled.
- The C map callbacks return nothing and mutate through `auxData`. Vectors.Vector.Map, HashSets.HashSet.Map: the callback is a pure function that threads the auxiliary data.
- Imdb.GetCredits requires a NUL-free player name. The C code passes `player.c_str()` while the length it uses is `player.length()`; for a name with an embedded NUL the two disagree, a case the model excludes.
- Vectors.Vector.Grow: `allocLen * 2 + 1` is an `int` in C and overflows past 2^30 slots; the model's allocation is unbounded.
- Vectors.Vector.Map, HashSets.HashSet.Map: the C callbacks receive each element's address and could change elements in place; the model's map function only reads the elements.
- HashSets.HashSet.Enter, HashSets.HashSet.Lookup: the range of `hashFn` is never checked in the C code, so `0 <= hashFn(e) < numBuckets` is a precondition.
- HashSets.HashSet.Enter also requires the comparator's "equal" to be an equivalence relation. The C code assumes this silently; the no-equal-pair invariant needs it. Both RSS comparators used with hash sets meet it (`CaseEquivalences`).
- RssNewsSearch.Bucket: `stringHash` divides by `numBuckets`, so a non-positive bucket count has no meaning; the model answers 0 there.
- RssNewsSearch.HashCode: `tolower` of a negative `char` is taken to leave it unchanged (glibc behaviour).
- RssNewsSearch.RemoveCData: the C code compares `contents + i` with `strncasecmp`/`strncmp` on an unterminated buffer. Near the end of the file it reads past the data. The model recognises a marker only when all of its bytes are inside the text.
- RssNewsSearch.UpdateWordInfo: in the C code the article list is a vector inside the stored `wordInfo`, updated in place through the pointer `HashSetLookup` returns. Here a word entry is a value, and the changed entry is entered into the index again, replacing the old one.
  - For the same reason, the order `VectorSort` leaves in the stored list is written back the same way in RankEntry.
  - The `timesSeen` field of the caller's article, which the C code sets to 1, is not changed; the stored copy has it.
- RssNewsSearch.RecordedCountsOne: `timesSeen` is an `int` in C; the model does not bound it (no wrap-around after 2^31 - 1 sightings).
- RssNewsSearch.ProcessResponse: the wording of the printed lines is not modelled, including singular versus plural "time(s)". The answer lists the articles instead.
- `articleHashFn` and the `visitedArticles` set are outside this core. `ArticleSamenessNotTransitive` shows that the article comparator's "equal" is not an equivalence relation, so a hash set keyed by it could not keep the invariant `HashSets.HashSet.Enter` relies on.
- Helper members split out for proof size have no C counterpart of their own and follow the lines cited for them:
  - RssNewsSearch: RecordSighting, RankArticles, RankEntry, EnterWordInfo, SortByRelevance, TopArticles;
  - HashSets: EnterIntoBucket, NewBuckets;
  - SixDegrees: ReachActor, VisitFilm, ExpandFilm, ExpandPlayer.
- assn-06/bank.h is concurrency declarations only and is not part of this model.
