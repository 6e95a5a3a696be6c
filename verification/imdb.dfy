/**
 * The IMDB index reader. Two read-only byte buffers hold the data:
 *
 *  actor data: a 4-byte record count, a table of 4-byte offsets sorted by
 *    the name of the actor record they point to, then the records. An actor
 *    record is the NUL-terminated name, one pad byte when the name length is
 *    even, a 2-byte film count, two pad bytes when the position after the
 *    count is not a multiple of 4 from the record start, then one 4-byte
 *    offset into the movie data per film.
 *
 *  movie data: the same header, its table sorted by (title, year); a movie
 *    record is the NUL-terminated title, one byte holding year - 1900, one
 *    pad byte when the title length is odd, a 2-byte cast count, the same
 *    alignment padding, then one 4-byte offset into the actor data per
 *    cast member.
 *
 * Integers are little-endian and signed (`int`, `short`, `char` on x86).
 * Every read is bounds-checked: a read outside a buffer, or a string with no
 * terminator inside it, gives CorruptIndex.
 */
module Imdb {
  import opened Wrappers
  import opened CStrings
  import Search

  datatype Film = Film(title: seq<byte>, year: int)

  datatype Index = Index(actorData: seq<byte>, movieData: seq<byte>)

  datatype Decoded<+T> = Ok(value: T) | CorruptIndex
  {
    function ToOption(): Option<T>
    {
      if Ok? then Some(value) else None
    }
  }

  const YearBase := 1900

  // ---------------------------------------------------------------------
  // Film order: titles compared as by strcmp, ties broken by year.

  predicate FilmLess(a: Film, b: Film)
  {
    Compare(a.title, b.title) < 0 || (a.title == b.title && a.year < b.year)
  }

  /** The three-way answer of filmsCmp once the stored film is decoded. */
  function FilmCompare(a: Film, b: Film): (r: int)
    ensures r == 0 <==> a == b
    ensures r < 0 <==> FilmLess(a, b)
    ensures r > 0 <==> FilmLess(b, a)
  {
    CompareZeroIffEqual(a.title, b.title);
    CompareAntisymmetric(a.title, b.title);
    if a == b then 0 else if FilmLess(a, b) then -1 else 1
  }

  lemma FilmLessIsStrictOrder(a: Film, b: Film, c: Film)
    ensures !FilmLess(a, a)
    ensures FilmLess(a, b) && FilmLess(b, c) ==> FilmLess(a, c)
    ensures a == b || FilmLess(a, b) || FilmLess(b, a)
  {
    CompareZeroIffEqual(a.title, a.title);
    CompareZeroIffEqual(a.title, b.title);
    CompareZeroIffEqual(b.title, c.title);
    CompareAntisymmetric(a.title, b.title);
    if Compare(a.title, b.title) < 0 && Compare(b.title, c.title) < 0 {
      CompareTransitive(a.title, b.title, c.title);
    }
  }

  // ---------------------------------------------------------------------
  // Bounds-checked reads.

  /** The NUL-terminated string that starts at `pos`. */
  function CStringAt(buf: seq<byte>, pos: int): (r: Decoded<seq<byte>>)
    decreases |buf| - pos
    ensures r.Ok? <==> 0 <= pos < |buf| && NUL in buf[pos..]
    ensures r.Ok? ==> && pos + |r.value| < |buf|
                      && buf[pos..pos + |r.value|] == r.value
                      && NoNul(r.value)
                      && buf[pos + |r.value|] == NUL
  {
    if pos < 0 || pos >= |buf| then CorruptIndex
    else if buf[pos] == NUL then Ok([])
    else
      assert buf[pos..] == [buf[pos]] + buf[pos + 1..];
      match CStringAt(buf, pos + 1)
      case Ok(rest) => Ok([buf[pos]] + rest)
      case CorruptIndex => CorruptIndex
  }

  /** A `char` read as signed, as on x86. */
  function Signed8(b: byte): (v: int)
    ensures -0x80 <= v < 0x80 && (v - b) % 0x100 == 0
  {
    if b < 0x80 then b else b - 0x100
  }

  function Signed16(u: int): (v: int)
    requires 0 <= u < 0x1_0000
    ensures -0x8000 <= v < 0x8000 && (v - u) % 0x1_0000 == 0
  {
    if u < 0x8000 then u else u - 0x1_0000
  }

  function Signed32(u: int): (v: int)
    requires 0 <= u < 0x1_0000_0000
    ensures -0x8000_0000 <= v < 0x8000_0000 && (v - u) % 0x1_0000_0000 == 0
  {
    if u < 0x8000_0000 then u else u - 0x1_0000_0000
  }

  /** A `short` at `pos`. */
  function Int16At(buf: seq<byte>, pos: int): (r: Decoded<int>)
    ensures r.Ok? <==> 0 <= pos && pos + 2 <= |buf|
    ensures r.Ok? ==> -0x8000 <= r.value < 0x8000
  {
    if 0 <= pos && pos + 2 <= |buf| then Ok(Signed16(buf[pos] as int + 0x100 * buf[pos + 1] as int))
    else CorruptIndex
  }

  /** An `int` at `pos`. */
  function Int32At(buf: seq<byte>, pos: int): (r: Decoded<int>)
    ensures r.Ok? <==> 0 <= pos && pos + 4 <= |buf|
    ensures r.Ok? ==> -0x8000_0000 <= r.value < 0x8000_0000
  {
    if 0 <= pos && pos + 4 <= |buf| then
      Ok(Signed32(buf[pos] as int + 0x100 * buf[pos + 1] as int + 0x1_0000 * buf[pos + 2] as int
                  + 0x100_0000 * buf[pos + 3] as int))
    else CorruptIndex
  }

  /** `n` consecutive `int`s starting at `pos`. */
  function Int32sAt(buf: seq<byte>, pos: int, n: nat): (r: Decoded<seq<int>>)
    decreases n
    ensures r.Ok? <==> n == 0 || (0 <= pos && pos + 4 * n <= |buf|)
    ensures r.Ok? ==> && |r.value| == n
                      && forall i :: 0 <= i < n ==> Int32At(buf, pos + 4 * i) == Ok(r.value[i])
  {
    if n == 0 then Ok([])
    else match Int32At(buf, pos)
      case CorruptIndex => CorruptIndex
      case Ok(v) =>
        match Int32sAt(buf, pos + 4, n - 1)
        case CorruptIndex => CorruptIndex
        case Ok(vs) =>
          assert forall i :: 1 <= i < n ==> pos + 4 * i == (pos + 4) + 4 * (i - 1);
          Ok([v] + vs)
  }

  /**
   * The header both buffers start with: a record count, then that many
   * record offsets. A negative count would make the table overrun the buffer.
   */
  function OffsetTable(buf: seq<byte>): (r: Decoded<seq<int>>)
    ensures r.Ok? ==> && Int32At(buf, 0).Ok?
                      && |r.value| == Int32At(buf, 0).value
                      && forall i :: 0 <= i < |r.value| ==> Int32At(buf, 4 + 4 * i) == Ok(r.value[i])
    ensures r.CorruptIndex? ==> |buf| < 4 || Int32At(buf, 0).value < 0 || 4 + 4 * Int32At(buf, 0).value > |buf|
  {
    match Int32At(buf, 0)
    case CorruptIndex => CorruptIndex
    case Ok(count) => if count < 0 then CorruptIndex else Int32sAt(buf, 4, count)
  }

  // ---------------------------------------------------------------------
  // Record layout. Positions are relative to the start of the record.

  /** Where an actor record's film count sits: after the name, its NUL and, for an even-length name, a pad byte. */
  function ActorCountPos(nameLen: nat): (p: nat)
    ensures p % 2 == 0 && nameLen + 1 <= p <= nameLen + 2
  {
    nameLen + 1 + (if nameLen % 2 == 0 then 1 else 0)
  }

  /** Where a movie record's cast count sits: after the title, its NUL, the year byte and, for an odd-length title, a pad byte. */
  function MovieCountPos(titleLen: nat): (p: nat)
    ensures p % 2 == 0 && titleLen + 2 <= p <= titleLen + 3
  {
    titleLen + 2 + (if titleLen % 2 == 1 then 1 else 0)
  }

  /** Where the offsets start: after the 2-byte count and, if that position is not a multiple of 4, two pad bytes. */
  function OffsetsPos(countPos: nat): (p: nat)
    ensures countPos + 2 <= p <= countPos + 4
    ensures countPos % 2 == 0 ==> p % 4 == 0
  {
    Mod4Facts(countPos);
    if (countPos + 2) % 4 != 0 then countPos + 4 else countPos + 2
  }

  /** The residues modulo 4 that decide the padding before an offset array. */
  lemma Mod4Facts(n: nat)
    ensures (n + 2) % 4 == 0 <==> n % 4 == 2
    ensures n % 2 == 0 ==> n % 4 == 0 || n % 4 == 2
    ensures n % 4 == 0 ==> (n + 4) % 4 == 0
  {
    var q, m := n / 4, n % 4;
    assert n == 4 * q + m && 0 <= m < 4;
    assert n + 2 == 4 * q + (m + 2);
    assert n + 4 == 4 * (q + 1) + m;
  }

  /** Both record kinds place their offset array at a multiple of 4 from the record start. */
  lemma OffsetArraysAligned(nameLen: nat)
    ensures OffsetsPos(ActorCountPos(nameLen)) % 4 == 0
    ensures OffsetsPos(MovieCountPos(nameLen)) % 4 == 0
  {
  }

  /**
   * The offsets held by the record at `start` whose count field sits at
   * `start + countPos`; a negative count reads as no offsets, as the C loop
   * `for (i = 0; i < count; i++)` does.
   */
  function RecordOffsets(buf: seq<byte>, start: int, countPos: nat): (r: Decoded<seq<int>>)
    ensures r.Ok? ==> && Int16At(buf, start + countPos).Ok?
                      && |r.value| == (if Int16At(buf, start + countPos).value < 0 then 0 else Int16At(buf, start + countPos).value)
                      && forall i :: 0 <= i < |r.value| ==> Int32At(buf, start + OffsetsPos(countPos) + 4 * i) == Ok(r.value[i])
  {
    match Int16At(buf, start + countPos)
    case CorruptIndex => CorruptIndex
    case Ok(count) => Int32sAt(buf, start + OffsetsPos(countPos), if count < 0 then 0 else count)
  }

  /** The film a movie offset denotes: its title and 1900 plus its (signed) year byte. */
  function FilmAt(movieData: seq<byte>, off: int): (r: Decoded<Film>)
    ensures r.Ok? <==> CStringAt(movieData, off).Ok? && off + |CStringAt(movieData, off).value| + 1 < |movieData|
    ensures r.Ok? ==> && r.value.title == CStringAt(movieData, off).value
                      && r.value.year == YearBase + Signed8(movieData[off + |r.value.title| + 1])
                      && YearBase - 0x80 <= r.value.year < YearBase + 0x80
  {
    match CStringAt(movieData, off)
    case CorruptIndex => CorruptIndex
    case Ok(title) =>
      if off + |title| + 1 < |movieData| then Ok(Film(title, YearBase + Signed8(movieData[off + |title| + 1])))
      else CorruptIndex
  }

  /** Decodes one item per offset, in order, failing when any item fails. */
  function DecodeAll<T>(decode: int -> Decoded<T>, offs: seq<int>): (r: Decoded<seq<T>>)
    ensures r.Ok? <==> forall i :: 0 <= i < |offs| ==> decode(offs[i]).Ok?
    ensures r.Ok? ==> && |r.value| == |offs|
                      && forall i :: 0 <= i < |offs| ==> decode(offs[i]) == Ok(r.value[i])
  {
    if offs == [] then Ok([])
    else
      var head := decode(offs[0]);
      var tail := DecodeAll(decode, offs[1..]);
      assert forall i :: 1 <= i < |offs| ==> offs[i] == offs[1..][i - 1];
      if head.CorruptIndex? || tail.CorruptIndex? then CorruptIndex
      else Ok([head.value] + tail.value)
  }

  /** The films a list of movie offsets denotes. */
  function FilmsAt(movieData: seq<byte>, offs: seq<int>): (r: Decoded<seq<Film>>)
    ensures r.Ok? <==> forall i :: 0 <= i < |offs| ==> FilmAt(movieData, offs[i]).Ok?
    ensures r.Ok? ==> && |r.value| == |offs|
                      && forall i :: 0 <= i < |offs| ==> FilmAt(movieData, offs[i]) == Ok(r.value[i])
  {
    DecodeAll(FilmDecoder(movieData), offs)
  }

  /** The names a list of actor offsets denotes. */
  function NamesAt(actorData: seq<byte>, offs: seq<int>): (r: Decoded<seq<seq<byte>>>)
    ensures r.Ok? <==> forall i :: 0 <= i < |offs| ==> CStringAt(actorData, offs[i]).Ok?
    ensures r.Ok? ==> && |r.value| == |offs|
                      && forall i :: 0 <= i < |offs| ==> CStringAt(actorData, offs[i]) == Ok(r.value[i])
  {
    DecodeAll(NameDecoder(actorData), offs)
  }

  /** The credits held by the actor record at `start`, whose name has `nameLen` bytes. */
  function CreditsAt(db: Index, start: int, nameLen: nat): (r: Decoded<seq<Film>>)
    ensures r.Ok? ==> && RecordOffsets(db.actorData, start, ActorCountPos(nameLen)).Ok?
                      && |r.value| == |RecordOffsets(db.actorData, start, ActorCountPos(nameLen)).value|
                      && forall i :: 0 <= i < |r.value| ==>
                           FilmAt(db.movieData, RecordOffsets(db.actorData, start, ActorCountPos(nameLen)).value[i]) == Ok(r.value[i])
  {
    match RecordOffsets(db.actorData, start, ActorCountPos(nameLen))
    case CorruptIndex => CorruptIndex
    case Ok(offs) => FilmsAt(db.movieData, offs)
  }

  /** The cast held by the movie record at `start`, whose title has `titleLen` bytes. */
  function CastAt(db: Index, start: int, titleLen: nat): (r: Decoded<seq<seq<byte>>>)
    ensures r.Ok? ==> && RecordOffsets(db.movieData, start, MovieCountPos(titleLen)).Ok?
                      && |r.value| == |RecordOffsets(db.movieData, start, MovieCountPos(titleLen)).value|
                      && forall i :: 0 <= i < |r.value| ==>
                           CStringAt(db.actorData, RecordOffsets(db.movieData, start, MovieCountPos(titleLen)).value[i]) == Ok(r.value[i])
  {
    match RecordOffsets(db.movieData, start, MovieCountPos(titleLen))
    case CorruptIndex => CorruptIndex
    case Ok(offs) => NamesAt(db.actorData, offs)
  }

  // ---------------------------------------------------------------------
  // Comparators handed to bsearch.

  /** namesCmp: strcmp of the key against the name stored at `off`. */
  function NamesCmp(actorData: seq<byte>, key: seq<byte>, off: int): (r: Decoded<int>)
    ensures r.Ok? <==> CStringAt(actorData, off).Ok?
    ensures r.Ok? ==> && -1 <= r.value <= 1
                      && (r.value == 0 <==> CStringAt(actorData, off).value == key)
                      && (r.value < 0 <==> Compare(key, CStringAt(actorData, off).value) < 0)
  {
    match CStringAt(actorData, off)
    case CorruptIndex => CorruptIndex
    case Ok(name) =>
      CompareZeroIffEqual(key, name);
      Ok(Compare(key, name))
  }

  /** filmsCmp: 0, -1 or 1 as the key film equals, precedes or follows the film stored at `off`. */
  function FilmsCmp(movieData: seq<byte>, key: Film, off: int): (r: Decoded<int>)
    ensures r.Ok? <==> FilmAt(movieData, off).Ok?
    ensures r.Ok? ==> && (r.value == 0 <==> FilmAt(movieData, off).value == key)
                      && (r.value < 0 <==> FilmLess(key, FilmAt(movieData, off).value))
                      && (r.value > 0 <==> FilmLess(FilmAt(movieData, off).value, key))
  {
    match FilmAt(movieData, off)
    case CorruptIndex => CorruptIndex
    case Ok(f) => Ok(FilmCompare(key, f))
  }

  function NameProbe(actorData: seq<byte>, key: seq<byte>): int -> Option<int>
  {
    off => NamesCmp(actorData, key, off).ToOption()
  }

  function FilmProbe(movieData: seq<byte>, key: Film): int -> Option<int>
  {
    off => FilmsCmp(movieData, key, off).ToOption()
  }

  /** Every name in the actor table reads, and the names ascend by `strcmp`. */
  ghost predicate SortedNames(actorData: seq<byte>, table: seq<int>)
  {
    && (forall i :: 0 <= i < |table| ==> CStringAt(actorData, table[i]).Ok?)
    && (forall i, j :: 0 <= i < j < |table| ==>
          Compare(CStringAt(actorData, table[i]).value, CStringAt(actorData, table[j]).value) <= 0)
  }

  /** Every film in the movie table reads, and the films ascend by title, then year. */
  ghost predicate SortedFilms(movieData: seq<byte>, table: seq<int>)
  {
    && (forall i :: 0 <= i < |table| ==> FilmAt(movieData, table[i]).Ok?)
    && (forall i, j :: 0 <= i < j < |table| ==>
          !FilmLess(FilmAt(movieData, table[j]).value, FilmAt(movieData, table[i]).value))
  }

  /** A key placed against two names in ascending order ranks no lower against the second. */
  lemma NameRankMonotone(key: seq<byte>, a: seq<byte>, b: seq<byte>)
    requires Compare(a, b) <= 0
    ensures Search.Rank(Compare(key, a)) <= Search.Rank(Compare(key, b))
  {
    CompareZeroIffEqual(key, a);
    CompareZeroIffEqual(a, b);
    if Compare(key, a) < 0 && a != b {
      CompareTransitive(key, a, b);
    }
  }

  /** A name-sorted actor table is laid out as `bsearch` with `namesCmp` needs, for every key. */
  lemma SortedNamesSearchable(actorData: seq<byte>, table: seq<int>, key: seq<byte>)
    requires SortedNames(actorData, table)
    ensures Search.Ordered(table, NameProbe(actorData, key))
  {
    var probe := NameProbe(actorData, key);
    forall i, j | 0 <= i < j < |table|
      ensures Search.Rank(probe(table[i]).value) <= Search.Rank(probe(table[j]).value)
    {
      NameRankMonotone(key, CStringAt(actorData, table[i]).value, CStringAt(actorData, table[j]).value);
    }
  }

  /** A film-sorted movie table is laid out as `bsearch` with `filmsCmp` needs, for every key. */
  lemma SortedFilmsSearchable(movieData: seq<byte>, table: seq<int>, key: Film)
    requires SortedFilms(movieData, table)
    ensures Search.Ordered(table, FilmProbe(movieData, key))
  {
    var probe := FilmProbe(movieData, key);
    forall i, j | 0 <= i < j < |table|
      ensures Search.Rank(probe(table[i]).value) <= Search.Rank(probe(table[j]).value)
    {
      var a, b := FilmAt(movieData, table[i]).value, FilmAt(movieData, table[j]).value;
      FilmLessIsStrictOrder(key, a, b);
      FilmLessIsStrictOrder(a, b, key);
    }
  }

  // ---------------------------------------------------------------------
  // Lookups.

  /**
   * The loop of getCredits and getCast once the record is found: read the
   * count at `start + countPos`, skip the alignment padding, then read one
   * offset at a time and append what `decode` makes of it.
   */
  method AppendRecord<T>(buf: seq<byte>, start: int, countPos: nat, decode: int -> Decoded<T>, acc: seq<T>)
    returns (ok: bool, acc': seq<T>)
    ensures |acc| <= |acc'| && acc'[..|acc|] == acc
    ensures ok ==> && RecordOffsets(buf, start, countPos).Ok?
                   && |acc'| == |acc| + |RecordOffsets(buf, start, countPos).value|
                   && forall j :: 0 <= j < |acc'| - |acc| ==>
                        decode(RecordOffsets(buf, start, countPos).value[j]) == Ok(acc'[|acc| + j])
    ensures !ok ==> || RecordOffsets(buf, start, countPos).CorruptIndex?
                    || exists j :: 0 <= j < |RecordOffsets(buf, start, countPos).value| &&
                         decode(RecordOffsets(buf, start, countPos).value[j]).CorruptIndex?
  {
    acc' := acc;
    var pos := start + countPos;
    var count := Int16At(buf, pos);
    if count.CorruptIndex? {
      return false, acc';
    }
    pos := pos + 2;
    if (pos - start) % 4 != 0 {
      pos := pos + 2;
    }
    ghost var base := pos;
    assert base == start + OffsetsPos(countPos);
    var i := 0;
    while i < count.value
      invariant 0 <= i && (count.value >= 0 ==> i <= count.value) && (count.value < 0 ==> i == 0)
      invariant pos == base + 4 * i
      invariant |acc'| == |acc| + i && acc'[..|acc|] == acc
      invariant forall j :: 0 <= j < i ==>
                  && Int32At(buf, base + 4 * j).Ok?
                  && decode(Int32At(buf, base + 4 * j).value) == Ok(acc'[|acc| + j])
    {
      var off := Int32At(buf, pos);
      if off.CorruptIndex? {
        assert RecordOffsets(buf, start, countPos).CorruptIndex?;
        return false, acc';
      }
      var item := decode(off.value);
      if item.CorruptIndex? {
        ghost var offs := RecordOffsets(buf, start, countPos);
        assert offs.Ok? ==> offs.value[i] == off.value;
        return false, acc';
      }
      acc' := acc' + [item.value];
      pos := pos + 4;
      i := i + 1;
    }
    assert RecordOffsets(buf, start, countPos).Ok? by {
      if count.value > 0 {
        assert Int32At(buf, base + 4 * (count.value - 1)).Ok?;
      }
    }
    return true, acc';
  }

  function FilmDecoder(movieData: seq<byte>): int -> Decoded<Film>
  {
    off => FilmAt(movieData, off)
  }

  function NameDecoder(actorData: seq<byte>): int -> Decoded<seq<byte>>
  {
    off => CStringAt(actorData, off)
  }

  lemma CreditsFromRecord(db: Index, start: int, nameLen: nat, films: seq<Film>)
    requires RecordOffsets(db.actorData, start, ActorCountPos(nameLen)).Ok?
    requires |films| == |RecordOffsets(db.actorData, start, ActorCountPos(nameLen)).value|
    requires forall j :: 0 <= j < |films| ==>
               FilmDecoder(db.movieData)(RecordOffsets(db.actorData, start, ActorCountPos(nameLen)).value[j]) == Ok(films[j])
    ensures CreditsAt(db, start, nameLen) == Ok(films)
  {
    var offs := RecordOffsets(db.actorData, start, ActorCountPos(nameLen)).value;
    assert forall j :: 0 <= j < |offs| ==> FilmAt(db.movieData, offs[j]) == Ok(films[j]);
    var fs := FilmsAt(db.movieData, offs);
    assert fs.Ok? && |fs.value| == |films|;
    assert forall j :: 0 <= j < |films| ==> fs.value[j] == films[j];
    assert fs.value == films;
    assert CreditsAt(db, start, nameLen) == fs;
  }

  /**
   * getCredits: binary-search the actor table for `player`; when found,
   * append the films of its record, in record order, to `films`.
   */
  method GetCredits(db: Index, player: seq<byte>, films: seq<Film>) returns (r: Decoded<bool>, films': seq<Film>)
    requires NoNul(player)
    ensures |films| <= |films'| && films'[..|films|] == films
    ensures r == Ok(false) ==> films' == films
    ensures r.Ok? ==> OffsetTable(db.actorData).Ok?
    ensures r == Ok(false) && Search.Ordered(OffsetTable(db.actorData).value, NameProbe(db.actorData, player)) ==>
              forall k :: 0 <= k < |OffsetTable(db.actorData).value| ==>
                CStringAt(db.actorData, OffsetTable(db.actorData).value[k]) != Ok(player)
    ensures r == Ok(false) && SortedNames(db.actorData, OffsetTable(db.actorData).value) ==>
              forall k :: 0 <= k < |OffsetTable(db.actorData).value| ==>
                CStringAt(db.actorData, OffsetTable(db.actorData).value[k]) != Ok(player)
    ensures r == Ok(true) ==>
              exists k :: && 0 <= k < |OffsetTable(db.actorData).value|
                          && CStringAt(db.actorData, OffsetTable(db.actorData).value[k]) == Ok(player)
                          && CreditsAt(db, OffsetTable(db.actorData).value[k], |player|) == Ok(films'[|films|..])
    ensures r.CorruptIndex? ==>
              || OffsetTable(db.actorData).CorruptIndex?
              || (exists k :: 0 <= k < |OffsetTable(db.actorData).value| &&
                    CStringAt(db.actorData, OffsetTable(db.actorData).value[k]).CorruptIndex?)
              || (exists k :: && 0 <= k < |OffsetTable(db.actorData).value|
                              && CStringAt(db.actorData, OffsetTable(db.actorData).value[k]) == Ok(player)
                              && CreditsAt(db, OffsetTable(db.actorData).value[k], |player|).CorruptIndex?)
  {
    var table := OffsetTable(db.actorData);
    if table.CorruptIndex? {
      return CorruptIndex, films;
    }
    var t := table.value;
    var hit := Search.BinarySearch(t, NameProbe(db.actorData, player));
    if hit.Failed? {
      return CorruptIndex, films;
    }
    if hit.Absent? {
      if SortedNames(db.actorData, t) {
        SortedNamesSearchable(db.actorData, t, player);
      }
      return Ok(false), films;
    }
    var k := hit.index;
    var start := t[k];
    assert NamesCmp(db.actorData, player, start) == Ok(0);
    var ok;
    ok, films' := AppendRecord(db.actorData, start, ActorCountPos(|player|), FilmDecoder(db.movieData), films);
    if !ok {
      return CorruptIndex, films';
    }
    CreditsFromRecord(db, start, |player|, films'[|films|..]);
    return Ok(true), films';
  }

  lemma CastFromRecord(db: Index, start: int, titleLen: nat, players: seq<seq<byte>>)
    requires RecordOffsets(db.movieData, start, MovieCountPos(titleLen)).Ok?
    requires |players| == |RecordOffsets(db.movieData, start, MovieCountPos(titleLen)).value|
    requires forall j :: 0 <= j < |players| ==>
               NameDecoder(db.actorData)(RecordOffsets(db.movieData, start, MovieCountPos(titleLen)).value[j]) == Ok(players[j])
    ensures CastAt(db, start, titleLen) == Ok(players)
  {
    var offs := RecordOffsets(db.movieData, start, MovieCountPos(titleLen)).value;
    assert forall j :: 0 <= j < |offs| ==> CStringAt(db.actorData, offs[j]) == Ok(players[j]);
    var ns := NamesAt(db.actorData, offs);
    assert ns.Ok? && |ns.value| == |players|;
    assert forall j :: 0 <= j < |players| ==> ns.value[j] == players[j];
    assert ns.value == players;
    assert CastAt(db, start, titleLen) == ns;
  }

  /**
   * getCast: binary-search the movie table for `movie`; when found, append
   * the names of its cast, in record order, to `players`.
   */
  method GetCast(db: Index, movie: Film, players: seq<seq<byte>>) returns (r: Decoded<bool>, players': seq<seq<byte>>)
    ensures |players| <= |players'| && players'[..|players|] == players
    ensures r == Ok(false) ==> players' == players
    ensures r.Ok? ==> OffsetTable(db.movieData).Ok?
    ensures r == Ok(false) && Search.Ordered(OffsetTable(db.movieData).value, FilmProbe(db.movieData, movie)) ==>
              forall k :: 0 <= k < |OffsetTable(db.movieData).value| ==>
                FilmAt(db.movieData, OffsetTable(db.movieData).value[k]) != Ok(movie)
    ensures r == Ok(false) && SortedFilms(db.movieData, OffsetTable(db.movieData).value) ==>
              forall k :: 0 <= k < |OffsetTable(db.movieData).value| ==>
                FilmAt(db.movieData, OffsetTable(db.movieData).value[k]) != Ok(movie)
    ensures r == Ok(true) ==>
              exists k :: && 0 <= k < |OffsetTable(db.movieData).value|
                          && FilmAt(db.movieData, OffsetTable(db.movieData).value[k]) == Ok(movie)
                          && CastAt(db, OffsetTable(db.movieData).value[k], |movie.title|) == Ok(players'[|players|..])
    ensures r.CorruptIndex? ==>
              || OffsetTable(db.movieData).CorruptIndex?
              || (exists k :: 0 <= k < |OffsetTable(db.movieData).value| &&
                    FilmAt(db.movieData, OffsetTable(db.movieData).value[k]).CorruptIndex?)
              || (exists k :: && 0 <= k < |OffsetTable(db.movieData).value|
                              && FilmAt(db.movieData, OffsetTable(db.movieData).value[k]) == Ok(movie)
                              && CastAt(db, OffsetTable(db.movieData).value[k], |movie.title|).CorruptIndex?)
  {
    var table := OffsetTable(db.movieData);
    if table.CorruptIndex? {
      return CorruptIndex, players;
    }
    var t := table.value;
    var hit := Search.BinarySearch(t, FilmProbe(db.movieData, movie));
    if hit.Failed? {
      return CorruptIndex, players;
    }
    if hit.Absent? {
      if SortedFilms(db.movieData, t) {
        SortedFilmsSearchable(db.movieData, t, movie);
      }
      return Ok(false), players;
    }
    var k := hit.index;
    var start := t[k];
    assert FilmsCmp(db.movieData, movie, start) == Ok(0);
    var ok;
    ok, players' := AppendRecord(db.movieData, start, MovieCountPos(|movie.title|), NameDecoder(db.actorData), players);
    if !ok {
      return CorruptIndex, players';
    }
    CastFromRecord(db, start, |movie.title|, players'[|players|..]);
    return Ok(true), players';
  }

  // ---------------------------------------------------------------------
  // The writer's side of the format, and decode(encode(x)) == x.

  function Zeros(n: nat): (r: seq<byte>)
    ensures |r| == n
  {
    seq(n, _ => NUL)
  }

  function Int16Bytes(v: int): (r: seq<byte>)
    requires -0x8000 <= v < 0x8000
    ensures |r| == 2
  {
    var u := if v < 0 then v + 0x1_0000 else v;
    [u % 0x100, u / 0x100]
  }

  function Int32Bytes(v: int): (r: seq<byte>)
    requires -0x8000_0000 <= v < 0x8000_0000
    ensures |r| == 4
  {
    var u := if v < 0 then v + 0x1_0000_0000 else v;
    [u % 0x100, (u / 0x100) % 0x100, (u / 0x100 / 0x100) % 0x100, u / 0x100 / 0x100 / 0x100]
  }

  predicate FitsInt32(vs: seq<int>)
  {
    forall i :: 0 <= i < |vs| ==> -0x8000_0000 <= vs[i] < 0x8000_0000
  }

  function Int32sBytes(vs: seq<int>): (r: seq<byte>)
    requires FitsInt32(vs)
    ensures |r| == 4 * |vs|
  {
    if vs == [] then [] else Int32Bytes(vs[0]) + Int32sBytes(vs[1..])
  }

  lemma Int16RoundTrip(p: seq<byte>, v: int, q: seq<byte>)
    requires -0x8000 <= v < 0x8000
    ensures Int16At(p + Int16Bytes(v) + q, |p|) == Ok(v)
  {
    var buf := p + Int16Bytes(v) + q;
    assert buf[|p|] == Int16Bytes(v)[0] && buf[|p| + 1] == Int16Bytes(v)[1];
  }

  lemma Int32RoundTrip(p: seq<byte>, v: int, q: seq<byte>)
    requires -0x8000_0000 <= v < 0x8000_0000
    ensures Int32At(p + Int32Bytes(v) + q, |p|) == Ok(v)
  {
    var buf := p + Int32Bytes(v) + q;
    var bs := Int32Bytes(v);
    assert buf[|p|] == bs[0] && buf[|p| + 1] == bs[1] && buf[|p| + 2] == bs[2] && buf[|p| + 3] == bs[3];
    var u := if v < 0 then v + 0x1_0000_0000 else v;
    var q1 := u / 0x100;
    var q2 := q1 / 0x100;
    assert u == bs[0] + 0x100 * q1;
    assert q1 == bs[1] + 0x100 * q2;
    assert q2 == bs[2] as int + 0x100 * bs[3] as int;
  }

  lemma {:induction false} Int32sRoundTrip(p: seq<byte>, vs: seq<int>, q: seq<byte>)
    requires FitsInt32(vs)
    ensures Int32sAt(p + Int32sBytes(vs) + q, |p|, |vs|) == Ok(vs)
    decreases |vs|
  {
    if vs != [] {
      var buf := p + Int32sBytes(vs) + q;
      var head := Int32Bytes(vs[0]);
      var rest := Int32sBytes(vs[1..]) + q;
      var p' := p + head;
      assert Int32sBytes(vs) == head + Int32sBytes(vs[1..]);
      assert buf == p + head + rest;
      assert buf == p' + Int32sBytes(vs[1..]) + q;
      Int32RoundTrip(p, vs[0], rest);
      assert Int32At(buf, |p|) == Ok(vs[0]);
      Int32sRoundTrip(p', vs[1..], q);
      assert Int32sAt(buf, |p| + 4, |vs| - 1) == Ok(vs[1..]);
      assert [vs[0]] + vs[1..] == vs;
    }
  }

  lemma {:induction false} CStringRoundTrip(p: seq<byte>, s: seq<byte>, q: seq<byte>)
    requires NoNul(s)
    ensures CStringAt(p + s + [NUL] + q, |p|) == Ok(s)
    decreases |s|
  {
    var buf := p + s + [NUL] + q;
    if s == [] {
      assert buf[|p|] == NUL;
    } else {
      assert buf[|p|] == s[0];
      assert buf == (p + [s[0]]) + s[1..] + [NUL] + q;
      CStringRoundTrip(p + [s[0]], s[1..], q);
      assert [s[0]] + s[1..] == s;
    }
  }

  /** An actor record as the index builder lays it out. */
  function EncodeActorRecord(name: seq<byte>, filmOffsets: seq<int>): (r: seq<byte>)
    requires NoNul(name) && |filmOffsets| < 0x8000 && FitsInt32(filmOffsets)
  {
    var countPos := ActorCountPos(|name|);
    name + [NUL] + Zeros(countPos - |name| - 1) + EncodeOffsets(countPos, filmOffsets)
  }

  /** A movie record as the index builder lays it out; the year must fit the signed year byte. */
  function EncodeMovieRecord(movie: Film, castOffsets: seq<int>): (r: seq<byte>)
    requires NoNul(movie.title) && YearBase - 0x80 <= movie.year < YearBase + 0x80
    requires |castOffsets| < 0x8000 && FitsInt32(castOffsets)
  {
    var countPos := MovieCountPos(|movie.title|);
    movie.title + [NUL] + [YearByte(movie.year)] + Zeros(countPos - |movie.title| - 2)
      + EncodeOffsets(countPos, castOffsets)
  }

  /** The count-and-offsets tail shared by both record kinds. */
  function EncodeOffsets(countPos: nat, offsets: seq<int>): (r: seq<byte>)
    requires |offsets| < 0x8000 && FitsInt32(offsets)
  {
    Int16Bytes(|offsets|) + Zeros(OffsetsPos(countPos) - countPos - 2) + Int32sBytes(offsets)
  }

  lemma EncodeOffsetsRoundTrip(start: int, head: seq<byte>, countPos: nat, offsets: seq<int>, after: seq<byte>)
    requires |head| == start + countPos
    requires |offsets| < 0x8000 && FitsInt32(offsets)
    ensures RecordOffsets(head + EncodeOffsets(countPos, offsets) + after, start, countPos) == Ok(offsets)
  {
    var pad := Zeros(OffsetsPos(countPos) - countPos - 2);
    var buf := head + EncodeOffsets(countPos, offsets) + after;
    assert buf == head + Int16Bytes(|offsets|) + (pad + Int32sBytes(offsets) + after);
    Int16RoundTrip(head, |offsets|, pad + Int32sBytes(offsets) + after);
    var p32 := head + Int16Bytes(|offsets|) + pad;
    assert buf == p32 + Int32sBytes(offsets) + after;
    Int32sRoundTrip(p32, offsets, after);
  }

  /** An encoded actor record, wherever it sits in the buffer, decodes to its name and film offsets. */
  lemma ActorRecordRoundTrip(before: seq<byte>, name: seq<byte>, filmOffsets: seq<int>, after: seq<byte>)
    requires NoNul(name) && |filmOffsets| < 0x8000 && FitsInt32(filmOffsets)
    ensures CStringAt(before + EncodeActorRecord(name, filmOffsets) + after, |before|) == Ok(name)
    ensures RecordOffsets(before + EncodeActorRecord(name, filmOffsets) + after, |before|, ActorCountPos(|name|))
            == Ok(filmOffsets)
  {
    var countPos := ActorCountPos(|name|);
    var pad := Zeros(countPos - |name| - 1);
    var offs := EncodeOffsets(countPos, filmOffsets);
    assert EncodeActorRecord(name, filmOffsets) == (name + [NUL]) + pad + offs;
    Regroup(before, name + [NUL], pad, offs, after);
    NameRoundTrip(before, name, pad + offs + after);
    EncodeOffsetsRoundTrip(|before|, before + (name + [NUL]) + pad, countPos, filmOffsets, after);
  }

  /** How a record's three parts regroup when it sits between `x` and `y`. */
  lemma Regroup(x: seq<byte>, a: seq<byte>, b: seq<byte>, c: seq<byte>, y: seq<byte>)
    ensures x + (a + b + c) + y == x + a + (b + c + y)
    ensures x + (a + b + c) + y == (x + a + b) + c + y
  {
  }

  lemma NameRoundTrip(before: seq<byte>, name: seq<byte>, tail: seq<byte>)
    requires NoNul(name)
    ensures CStringAt(before + (name + [NUL]) + tail, |before|) == Ok(name)
  {
    assert before + (name + [NUL]) + tail == before + name + [NUL] + tail;
    CStringRoundTrip(before, name, tail);
  }

  function YearByte(year: int): (b: byte)
    requires YearBase - 0x80 <= year < YearBase + 0x80
    ensures YearBase + Signed8(b) == year
  {
    var delta := year - YearBase;
    if delta < 0 then delta + 0x100 else delta
  }

  lemma FilmRoundTrip(before: seq<byte>, movie: Film, after: seq<byte>)
    requires NoNul(movie.title) && YearBase - 0x80 <= movie.year < YearBase + 0x80
    ensures FilmAt(before + movie.title + [NUL] + [YearByte(movie.year)] + after, |before|) == Ok(movie)
  {
    var buf := before + movie.title + [NUL] + [YearByte(movie.year)] + after;
    assert buf == before + movie.title + [NUL] + ([YearByte(movie.year)] + after);
    CStringRoundTrip(before, movie.title, [YearByte(movie.year)] + after);
    assert buf[|before| + |movie.title| + 1] == YearByte(movie.year);
  }

  /** An encoded movie record decodes to its film and cast offsets. */
  lemma MovieRecordRoundTrip(before: seq<byte>, movie: Film, castOffsets: seq<int>, after: seq<byte>)
    requires NoNul(movie.title) && YearBase - 0x80 <= movie.year < YearBase + 0x80
    requires |castOffsets| < 0x8000 && FitsInt32(castOffsets)
    ensures FilmAt(before + EncodeMovieRecord(movie, castOffsets) + after, |before|) == Ok(movie)
    ensures RecordOffsets(before + EncodeMovieRecord(movie, castOffsets) + after, |before|, MovieCountPos(|movie.title|))
            == Ok(castOffsets)
  {
    var head := movie.title + [NUL] + [YearByte(movie.year)];
    var pad := Zeros(MovieCountPos(|movie.title|) - |movie.title| - 2);
    var offs := EncodeOffsets(MovieCountPos(|movie.title|), castOffsets);
    assert EncodeMovieRecord(movie, castOffsets) == head + pad + offs;
    Regroup(before, head, pad, offs, after);
    MovieFilmRoundTrip(before, movie, pad + offs + after);
    MovieOffsetsRoundTrip(before + head + pad, movie, castOffsets, after);
  }

  lemma MovieFilmRoundTrip(before: seq<byte>, movie: Film, tail: seq<byte>)
    requires NoNul(movie.title) && YearBase - 0x80 <= movie.year < YearBase + 0x80
    ensures FilmAt(before + (movie.title + [NUL] + [YearByte(movie.year)]) + tail, |before|) == Ok(movie)
  {
    var buf := before + (movie.title + [NUL] + [YearByte(movie.year)]) + tail;
    assert buf == before + movie.title + [NUL] + [YearByte(movie.year)] + tail;
    FilmRoundTrip(before, movie, tail);
  }

  lemma MovieOffsetsRoundTrip(prefix: seq<byte>, movie: Film, castOffsets: seq<int>, after: seq<byte>)
    requires |prefix| >= MovieCountPos(|movie.title|)
    requires |castOffsets| < 0x8000 && FitsInt32(castOffsets)
    ensures RecordOffsets(prefix + EncodeOffsets(MovieCountPos(|movie.title|), castOffsets) + after,
                          |prefix| - MovieCountPos(|movie.title|), MovieCountPos(|movie.title|)) == Ok(castOffsets)
  {
    var countPos := MovieCountPos(|movie.title|);
    EncodeOffsetsRoundTrip(|prefix| - countPos, prefix, countPos, castOffsets, after);
  }
}
