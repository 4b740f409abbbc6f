/** The records of src/classes.py that the in-memory database is built from.
    They are namedtuples there, so they are values here. The lists a
    `Sutta`, `Subdivision` or `Vagga` holds and that are filled in while
    the database is built (its translations, parallels, child suttas and
    vaggas) live in the tables of `ImmDatabase.Imm` instead, keyed by uid or
    vagga handle. */
module Entities {
  import opened Wrappers
  import opened Strings
  import opened PyValue

  /** A `CollectionLanguage` or `ReferenceLanguage`. */
  datatype Language = Language(id: int, code: string, name: string)

  datatype BiblioEntry = BiblioEntry(name: string, text: string)

  /** A row of the vagga table, with the subdivision its uid names. */
  datatype Vagga = Vagga(id: int, subdivisionUid: string, name: Option<string>)

  /** The fixed fields of a `Sutta`. `subdivisionId` and `divisionId` are
      the ids of `sutta.subdivision` and `sutta.subdivision.division`;
      `lang` is `None` for a sutta whose language id is unknown. */
  datatype Sutta = Sutta(
    id: int, uid: string, acronym: string, altAcronym: Option<string>,
    name: string, codedName: string, plainName: string, number: int,
    lang: Option<Language>, subdivisionId: int, subdivisionUid: string, divisionId: int,
    vagga: Option<Vagga>, numberInVagga: Option<int>,
    volpageInfo: string, altVolpageInfo: Option<string>,
    biblioEntry: Option<BiblioEntry>, url: Option<string>, urlInfo: Option<string>)

  datatype Translation = Translation(seqNbr: int, lang: Language, url: string,
                                     abstractText: Option<string>, suttaUid: string)

  /** A `Parallel`: the sutta it points to, the two flags and the note. */
  datatype Parallel = Parallel(sutta: Sutta, partial: bool, indirect: bool, footnote: Option<string>)

  datatype Division = Division(id: int, uid: string, collectionUid: string, subdivisions: seq<string>)

  /** Python truthiness of an optional string: `None` and `''` are false. */
  predicate Truthy(o: Option<string>) { o.Some? && o.value != "" }

  /** `o or ''`. */
  function OrEmpty(o: Option<string>): (s: string)
    ensures Truthy(o) ==> s == o.value
    ensures !Truthy(o) ==> s == ""
  {
    if o.Some? then o.value else ""
  }

  /** The language id `Parallel.sort_key` reads. A list holding a parallel
      whose sutta has no language is never sorted: `Imm.BuildParallels`
      reports the `AttributeError` first, so the 0 is never compared. */
  function LangId(s: Sutta): int
  {
    if s.lang.Some? then s.lang.value.id else 0
  }

  /** `langhack` inside `Parallel.sort_key`: languages 1 and 2 trade places. */
  function LangHack(id: int): (r: int)
    ensures id != 1 && id != 2 ==> r == id
    ensures (id == 1 || id == 2) ==> (r == 1 || r == 2) && r != id
  {
    if id == 2 then 1 else if id == 1 then 2 else id
  }

  /** `langhack` is its own inverse, so it is a permutation of the ids. */
  lemma LangHackInvolution(id: int)
    ensures LangHack(LangHack(id)) == id
  {
  }

  function BoolInt(b: bool): int { if b then 1 else 0 }

  /** The tuple `Parallel.sort_key` builds. */
  function ParallelKeyTuple(p: Parallel): seq<int>
  {
    [LangHack(LangId(p.sutta)), BoolInt(p.partial), p.sutta.subdivisionId, p.sutta.number]
  }

  /** `Parallel.sort_key(p)`. */
  function ParallelSortKey(p: Parallel): Value
  {
    Ints(ParallelKeyTuple(p))
  }

  /** Parallels compare lexicographically on
      `(langhack(lang.id), partial, subdivision.id, number)`, and any two of
      them compare without error. */
  lemma ParallelOrder(p: Parallel, q: Parallel)
    ensures Comparable(ParallelSortKey(p), ParallelSortKey(q))
    ensures Lt(ParallelSortKey(p), ParallelSortKey(q)) <==>
            LexLess(ParallelKeyTuple(p), ParallelKeyTuple(q))
  {
    IntsLess(ParallelKeyTuple(p), ParallelKeyTuple(q));
  }

  /** Within one language a full parallel sorts before a partial one. */
  lemma FullBeforePartial(p: Parallel, q: Parallel)
    requires LangId(p.sutta) == LangId(q.sutta) && !p.partial && q.partial
    ensures Lt(ParallelSortKey(p), ParallelSortKey(q))
  {
    ParallelOrder(p, q);
    var xs, ys := ParallelKeyTuple(p), ParallelKeyTuple(q);
    LexLessCons(xs, ys);
    LexLessCons(xs[1..], ys[1..]);
  }

  /** Language 2 sorts before language 1, and both before any higher id. */
  lemma LanguageTwoFirst(p: Parallel, q: Parallel)
    requires LangId(p.sutta) == 2 && (LangId(q.sutta) == 1 || LangId(q.sutta) > 2)
    ensures Lt(ParallelSortKey(p), ParallelSortKey(q))
  {
    ParallelOrder(p, q);
    LexLessCons(ParallelKeyTuple(p), ParallelKeyTuple(q));
  }

  /** `not t.url.startswith('/')`: 0 for an internal link, 1 otherwise. */
  function External(t: Translation): int { BoolInt(!StartsWith(t.url, "/")) }

  function TranslationKeyTuple(t: Translation): seq<int>
  {
    [External(t), t.lang.id, t.seqNbr]
  }

  /** `Translation.sort_key(t)`. */
  function TranslationSortKey(t: Translation): Value
  {
    Ints(TranslationKeyTuple(t))
  }

  /** Translations compare without error, internal (`/`-prefixed) links
      before external ones whatever their language, and within either group
      by language id, then by sequence number. */
  lemma TranslationOrder(t: Translation, u: Translation)
    ensures Comparable(TranslationSortKey(t), TranslationSortKey(u))
    ensures StartsWith(t.url, "/") && !StartsWith(u.url, "/") ==>
              Lt(TranslationSortKey(t), TranslationSortKey(u))
    ensures StartsWith(t.url, "/") == StartsWith(u.url, "/") ==>
              (Lt(TranslationSortKey(t), TranslationSortKey(u)) <==>
               t.lang.id < u.lang.id || (t.lang.id == u.lang.id && t.seqNbr < u.seqNbr))
  {
    var xs, ys := TranslationKeyTuple(t), TranslationKeyTuple(u);
    IntsLess(xs, ys);
    LexLessCons(xs, ys);
    LexLessCons(xs[1..], ys[1..]);
    LexLessCons(xs[2..], ys[2..]);
    LexLessEmpty(xs[3..]);
    assert xs[1..][1..] == xs[2..] && ys[1..][1..] == ys[2..];
    assert xs[2..][1..] == xs[3..] == [] && ys[2..][1..] == ys[3..] == [];
  }

  /** `Division.has_subdivisions`: more than one subdivision (a division
      without real subdivisions has just its `-nosub` one). */
  function HasSubdivisions(d: Division): bool
  {
    |d.subdivisions| > 1
  }

  /** With its subdivision uids distinct, as keys of the subdivision table
      are, a division has subdivisions exactly when it lists two different
      ones, and one whose only subdivision is its `-nosub` placeholder has
      none. */
  lemma HasSubdivisionsMeaning(d: Division)
    requires forall i, j :: 0 <= i < j < |d.subdivisions| ==> d.subdivisions[i] != d.subdivisions[j]
    ensures HasSubdivisions(d) <==> exists a, b :: a in d.subdivisions && b in d.subdivisions && a != b
    ensures d.subdivisions == [d.uid + "-nosub"] ==> !HasSubdivisions(d)
  {
    if |d.subdivisions| > 1 {
      var a, b := d.subdivisions[0], d.subdivisions[1];
      assert a in d.subdivisions && b in d.subdivisions && a != b;
    } else {
      forall a, b | a in d.subdivisions && b in d.subdivisions ensures a == b {
        assert a == d.subdivisions[0] && b == d.subdivisions[0];
      }
    }
  }
}
