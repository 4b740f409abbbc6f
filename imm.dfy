/** The in-memory database `_IMM` of src/imm.py: the sutta tree, the
    translations and parallels of every sutta, the text collections, the
    search strings, the text paths and the stored digest.

    The top-level tables (languages, collections, divisions, subdivisions,
    vaggas) come from CSV files through `table_reader`, and the code building
    them uses names it never defines; they are given to the constructor as
    built. A sutta's `translations` and `parallels` lists are the maps
    `translations` and `parallels`, keyed by sutta uid, and a subdivision's
    or vagga's `suttas` list is a list of uids. */
module ImmDatabase {
  import opened Wrappers
  import opened Strings
  import opened PyValue
  import opened Entities
  import Sorting
  import SuttaTree
  import TextCollections
  import ParallelData
  import References
  import SearchData
  import TextPaths

  /** What `dbr(uid)` returns: the first table holding `uid`, among
      collections, divisions, subdivisions and suttas, or `None`. */
  datatype Found =
    | CollectionFound(uid: string)
    | DivisionFound(division: Division)
    | SubdivisionFound(uid: string)
    | SuttaFound(sutta: Sutta)
    | NotFound

  /** `deep_md5(ids=True)`: the data digest and the identity digest. */
  type Digests = (string, string)

  /** The three buckets of `parallels_data`. */
  type ParallelsData = (ParallelData.UidList, ParallelData.UidList, ParallelData.UidList)

  // `check_md5` as a state machine

  /** One `check_md5(exception)` with the fresh digest `latest`: the digest
      stored afterwards, and whether the exception is raised. */
  function CheckStep(stored: Option<Digests>, latest: Digests, raising: bool): (r: (Option<Digests>, bool))
  {
    if stored.None? then (Some(latest), false) else (stored, raising && stored.value != latest)
  }

  /** A series of checks, each with its digest and whether an exception is
      supplied: the digest stored at the end and whether each check raised. */
  function Checks(stored: Option<Digests>, xs: seq<(Digests, bool)>): (r: (Option<Digests>, seq<bool>))
    decreases |xs|
  {
    if xs == [] then (stored, [])
    else
      var step := CheckStep(stored, xs[0].0, xs[0].1);
      var rest := Checks(step.0, xs[1..]);
      (rest.0, [step.1] + rest.1)
  }

  /** Once a digest is stored it stays, and a check raises exactly when an
      exception is supplied and its digest differs from the stored one. */
  lemma {:induction false} ChecksOnceStored(d: Digests, xs: seq<(Digests, bool)>)
    ensures Checks(Some(d), xs).0 == Some(d)
    ensures |Checks(Some(d), xs).1| == |xs|
    ensures forall i :: 0 <= i < |xs| ==> (Checks(Some(d), xs).1[i] <==> xs[i].1 && xs[i].0 != d)
    decreases |xs|
  {
    if xs != [] {
      ChecksOnceStored(d, xs[1..]);
      var r := Checks(Some(d), xs);
      var rest := Checks(Some(d), xs[1..]);
      assert r.1 == [xs[0].1 && xs[0].0 != d] + rest.1;
      forall i | 1 <= i < |xs| ensures r.1[i] == rest.1[i - 1] && xs[1..][i - 1] == xs[i] { }
    }
  }

  /** From a fresh database: the first check stores its digest, which is
      never overwritten; the first check never raises, and a later one raises
      exactly when an exception is supplied and its digest differs from the
      first. */
  lemma StoredOnce(xs: seq<(Digests, bool)>)
    requires xs != []
    ensures Checks(None, xs).0 == Some(xs[0].0)
    ensures |Checks(None, xs).1| == |xs| && !Checks(None, xs).1[0]
    ensures forall i :: 0 < i < |xs| ==> (Checks(None, xs).1[i] <==> xs[i].1 && xs[i].0 != xs[0].0)
  {
    var d := xs[0].0;
    ChecksOnceStored(d, xs[1..]);
    var r := Checks(None, xs);
    var rest := Checks(Some(d), xs[1..]);
    assert r.1 == [false] + rest.1;
    forall i | 0 < i < |xs| ensures r.1[i] == rest.1[i - 1] && xs[1..][i - 1] == xs[i] { }
  }

  // `sort_translations`

  lemma TranslationKeysComparable(s: seq<Translation>)
    ensures Sorting.KeysComparable(s, TranslationSortKey)
  {
    forall x, y | x in s && y in s ensures Comparable(TranslationSortKey(x), TranslationSortKey(y)) {
      TranslationOrder(x, y);
    }
  }

  /** After `sort_translations`, each sutta's list holds the same
      translations, no external link before an internal one, and within
      either group by language id, then by sequence number. */
  lemma SortedTranslations(lists: map<string, seq<Translation>>, u: string)
    requires u in lists
    ensures u in Sorting.SortValues(lists, TranslationSortKey)
    ensures var l := Sorting.SortValues(lists, TranslationSortKey)[u];
            multiset(l) == multiset(lists[u]) &&
            forall i, j :: 0 <= i < j < |l| ==>
              (StartsWith(l[j].url, "/") ==> StartsWith(l[i].url, "/")) &&
              (StartsWith(l[i].url, "/") == StartsWith(l[j].url, "/") ==>
                 l[i].lang.id < l[j].lang.id || (l[i].lang.id == l[j].lang.id && l[i].seqNbr <= l[j].seqNbr))
  {
    forall p | p in lists ensures Sorting.KeysComparable(lists[p], TranslationSortKey) {
      TranslationKeysComparable(lists[p]);
    }
    Sorting.SortValuesSorted(lists, TranslationSortKey);
    var l := Sorting.SortValues(lists, TranslationSortKey)[u];
    forall i, j | 0 <= i < j < |l|
      ensures (StartsWith(l[j].url, "/") ==> StartsWith(l[i].url, "/")) &&
              (StartsWith(l[i].url, "/") == StartsWith(l[j].url, "/") ==>
                 l[i].lang.id < l[j].lang.id || (l[i].lang.id == l[j].lang.id && l[i].seqNbr <= l[j].seqNbr))
    {
      assert !Lt(TranslationSortKey(l[j]), TranslationSortKey(l[i]));
      TranslationOrder(l[j], l[i]);
    }
  }

  // `build_parallels`

  /** The parallel lists after the three loops, before sorting. */
  function WithParallels(par: map<string, seq<Parallel>>, data: ParallelsData, suttas: map<string, Sutta>)
    : (r: map<string, seq<Parallel>>)
    requires ParallelData.UidsKnown(data.0, suttas) && ParallelData.UidsKnown(data.1, suttas)
    requires ParallelData.UidsKnown(data.2, suttas) && suttas.Keys == par.Keys
    ensures r.Keys == par.Keys
  {
    var fulls := ParallelData.AppendBucket(par, data.0, false, false, suttas);
    var indirects := ParallelData.AppendBucket(fulls, data.1, false, true, suttas);
    ParallelData.AppendBucket(indirects, data.2, true, false, suttas)
  }

  /** Some list holds a parallel whose sutta has no language (the
      `lang = None` of `build_suttas`): `Parallel.sort_key` reads
      `s.lang.id` of every element and raises `AttributeError`. */
  predicate Langless(par: map<string, seq<Parallel>>) {
    exists u, i :: u in par && 0 <= i < |par[u]| && par[u][i].sutta.lang.None?
  }

  lemma ParallelKeysComparable(s: seq<Parallel>)
    ensures Sorting.KeysComparable(s, ParallelSortKey)
  {
    forall x, y | x in s && y in s ensures Comparable(ParallelSortKey(x), ParallelSortKey(y)) {
      ParallelOrder(x, y);
    }
  }

  /** After `build_parallels`, each sutta's list holds its old records, the
      records of its full, indirect and partial entries, in
      `Parallel.sort_key` order: within one language no partial parallel
      comes before a full one. */
  lemma BuiltParallels(par: map<string, seq<Parallel>>, data: ParallelsData, suttas: map<string, Sutta>, u: string)
    requires ParallelData.UidsKnown(data.0, suttas) && ParallelData.UidsKnown(data.1, suttas)
    requires ParallelData.UidsKnown(data.2, suttas) && suttas.Keys == par.Keys && u in par
    requires !Langless(WithParallels(par, data, suttas))
    ensures u in Sorting.SortValues(WithParallels(par, data, suttas), ParallelSortKey)
    ensures var l := Sorting.SortValues(WithParallels(par, data, suttas), ParallelSortKey)[u];
            multiset(l) == multiset(par[u] + ParallelData.Contributions(data.0, u, false, false, suttas)
                                           + ParallelData.Contributions(data.1, u, false, true, suttas)
                                           + ParallelData.Contributions(data.2, u, true, false, suttas)) &&
            Sorting.SortedBy(l, ParallelSortKey) &&
            forall i, j :: 0 <= i < j < |l| && LangId(l[i].sutta) == LangId(l[j].sutta) ==>
              !l[i].partial || l[j].partial
  {
    var w := WithParallels(par, data, suttas);
    var fulls := ParallelData.AppendBucket(par, data.0, false, false, suttas);
    var indirects := ParallelData.AppendBucket(fulls, data.1, false, true, suttas);
    ParallelData.AppendBucketPerSutta(par, data.0, false, false, suttas, u);
    ParallelData.AppendBucketPerSutta(fulls, data.1, false, true, suttas, u);
    ParallelData.AppendBucketPerSutta(indirects, data.2, true, false, suttas, u);
    forall p | p in w ensures Sorting.KeysComparable(w[p], ParallelSortKey) {
      ParallelKeysComparable(w[p]);
    }
    Sorting.SortValuesSorted(w, ParallelSortKey);
    var l := Sorting.SortValues(w, ParallelSortKey)[u];
    forall i, j | 0 <= i < j < |l| && LangId(l[i].sutta) == LangId(l[j].sutta)
      ensures !l[i].partial || l[j].partial
    {
      assert !Lt(ParallelSortKey(l[j]), ParallelSortKey(l[i]));
      if l[i].partial && !l[j].partial {
        FullBeforePartial(l[j], l[i]);
      }
    }
  }

  // `build_search_data`

  /** Every sutta of the order has a language and a translation list
      (`sutta.lang.code` raises `AttributeError` otherwise). */
  predicate SearchReady(order: seq<string>, suttas: map<string, Sutta>, translations: map<string, seq<Translation>>) {
    forall i :: 0 <= i < |order| ==> order[i] in suttas && suttas[order[i]].lang.Some? && order[i] in translations
  }

  /** `searchstrings`: an entry per sutta, in sutta order. */
  function SearchEntries(order: seq<string>, suttas: map<string, Sutta>, translations: map<string, seq<Translation>>,
                         simplify: (string, string) -> string): (r: seq<SearchData.SearchEntry>)
    requires SearchReady(order, suttas, translations)
    ensures |r| == |order|
  {
    seq(|order|, i requires 0 <= i < |order| && SearchReady(order, suttas, translations) =>
      SearchData.Entry(suttas[order[i]], translations[order[i]], simplify))
  }

  /** One entry per sutta in sutta order: the `i`th entry is the `i`th
      sutta, its blob the cased blob lowercased and holding the sutta's
      lowercased uid as a framed word, and its simplified name framed. */
  lemma SearchEntriesShape(order: seq<string>, suttas: map<string, Sutta>,
                           translations: map<string, seq<Translation>>,
                           simplify: (string, string) -> string, i: int)
    requires SearchReady(order, suttas, translations) && 0 <= i < |order|
    ensures var e := SearchEntries(order, suttas, translations, simplify)[i];
            e.sutta == suttas[order[i]] && e.blob == Lower(e.blobCased) &&
            e.blobCased == SearchData.CasedBlob(suttas[order[i]], translations[order[i]]) &&
            Contains(e.blob, SearchData.Framed(Lower(suttas[order[i]].uid))) &&
            StartsWith(e.nameSimplified, "  ")
  {
    SearchData.EntryShape(suttas[order[i]], translations[order[i]], simplify);
  }

  /** The suttas of `order`, in order: `self.suttas.values()`. */
  function InOrder(order: seq<string>, suttas: map<string, Sutta>): (r: seq<Sutta>)
    requires SuttaTree.Known(order, suttas)
    ensures |r| == |order| && forall i :: 0 <= i < |order| ==> r[i] == suttas[order[i]]
  {
    seq(|order|, i requires 0 <= i < |order| && SuttaTree.Known(order, suttas) => suttas[order[i]])
  }

  /** An empty list for each key: `translations=[]`, `parallels=[]`. */
  function EmptyLists<X>(keys: set<string>): (r: map<string, seq<X>>)
    ensures r.Keys == keys && forall u :: u in r ==> r[u] == []
  {
    map u | u in keys :: []
  }

  /** The sutta texts of `build_suttas`: each sutta offered in order, then
      every list sorted. */
  method NewSuttaTexts(order: seq<string>, suttas: map<string, Sutta>) returns (texts: TextCollections.TextCollection<Sutta>)
    requires SuttaTree.Known(order, suttas)
    ensures fresh(texts) && texts.listKey == TextCollections.SuttaListKey
    ensures forall s :: texts.urlOf(s) == s.url
    ensures texts.lists ==
              Sorting.SortValues(TextCollections.AddAll(map[], InOrder(order, suttas), texts.urlOf),
                                 TextCollections.SuttaListKey)
  {
    texts := TextCollections.SuttaTexts();
    TextCollections.AddEach(texts, InOrder(order, suttas));
    texts.SortLists();
  }

  /** One row of `build_references`: a known sutta's translation is
      appended to its list and offered to the texts; an unknown sutta's row
      records its error message. */
  method AddReference(refs: References.Refs, uidOf: map<int, string>, langs: map<int, Language>, known: set<string>,
                      i: int, base: map<string, seq<Translation>>, errs0: seq<string>,
                      tr: map<string, seq<Translation>>, errs: seq<string>,
                      texts: TextCollections.TextCollection<Translation>)
    returns (tr': map<string, seq<Translation>>, errs': seq<string>)
    requires References.Resolvable(refs, uidOf, langs, known) && 0 <= i < |refs| && base.Keys == known
    requires References.Resolvable(refs[..i], uidOf, langs, known)
    requires References.Appended(tr, base, References.Translations(refs[..i], uidOf, langs, known))
    requires errs == errs0 + References.Errors(refs[..i], uidOf)
    requires texts.lists == TextCollections.AddAll(map[], References.Translations(refs[..i], uidOf, langs, known), texts.urlOf)
    modifies texts
    ensures References.Resolvable(refs[..i + 1], uidOf, langs, known)
    ensures References.Appended(tr', base, References.Translations(refs[..i + 1], uidOf, langs, known))
    ensures errs' == errs0 + References.Errors(refs[..i + 1], uidOf)
    ensures texts.lists == TextCollections.AddAll(map[], References.Translations(refs[..i + 1], uidOf, langs, known), texts.urlOf)
  {
    References.RowStep(refs, uidOf, langs, known, i);
    ghost var done := References.Translations(refs[..i], uidOf, langs, known);
    var (key, row) := refs[i];
    if row.suttaId in uidOf {
      var t := References.TranslationOf(row, uidOf, langs);
      References.AppendedSnoc(tr, base, done, t);
      TextCollections.AddAllSnoc(map[], done, t, texts.urlOf);
      tr' := tr[t.suttaUid := tr[t.suttaUid] + [t]];
      errs' := errs;
      var _ := texts.Add(t);
    } else {
      assert done + [] == done;
      tr' := tr;
      errs' := errs + [References.MissingMessage(key, row)];
    }
  }

  /** The loop of `build_references` and the final `sort_lists`, over the
      translation lists `base` and the error list `errs0`. */
  method AddReferences(refs: References.Refs, uidOf: map<int, string>, langs: map<int, Language>, known: set<string>,
                       base: map<string, seq<Translation>>, errs0: seq<string>)
    returns (tr: map<string, seq<Translation>>, errs: seq<string>, texts: TextCollections.TextCollection<Translation>)
    requires References.Resolvable(refs, uidOf, langs, known) && base.Keys == known
    ensures References.Appended(tr, base, References.Translations(refs, uidOf, langs, known))
    ensures errs == errs0 + References.Errors(refs, uidOf)
    ensures fresh(texts) && texts.listKey == TextCollections.TranslationListKey
    ensures forall t :: texts.urlOf(t) == Some(t.url)
    ensures texts.lists ==
              Sorting.SortValues(TextCollections.AddAll(map[], References.Translations(refs, uidOf, langs, known), texts.urlOf),
                                 TextCollections.TranslationListKey)
  {
    texts := TextCollections.TranslationTexts();
    tr, errs := base, errs0;
    References.NoRowsYet(refs, uidOf, langs, known, base);
    assert errs0 + [] == errs0;
    var i := 0;
    while i < |refs|
      invariant 0 <= i <= |refs| && References.Resolvable(refs[..i], uidOf, langs, known)
      invariant References.Appended(tr, base, References.Translations(refs[..i], uidOf, langs, known))
      invariant errs == errs0 + References.Errors(refs[..i], uidOf)
      invariant texts.lists == TextCollections.AddAll(map[], References.Translations(refs[..i], uidOf, langs, known), texts.urlOf)
    {
      tr, errs := AddReference(refs, uidOf, langs, known, i, base, errs0, tr, errs, texts);
      i := i + 1;
    }
    assert refs[..|refs|] == refs;
    texts.SortLists();
  }

  class Imm {
    // Given: the top-level tables.
    const collections: set<string>
    const divisions: map<string, Division>
    /** What sutta rows are resolved against; `tables.subdivisions` are the
        subdivision uids. */
    const tables: SuttaTree.Tables
    /** The vagga ids in the order of `self.vaggas`. */
    const vaggaOrder: seq<int>
    const referenceLanguages: map<int, Language>

    // Built.
    var suttaOrder: seq<string>
    var suttas: map<string, Sutta>
    var subdivisionSuttas: map<string, seq<string>>
    var subdivisionVaggas: map<string, seq<SuttaTree.VaggaRef>>
    var vaggaSuttas: map<SuttaTree.VaggaRef, seq<string>>
    var suttaTexts: TextCollections.TextCollection<Sutta>
    var translationTexts: TextCollections.TextCollection<Translation>
    var translations: map<string, seq<Translation>>
    var parallels: map<string, seq<Parallel>>
    var parallelsData: Option<ParallelsData>
    var searchStrings: seq<SearchData.SearchEntry>
    var textPaths: map<string, map<string, string>>
    var errors: seq<string>
    var dbrMd5: Option<Digests>

    /** A database holding the given top-level tables and nothing built yet;
        `vaggaOrder` is the key order of the `OrderedDict` `self.vaggas`. */
    constructor(collections: set<string>, divisions: map<string, Division>, tables: SuttaTree.Tables,
                vaggaOrder: seq<int>, referenceLanguages: map<int, Language>)
      requires SuttaTree.VaggaKeyOrder(vaggaOrder, tables.vaggas)
      ensures this.collections == collections && this.divisions == divisions && this.tables == tables
      ensures this.vaggaOrder == vaggaOrder && this.referenceLanguages == referenceLanguages
      ensures suttaOrder == [] && suttas == map[] && translations == map[] && parallels == map[]
      ensures parallelsData == None && searchStrings == [] && textPaths == map[] && errors == [] && dbrMd5 == None
    {
      this.collections := collections;
      this.divisions := divisions;
      this.tables := tables;
      this.vaggaOrder := vaggaOrder;
      this.referenceLanguages := referenceLanguages;
      suttaOrder, suttas := [], map[];
      subdivisionSuttas, subdivisionVaggas, vaggaSuttas := map[], map[], map[];
      var st := TextCollections.SuttaTexts();
      var tt := TextCollections.TranslationTexts();
      suttaTexts, translationTexts := st, tt;
      translations, parallels, parallelsData := map[], map[], None;
      searchStrings, textPaths, errors, dbrMd5 := [], map[], [], None;
    }

    /** `dbr(uid)`: collections are looked up first, then divisions, then
        subdivisions, then suttas. */
    function Call(uid: string): (r: Found)
      reads this
      ensures uid in collections ==> r == CollectionFound(uid)
      ensures uid !in collections && uid in divisions ==> r == DivisionFound(divisions[uid])
      ensures uid !in collections && uid !in divisions && uid in tables.subdivisions ==> r == SubdivisionFound(uid)
      ensures uid !in collections && uid !in divisions && uid !in tables.subdivisions && uid in suttas ==>
                r == SuttaFound(suttas[uid])
      ensures r == NotFound <==>
                uid !in collections && uid !in divisions && uid !in tables.subdivisions && uid !in suttas
    {
      if uid in collections then CollectionFound(uid)
      else if uid in divisions then DivisionFound(divisions[uid])
      else if uid in tables.subdivisions then SubdivisionFound(uid)
      else if uid in suttas then SuttaFound(suttas[uid])
      else NotFound
    }

    /** `build_suttas` from the sutta rows on: the ordered sutta table, the
        tree below the subdivisions, the sutta texts, and empty translation
        and parallel lists for every sutta. `problems` are the errors logged
        on the way. */
    method BuildSuttas(rows: seq<SuttaTree.SuttaRow>) returns (problems: seq<SuttaTree.Problem>)
      requires SuttaTree.AllResolvable(rows, tables) && SuttaTree.VaggasWellFormed(tables)
      requires SuttaTree.VaggaKeyOrder(vaggaOrder, tables.vaggas)
      modifies this`suttaOrder, this`suttas, this`subdivisionSuttas, this`subdivisionVaggas, this`vaggaSuttas
      modifies this`suttaTexts, this`translations, this`parallels
      ensures (suttaOrder, suttas) == SuttaTree.OrderedDictOf(SuttaTree.OrderPairs(SuttaTree.Resolved(rows, tables)))
      ensures problems == SuttaTree.AllProblems(rows, tables)
      ensures SuttaTree.Tree(tables, vaggaOrder, suttaOrder, suttas, subdivisionSuttas, subdivisionVaggas, vaggaSuttas)
      ensures fresh(suttaTexts) && suttaTexts.listKey == TextCollections.SuttaListKey
      ensures forall s :: suttaTexts.urlOf(s) == s.url
      ensures suttaTexts.lists ==
                Sorting.SortValues(TextCollections.AddAll(map[], InOrder(suttaOrder, suttas), suttaTexts.urlOf),
                                   TextCollections.SuttaListKey)
      ensures translations == EmptyLists(suttas.Keys) && parallels == EmptyLists(suttas.Keys)
    {
      problems := AssembleTree(rows);
      MakeSuttaTexts();
    }

    /** The first half of `build_suttas`: the sutta table and the tree. */
    method AssembleTree(rows: seq<SuttaTree.SuttaRow>) returns (problems: seq<SuttaTree.Problem>)
      requires SuttaTree.AllResolvable(rows, tables) && SuttaTree.VaggasWellFormed(tables)
      requires SuttaTree.VaggaKeyOrder(vaggaOrder, tables.vaggas)
      modifies this`suttaOrder, this`suttas, this`subdivisionSuttas, this`subdivisionVaggas, this`vaggaSuttas
      ensures (suttaOrder, suttas) == SuttaTree.OrderedDictOf(SuttaTree.OrderPairs(SuttaTree.Resolved(rows, tables)))
      ensures problems == SuttaTree.AllProblems(rows, tables)
      ensures SuttaTree.Tree(tables, vaggaOrder, suttaOrder, suttas, subdivisionSuttas, subdivisionVaggas, vaggaSuttas)
    {
      var order, table, subSuttas, subVaggas, members;
      order, table, subSuttas, subVaggas, members, problems := SuttaTree.BuildTree(rows, tables, vaggaOrder);
      assert SuttaTree.Tree(tables, vaggaOrder, order, table, subSuttas, subVaggas, members);
      suttaOrder, suttas, subdivisionSuttas, subdivisionVaggas, vaggaSuttas := order, table, subSuttas, subVaggas, members;
    }

    /** The second half of `build_suttas`: the sutta texts, and the empty
        `translations` and `parallels` of every sutta. */
    method MakeSuttaTexts()
      requires SuttaTree.Known(suttaOrder, suttas)
      modifies this`suttaTexts, this`translations, this`parallels
      ensures fresh(suttaTexts) && suttaTexts.listKey == TextCollections.SuttaListKey
      ensures forall s :: suttaTexts.urlOf(s) == s.url
      ensures suttaTexts.lists ==
                Sorting.SortValues(TextCollections.AddAll(map[], InOrder(suttaOrder, suttas), suttaTexts.urlOf),
                                   TextCollections.SuttaListKey)
      ensures translations == EmptyLists(suttas.Keys) && parallels == EmptyLists(suttas.Keys)
    {
      var texts := NewSuttaTexts(suttaOrder, suttas);
      suttaTexts := texts;
      translations := EmptyLists(suttas.Keys);
      parallels := EmptyLists(suttas.Keys);
    }

    /** `build_references`: each reference row whose sutta is known appends
        its translation to that sutta's list and offers it to the new
        translation texts, which are sorted at the end; each other row
        records its error message. */
    method BuildReferences(refs: References.Refs, uidOf: map<int, string>)
      requires References.Resolvable(refs, uidOf, referenceLanguages, suttas.Keys)
      requires translations.Keys == suttas.Keys
      modifies this`translations, this`translationTexts, this`errors
      ensures References.Appended(translations, old(translations),
                                  References.Translations(refs, uidOf, referenceLanguages, suttas.Keys))
      ensures errors == old(errors) + References.Errors(refs, uidOf)
      ensures fresh(translationTexts) && translationTexts.listKey == TextCollections.TranslationListKey
      ensures forall t :: translationTexts.urlOf(t) == Some(t.url)
      ensures translationTexts.lists ==
                Sorting.SortValues(TextCollections.AddAll(map[], References.Translations(refs, uidOf, referenceLanguages, suttas.Keys),
                                                          translationTexts.urlOf),
                                   TextCollections.TranslationListKey)
    {
      var tr, errs, texts := AddReferences(refs, uidOf, referenceLanguages, suttas.Keys, translations, errors);
      translations, errors, translationTexts := tr, errs, texts;
    }

    /** `build_parallels_data`: the three buckets, each a listing of its
        table (`fd`, `id`, `pd`), as `test()` has left it, with ids turned
        into uids. */
    method BuildParallelsData(rows: seq<ParallelData.Row>, uidOf: map<int, string>)
      returns (ghost fd: seq<(int, seq<(int, ParallelData.Note)>)>, ghost id: seq<(int, seq<(int, ParallelData.Note)>)>,
               ghost pd: seq<(int, seq<(int, ParallelData.Note)>)>)
      requires ParallelData.RowsKnown(rows, uidOf) && 16 in uidOf && 4218 in uidOf
      modifies this`parallelsData
      ensures parallelsData.Some?
      ensures ParallelData.IdsKnown(fd, uidOf) && ParallelData.IdsKnown(id, uidOf) && ParallelData.IdsKnown(pd, uidOf)
      ensures var fulls := ParallelData.Adjacency(ParallelData.Links(rows, false));
              ParallelData.IsListing(fd, ParallelData.CaseTouched(fulls)) &&
              parallelsData.value.0 == ParallelData.ToUids(fd, uidOf) &&
              ParallelData.IsListing(id, ParallelData.CaseTouched(ParallelData.Indirects(fulls))) &&
              parallelsData.value.1 == ParallelData.ToUids(id, uidOf) &&
              ParallelData.IsListing(pd, ParallelData.CaseTouched(ParallelData.Adjacency(ParallelData.Links(rows, true)))) &&
              parallelsData.value.2 == ParallelData.ToUids(pd, uidOf)
    {
      var f, i, p;
      f, i, p, fd, id, pd := ParallelData.BuildParallelsData(rows, uidOf);
      parallelsData := Some((f, i, p));
    }

    /** `sort_translations`: every sutta's translations sorted by
        `Translation.sort_key`. */
    method SortTranslations()
      modifies this`translations
      ensures translations == Sorting.SortValues(old(translations), TranslationSortKey)
    {
      translations := Sorting.SortEach(translations, TranslationSortKey);
    }

    /** `build_parallels`: the records of the full, indirect and partial
        buckets appended to their suttas' lists, every list sorted by
        `Parallel.sort_key`, and `parallels_data` deleted. */
    method BuildParallels() returns (r: Result<(), string>)
      requires parallelsData.Some? && parallels.Keys == suttas.Keys
      requires ParallelData.UidsKnown(parallelsData.value.0, suttas) && ParallelData.UidsKnown(parallelsData.value.1, suttas)
      requires ParallelData.UidsKnown(parallelsData.value.2, suttas)
      modifies this`parallels, this`parallelsData
      ensures var w := WithParallels(old(parallels), old(parallelsData).value, suttas);
              (r.Err? <==> Langless(w)) &&
              (r.Ok? ==> parallels == Sorting.SortValues(w, ParallelSortKey)) &&
              (r.Err? ==> r.error == "AttributeError" && parallels == w)
      ensures parallelsData == None
    {
      var (fulls, indirects, partials) := parallelsData.value;
      parallelsData := None;
      var par := ParallelData.AppendAll(parallels, fulls, false, false, suttas);
      par := ParallelData.AppendAll(par, indirects, false, true, suttas);
      par := ParallelData.AppendAll(par, partials, true, false, suttas);
      if Langless(par) {
        parallels := par;
        r := Err("AttributeError");
      } else {
        parallels := Sorting.SortEach(par, ParallelSortKey);
        r := Ok(());
      }
    }

    /** `build_search_data`, with `textfunctions.simplify` as `simplify`. */
    method BuildSearchData(simplify: (string, string) -> string)
      requires SearchReady(suttaOrder, suttas, translations)
      modifies this`searchStrings
      ensures searchStrings == SearchEntries(suttaOrder, suttas, translations, simplify)
    {
      searchStrings := SearchEntries(suttaOrder, suttas, translations, simplify);
    }

    /** `build_text_paths` over the files the walk yields: the table, or,
        when two files share a language and a uid, the failed assertion
        with that key (which ends the construction of the database). */
    method BuildTextPaths(files: seq<TextPaths.TextFile>) returns (r: Result<(), (string, string)>)
      modifies this`textPaths
      ensures TextPaths.PathsOf(files).Ok? ==> r == Ok(()) && textPaths == TextPaths.PathsOf(files).value
      ensures TextPaths.PathsOf(files).Err? ==> r == Err(TextPaths.PathsOf(files).error) && textPaths == old(textPaths)
    {
      var paths := TextPaths.BuildTextPaths(files);
      match paths
      case Ok(m) =>
        textPaths := m;
        r := Ok(());
      case Err(e) =>
        r := Err(e);
    }

    /** `check_md5(exception)` with the fresh digest `latest`: the first
        call stores it; a later one raises `exception`, if one is supplied,
        when the digest differs from the stored one. */
    method CheckMd5<E>(latest: Digests, exception: Option<E>) returns (r: Result<(), E>)
      modifies this`dbrMd5
      ensures (dbrMd5, r.Err?) == CheckStep(old(dbrMd5), latest, exception.Some?)
      ensures r.Err? ==> exception.Some? && r.error == exception.value
    {
      if dbrMd5.None? {
        dbrMd5 := Some(latest);
        r := Ok(());
      } else if dbrMd5.value != latest && exception.Some? {
        r := Err(exception.value);
      } else {
        r := Ok(());
      }
    }
  }
}
