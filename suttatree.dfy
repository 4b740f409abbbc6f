/** The steps of `build_suttas` in src/imm.py that turn the rows of the
    sutta table into the tree of subdivisions, vaggas and suttas. The
    tree's lists are tables keyed by subdivision uid or vagga reference
    (arena style); the suttas in them are named by uid. */
module SuttaTree {
  import opened Wrappers
  import opened PyValue
  import opened Entities
  import Sorting
  import NaturalSort

  /** A row of `db.sutta`; an id that is `NULL` in the database is `None`. */
  datatype SuttaRow = SuttaRow(
    id: int, uid: string, acronym: string, altAcronym: Option<string>,
    name: string, codedName: string, plainName: string, number: int,
    collectionLanguageId: Option<int>, subdivisionId: int, vaggaId: Option<int>,
    numberInVagga: Option<int>, volpageInfo: string, altVolpageInfo: Option<string>,
    biblioEntryId: Option<int>, url: Option<string>, urlInfo: Option<string>)

  /** A row of `db.subdivision`: its uid and the id of its division. */
  datatype SubdivisionRow = SubdivisionRow(uid: string, divisionId: int)

  /** What a sutta row is resolved against: `db.subdivision`,
      `db.division` (as the `division_id` of each), the uids of
      `self.subdivisions`, `db.biblio_entry`, `self.vaggas` and the
      collection languages. */
  datatype Tables = Tables(
    subdivisionRows: map<int, SubdivisionRow>,
    divisionIds: map<int, int>,
    subdivisions: set<string>,
    biblio: map<int, BiblioEntry>,
    vaggas: map<int, Vagga>,
    languages: map<int, Language>)

  /** The three errors resolving a row can log. */
  datatype Problem = InvalidBiblio(id: int) | InvalidVagga(id: int) | InvalidLanguage(langId: Option<int>)

  /** `m[k]` succeeds for a key that may be `None`. */
  predicate Has<V>(m: map<int, V>, k: Option<int>) { k.Some? && k.value in m }

  /** The lookups of a row that raise `KeyError` uncaught: its subdivision,
      that subdivision's division, and the built subdivision of that uid. */
  predicate Resolvable(row: SuttaRow, t: Tables) {
    row.subdivisionId in t.subdivisionRows &&
    t.subdivisionRows[row.subdivisionId].divisionId in t.divisionIds &&
    t.subdivisionRows[row.subdivisionId].uid in t.subdivisions
  }

  /** One pass of the loop over `db.sutta.values()`: the `Sutta`, and the
      problems logged for it. */
  function ResolveSutta(row: SuttaRow, t: Tables): (Sutta, seq<Problem>)
    requires Resolvable(row, t)
  {
    (ResolvedSutta(row, t), Problems(row, t))
  }

  /** The `Sutta` of a row: a biblio entry, vagga or language that is not
      found becomes `None`. */
  function ResolvedSutta(row: SuttaRow, t: Tables): (s: Sutta)
    requires Resolvable(row, t)
    ensures s.id == row.id && s.uid == row.uid && s.number == row.number && s.url == row.url
    ensures s.subdivisionId == row.subdivisionId
    ensures s.subdivisionUid == t.subdivisionRows[row.subdivisionId].uid
    ensures s.divisionId == t.divisionIds[t.subdivisionRows[row.subdivisionId].divisionId]
    ensures s.biblioEntry.Some? <==> Has(t.biblio, row.biblioEntryId)
    ensures s.biblioEntry.Some? ==> s.biblioEntry.value == t.biblio[row.biblioEntryId.value]
    ensures s.vagga.Some? <==> Has(t.vaggas, row.vaggaId)
    ensures s.vagga.Some? ==> s.vagga.value == t.vaggas[row.vaggaId.value]
    ensures s.lang.Some? <==> Has(t.languages, row.collectionLanguageId)
    ensures s.lang.Some? ==> s.lang.value == t.languages[row.collectionLanguageId.value]
  {
    var sub := t.subdivisionRows[row.subdivisionId];
    var biblio := if Has(t.biblio, row.biblioEntryId) then Some(t.biblio[row.biblioEntryId.value]) else None;
    var vagga := if Has(t.vaggas, row.vaggaId) then Some(t.vaggas[row.vaggaId.value]) else None;
    var lang := if Has(t.languages, row.collectionLanguageId) then Some(t.languages[row.collectionLanguageId.value]) else None;
    Sutta(row.id, row.uid, row.acronym, row.altAcronym, row.name, row.codedName, row.plainName,
          row.number, lang, row.subdivisionId, sub.uid, t.divisionIds[sub.divisionId],
          vagga, row.numberInVagga, row.volpageInfo, row.altVolpageInfo, biblio, row.url, row.urlInfo)
  }

  /** The problems logged for a row: a missing biblio entry or vagga only
      when the row's id is truthy, a missing language always. */
  function Problems(row: SuttaRow, t: Tables): (ps: seq<Problem>)
    ensures forall k :: InvalidBiblio(k) in ps <==> row.biblioEntryId == Some(k) && k != 0 && k !in t.biblio
    ensures forall k :: InvalidVagga(k) in ps <==> row.vaggaId == Some(k) && k != 0 && k !in t.vaggas
    ensures forall k :: InvalidLanguage(k) in ps <==> k == row.collectionLanguageId && !Has(t.languages, k)
  {
    var p1 := if !Has(t.biblio, row.biblioEntryId) && row.biblioEntryId.Some? && row.biblioEntryId.value != 0
              then [InvalidBiblio(row.biblioEntryId.value)] else [];
    var p2 := if !Has(t.vaggas, row.vaggaId) && row.vaggaId.Some? && row.vaggaId.value != 0
              then [InvalidVagga(row.vaggaId.value)] else [];
    var p3 := if !Has(t.languages, row.collectionLanguageId) then [InvalidLanguage(row.collectionLanguageId)] else [];
    p1 + p2 + p3
  }

  // The global order

  /** `numsortkey` of a `(uid, sutta)` pair: of its uid. */
  function UidKey(p: (string, Sutta)): Value { NaturalSort.NumSortKey(Some(p.0)) }

  /** `t[1].subdivision.division.id` */
  function DivisionKey(p: (string, Sutta)): Value { Int(p.1.divisionId) }

  /** `sorted(sorted(suttas, key=numsortkey), key=division id)` */
  function OrderPairs(pairs: seq<(string, Sutta)>): seq<(string, Sutta)>
  {
    Sorting.SortBy(Sorting.SortBy(pairs, UidKey), DivisionKey)
  }

  /** A pair list grouped by division id in ascending order, and in
      natural uid order within a division. */
  ghost predicate InTreeOrder(r: seq<(string, Sutta)>) {
    forall i, j :: 0 <= i < j < |r| ==>
      r[i].1.divisionId <= r[j].1.divisionId &&
      (r[i].1.divisionId == r[j].1.divisionId ==> !Lt(UidKey(r[j]), UidKey(r[i])))
  }

  /** What "not below" means for the key `(division id, numsortkey)`. */
  lemma CompoundKeyMeaning(x: (string, Sutta), y: (string, Sutta))
    requires !Lt(Sorting.Compound(DivisionKey, UidKey)(y), Sorting.Compound(DivisionKey, UidKey)(x))
    ensures x.1.divisionId <= y.1.divisionId
    ensures x.1.divisionId == y.1.divisionId ==> !Lt(UidKey(y), UidKey(x))
  {
    assert Sorting.Compound(DivisionKey, UidKey)(y) == List([DivisionKey(y), UidKey(y)]);
    assert Sorting.Compound(DivisionKey, UidKey)(x) == List([DivisionKey(x), UidKey(x)]);
    PairLess(DivisionKey(y), UidKey(y), DivisionKey(x), UidKey(x));
    LessIrreflexive(UidKey(x));
  }

  /** The two sorts keep every pair and leave them in tree order. */
  lemma OrderPairsSorted(pairs: seq<(string, Sutta)>)
    ensures multiset(OrderPairs(pairs)) == multiset(pairs)
    ensures InTreeOrder(OrderPairs(pairs))
  {
    forall x, y | x in pairs && y in pairs ensures Comparable(UidKey(x), UidKey(y)) {
      NaturalSort.NumSortKeyIsNumericSortKey(x.0);
      NaturalSort.NumSortKeyIsNumericSortKey(y.0);
      NaturalSort.NumericKeysComparable(x.0, y.0);
    }
    Sorting.SortTwice(pairs, UidKey, DivisionKey);
    var r := OrderPairs(pairs);
    forall i, j | 0 <= i < j < |r|
      ensures r[i].1.divisionId <= r[j].1.divisionId &&
              (r[i].1.divisionId == r[j].1.divisionId ==> !Lt(UidKey(r[j]), UidKey(r[i])))
    {
      CompoundKeyMeaning(r[i], r[j]);
    }
  }

  // `OrderedDict(suttas)`

  /** `s[:i+1]` is `s[:i]` and then `s[i]`. */
  lemma TakeSnoc<X>(s: seq<X>, i: int)
    requires 0 <= i < |s|
    ensures s[..i + 1] == s[..i] + [s[i]]
  {
  }

  predicate Distinct<X(==)>(xs: seq<X>) {
    forall i, j :: 0 <= i < j < |xs| ==> xs[i] != xs[j]
  }

  /** `OrderedDict(pairs)`: its keys in order and its contents. A repeated
      key keeps the place of its first pair and takes its last value. */
  function OrderedDictOf(pairs: seq<(string, Sutta)>): (d: (seq<string>, map<string, Sutta>))
    ensures Distinct(d.0)
    ensures forall u :: u in d.1 <==> u in d.0
    ensures forall i :: 0 <= i < |pairs| ==> pairs[i].0 in d.1
    decreases |pairs|
  {
    if pairs == [] then ([], map[])
    else
      var init := pairs[..|pairs| - 1];
      var d := OrderedDictOf(init);
      var (u, s) := pairs[|pairs| - 1];
      (if u in d.1 then d.0 else d.0 + [u], d.1[u := s])
  }

  /** Its keys are those of the pairs. */
  lemma {:induction false} OrderedDictKeys(pairs: seq<(string, Sutta)>, u: string)
    ensures u in OrderedDictOf(pairs).1 <==> exists j :: 0 <= j < |pairs| && pairs[j].0 == u
    decreases |pairs|
  {
    if pairs != [] {
      var init := pairs[..|pairs| - 1];
      OrderedDictKeys(init, u);
      if u in OrderedDictOf(init).1 {
        var j :| 0 <= j < |init| && init[j].0 == u;
        assert pairs[j].0 == u;
      }
      if exists j :: 0 <= j < |pairs| && pairs[j].0 == u {
        var j :| 0 <= j < |pairs| && pairs[j].0 == u;
        if j < |init| { assert init[j].0 == u; }
      }
    }
  }

  /** The last pair of a key gives its value. */
  lemma {:induction false} OrderedDictLastWins(pairs: seq<(string, Sutta)>, i: int)
    requires 0 <= i < |pairs|
    requires forall j :: i < j < |pairs| ==> pairs[j].0 != pairs[i].0
    ensures OrderedDictOf(pairs).1[pairs[i].0] == pairs[i].1
    decreases |pairs|
  {
    if i < |pairs| - 1 {
      var init := pairs[..|pairs| - 1];
      assert init[i] == pairs[i];
      OrderedDictLastWins(init, i);
    }
  }

  /** With distinct uids the dictionary is the list itself. */
  lemma {:induction false} OrderedDictDistinct(pairs: seq<(string, Sutta)>)
    requires forall i, j :: 0 <= i < j < |pairs| ==> pairs[i].0 != pairs[j].0
    ensures |OrderedDictOf(pairs).0| == |pairs|
    ensures forall i :: 0 <= i < |pairs| ==>
              OrderedDictOf(pairs).0[i] == pairs[i].0 && OrderedDictOf(pairs).1[pairs[i].0] == pairs[i].1
    decreases |pairs|
  {
    if pairs != [] {
      var init := pairs[..|pairs| - 1];
      OrderedDictDistinct(init);
      var d := OrderedDictOf(init);
      var u := pairs[|pairs| - 1].0;
      forall j | 0 <= j < |init| ensures init[j].0 != u {
        assert init[j] == pairs[j];
      }
      OrderedDictKeys(init, u);
      assert u !in d.1;
      forall i | 0 <= i < |pairs|
        ensures OrderedDictOf(pairs).0[i] == pairs[i].0 && OrderedDictOf(pairs).1[pairs[i].0] == pairs[i].1
      {
        OrderedDictLastWins(pairs, i);
        if i < |init| { assert init[i] == pairs[i]; }
      }
    }
  }

  // Lists of the tree as filters of the global order

  /** Every uid of `order` names a sutta. */
  predicate Known(order: seq<string>, suttas: map<string, Sutta>) {
    forall u :: u in order ==> u in suttas
  }

  /** The suttas of `order` whose `key` is `k`, in order. */
  function Where<K(==)>(order: seq<string>, suttas: map<string, Sutta>, key: Sutta -> K, k: K): (r: seq<string>)
    requires Known(order, suttas)
    decreases |order|
  {
    if order == [] then []
    else
      var init := order[..|order| - 1];
      var u := order[|order| - 1];
      Where(init, suttas, key, k) + (if key(suttas[u]) == k then [u] else [])
  }

  /** How often `u` is in the filter: once if it is in `order` with key `k`,
      else never (for an `order` without repeats). */
  lemma {:induction false} WhereCount<K>(order: seq<string>, suttas: map<string, Sutta>,
                                              key: Sutta -> K, k: K, u: string)
    requires Known(order, suttas)
    requires Distinct(order)
    ensures multiset(Where(order, suttas, key, k))[u] ==
            if u in order && key(suttas[u]) == k then 1 else 0
    decreases |order|
  {
    if order != [] {
      var init := order[..|order| - 1];
      var last := order[|order| - 1];
      assert order == init + [last];
      forall j | 0 <= j < |init| ensures init[j] != last {
        assert init[j] == order[j];
      }
      assert last !in init;
      WhereCount(init, suttas, key, k, u);
      var tail := if key(suttas[last]) == k then [last] else [];
      assert multiset(Where(order, suttas, key, k)) == multiset(Where(init, suttas, key, k)) + multiset(tail);
      assert u in order <==> u in init || u == last;
    }
  }

  /** One more sutta of the order: the filter grows by it when it has key `k`. */
  lemma WhereStep<K>(order: seq<string>, suttas: map<string, Sutta>, key: Sutta -> K, k: K, i: int)
    requires 0 <= i < |order|
    requires forall j :: 0 <= j < |order| ==> order[j] in suttas
    ensures Where(order[..i + 1], suttas, key, k) ==
            Where(order[..i], suttas, key, k) + (if key(suttas[order[i]]) == k then [order[i]] else [])
  {
    assert order[..i + 1][..i] == order[..i];
  }

  function SubdivisionOf(s: Sutta): string { s.subdivisionUid }

  /** Populates `subdivision.suttas`: each sutta of the global order is
      appended to the list of its subdivision, so the list of a subdivision
      is the global order restricted to it. */
  method FillSubdivisions(order: seq<string>, suttas: map<string, Sutta>, subdivisions: set<string>)
    returns (members: map<string, seq<string>>)
    requires Known(order, suttas) && forall u :: u in order ==> suttas[u].subdivisionUid in subdivisions
    ensures members.Keys == subdivisions
    ensures forall sub :: sub in subdivisions ==> members[sub] == Where(order, suttas, SubdivisionOf, sub)
  {
    members := map sub | sub in subdivisions :: [];
    var i := 0;
    while i < |order|
      invariant 0 <= i <= |order|
      invariant members.Keys == subdivisions
      invariant forall sub :: sub in subdivisions ==> members[sub] == Where(order[..i], suttas, SubdivisionOf, sub)
    {
      var u := order[i];
      var sub := suttas[u].subdivisionUid;
      assert order[..i + 1][..i] == order[..i];
      members := members[sub := members[sub] + [u]];
      i := i + 1;
    }
    assert order[..|order|] == order;
  }

  /** A vagga of the tree: one of the vagga table, or the `id=0` vagga made
      for the vagga-less suttas of a subdivision. */
  datatype VaggaRef = Real(id: int) | Null(subdivisionUid: string)

  /** The vagga a sutta ends up in. The vagga list of a subdivision is
      still empty of real vaggas while suttas are placed, so its first
      entry, when there is one, is the null vagga made for it. */
  function VaggaOf(s: Sutta): VaggaRef {
    if s.vagga.Some? then Real(s.vagga.value.id) else Null(s.subdivisionUid)
  }

  /** Every sutta's subdivision and real vagga were built. */
  predicate Placed(s: Sutta, vaggaIds: set<int>, subdivisions: set<string>) {
    s.subdivisionUid in subdivisions && (s.vagga.Some? ==> s.vagga.value.id in vaggaIds)
  }

  /** The vaggas of `sub` after the suttas are placed: its null vagga, if
      one of its suttas has no vagga. */
  function NullVaggas(order: seq<string>, suttas: map<string, Sutta>, sub: string): seq<VaggaRef>
    requires Known(order, suttas)
  {
    if Where(order, suttas, VaggaOf, Null(sub)) != [] then [Null(sub)] else []
  }

  /** Each subdivision's vagga list holds just its null vagga, if needed. */
  ghost predicate NullListed(done: seq<string>, suttas: map<string, Sutta>, subdivisions: set<string>,
                             subVaggas: map<string, seq<VaggaRef>>)
    requires Known(done, suttas)
  {
    subVaggas.Keys == subdivisions &&
    forall sub :: sub in subdivisions ==> subVaggas[sub] == NullVaggas(done, suttas, sub)
  }

  /** The vaggas are the real ones and the null ones some sutta needed. */
  ghost predicate VaggaKeys(done: seq<string>, suttas: map<string, Sutta>, vaggaIds: set<int>,
                            members: map<VaggaRef, seq<string>>)
    requires Known(done, suttas)
  {
    (forall v :: Real(v) in members <==> v in vaggaIds) &&
    (forall sub :: Null(sub) in members <==> Where(done, suttas, VaggaOf, Null(sub)) != [])
  }

  /** Each vagga holds the suttas of `done` that `VaggaOf` sends to it. */
  ghost predicate VaggaLists(done: seq<string>, suttas: map<string, Sutta>, members: map<VaggaRef, seq<string>>)
    requires Known(done, suttas)
  {
    forall r :: r in members ==> members[r] == Where(done, suttas, VaggaOf, r)
  }

  /** The vagga lists of the subdivisions and the sutta lists of the
      vaggas once the suttas of `done` are placed. */
  ghost predicate PlacedPrefix(done: seq<string>, suttas: map<string, Sutta>, vaggaIds: set<int>,
                               subdivisions: set<string>, subVaggas: map<string, seq<VaggaRef>>,
                               members: map<VaggaRef, seq<string>>)
    requires Known(done, suttas)
  {
    NullListed(done, suttas, subdivisions, subVaggas) && VaggaKeys(done, suttas, vaggaIds, members) &&
    VaggaLists(done, suttas, members)
  }

  lemma WhereSnoc<K>(done: seq<string>, u: string, suttas: map<string, Sutta>, key: Sutta -> K, k: K)
    requires Known(done, suttas) && u in suttas
    ensures Known(done + [u], suttas)
    ensures Where(done + [u], suttas, key, k) ==
            Where(done, suttas, key, k) + (if key(suttas[u]) == k then [u] else [])
  {
    assert (done + [u])[..|done|] == done;
  }

  /** The update of one placing step: `u` joins the vagga `VaggaOf` names,
      which is made (with an empty list) if it is a missing null vagga. */
  ghost predicate Placing(u: string, suttas: map<string, Sutta>, sv0: map<string, seq<VaggaRef>>,
                          m0: map<VaggaRef, seq<string>>, sv1: map<string, seq<VaggaRef>>,
                          m1: map<VaggaRef, seq<string>>)
    requires u in suttas
  {
    var v := VaggaOf(suttas[u]);
    var made := if v in m0 then m0 else m0[v := []];
    m1 == made[v := made[v] + [u]] &&
    sv1 == (if v.Null? && v.subdivisionUid in sv0 && sv0[v.subdivisionUid] == []
            then sv0[v.subdivisionUid := [v]] else sv0)
  }

  lemma NullListedStep(done: seq<string>, u: string, suttas: map<string, Sutta>, subdivisions: set<string>,
                       sv0: map<string, seq<VaggaRef>>, m0: map<VaggaRef, seq<string>>,
                       sv1: map<string, seq<VaggaRef>>, m1: map<VaggaRef, seq<string>>)
    requires Known(done, suttas) && u in suttas && suttas[u].subdivisionUid in subdivisions
    requires NullListed(done, suttas, subdivisions, sv0) && Placing(u, suttas, sv0, m0, sv1, m1)
    ensures Known(done + [u], suttas) && NullListed(done + [u], suttas, subdivisions, sv1)
  {
    WhereSnoc(done, u, suttas, VaggaOf, VaggaOf(suttas[u]));
    forall sub | sub in subdivisions ensures sv1[sub] == NullVaggas(done + [u], suttas, sub) {
      WhereSnoc(done, u, suttas, VaggaOf, Null(sub));
    }
  }

  lemma VaggaKeysStep(done: seq<string>, u: string, suttas: map<string, Sutta>, vaggaIds: set<int>,
                      subdivisions: set<string>,
                      sv0: map<string, seq<VaggaRef>>, m0: map<VaggaRef, seq<string>>,
                      sv1: map<string, seq<VaggaRef>>, m1: map<VaggaRef, seq<string>>)
    requires Known(done, suttas) && u in suttas && Placed(suttas[u], vaggaIds, subdivisions)
    requires VaggaKeys(done, suttas, vaggaIds, m0) && Placing(u, suttas, sv0, m0, sv1, m1)
    ensures Known(done + [u], suttas) && VaggaKeys(done + [u], suttas, vaggaIds, m1)
  {
    WhereSnoc(done, u, suttas, VaggaOf, VaggaOf(suttas[u]));
    forall sub ensures Null(sub) in m1 <==> Where(done + [u], suttas, VaggaOf, Null(sub)) != [] {
      WhereSnoc(done, u, suttas, VaggaOf, Null(sub));
    }
  }

  lemma VaggaListsStep(done: seq<string>, u: string, suttas: map<string, Sutta>, vaggaIds: set<int>,
                       subdivisions: set<string>,
                       sv0: map<string, seq<VaggaRef>>, m0: map<VaggaRef, seq<string>>,
                       sv1: map<string, seq<VaggaRef>>, m1: map<VaggaRef, seq<string>>)
    requires Known(done, suttas) && u in suttas && Placed(suttas[u], vaggaIds, subdivisions)
    requires VaggaKeys(done, suttas, vaggaIds, m0) && VaggaLists(done, suttas, m0)
    requires Placing(u, suttas, sv0, m0, sv1, m1)
    ensures Known(done + [u], suttas) && VaggaLists(done + [u], suttas, m1)
  {
    WhereSnoc(done, u, suttas, VaggaOf, VaggaOf(suttas[u]));
    forall r | r in m1 ensures m1[r] == Where(done + [u], suttas, VaggaOf, r) {
      WhereSnoc(done, u, suttas, VaggaOf, r);
    }
  }

  /** Placing one more sutta keeps the description. */
  lemma PlaceStep(done: seq<string>, u: string, suttas: map<string, Sutta>, vaggaIds: set<int>,
                  subdivisions: set<string>, sv0: map<string, seq<VaggaRef>>, m0: map<VaggaRef, seq<string>>,
                  sv1: map<string, seq<VaggaRef>>, m1: map<VaggaRef, seq<string>>)
    requires Known(done, suttas) && u in suttas && Placed(suttas[u], vaggaIds, subdivisions)
    requires PlacedPrefix(done, suttas, vaggaIds, subdivisions, sv0, m0)
    requires Placing(u, suttas, sv0, m0, sv1, m1)
    ensures Known(done + [u], suttas)
    ensures PlacedPrefix(done + [u], suttas, vaggaIds, subdivisions, sv1, m1)
  {
    NullListedStep(done, u, suttas, subdivisions, sv0, m0, sv1, m1);
    VaggaKeysStep(done, u, suttas, vaggaIds, subdivisions, sv0, m0, sv1, m1);
    VaggaListsStep(done, u, suttas, vaggaIds, subdivisions, sv0, m0, sv1, m1);
  }

  /** What one placing step reads of the state: a subdivision's vagga
      list is empty or just its null vagga, which exists exactly then, and
      every real vagga exists. */
  ghost predicate PlacingReady(suttas: map<string, Sutta>, vaggaIds: set<int>, subdivisions: set<string>,
                               subVaggas: map<string, seq<VaggaRef>>, members: map<VaggaRef, seq<string>>) {
    && subVaggas.Keys == subdivisions
    && (forall sub :: sub in subdivisions ==> subVaggas[sub] == [] || subVaggas[sub] == [Null(sub)])
    && (forall sub :: sub in subdivisions ==> (Null(sub) in members <==> subVaggas[sub] != []))
    && (forall v :: v in vaggaIds ==> Real(v) in members)
  }

  lemma PlacedPrefixReady(done: seq<string>, suttas: map<string, Sutta>, vaggaIds: set<int>,
                          subdivisions: set<string>, subVaggas: map<string, seq<VaggaRef>>,
                          members: map<VaggaRef, seq<string>>)
    requires Known(done, suttas) && PlacedPrefix(done, suttas, vaggaIds, subdivisions, subVaggas, members)
    ensures PlacingReady(suttas, vaggaIds, subdivisions, subVaggas, members)
  {
  }

  /** One pass of the loop: `u` is appended to its vagga's list; a sutta
      without a vagga takes its subdivision's first vagga, or makes the null
      vagga and appends it to the subdivision. Placed after `done`, the
      lists stay those of `done + [u]`. */
  method PlaceSutta(ghost done: seq<string>, u: string, suttas: map<string, Sutta>, vaggaIds: set<int>,
                    subdivisions: set<string>, subVaggas: map<string, seq<VaggaRef>>,
                    members: map<VaggaRef, seq<string>>)
    returns (subVaggas': map<string, seq<VaggaRef>>, members': map<VaggaRef, seq<string>>)
    requires u in suttas && Placed(suttas[u], vaggaIds, subdivisions) && Known(done, suttas)
    requires PlacedPrefix(done, suttas, vaggaIds, subdivisions, subVaggas, members)
    ensures Known(done + [u], suttas)
    ensures PlacedPrefix(done + [u], suttas, vaggaIds, subdivisions, subVaggas', members')
  {
    PlacedPrefixReady(done, suttas, vaggaIds, subdivisions, subVaggas, members);
    var s := suttas[u];
    subVaggas', members' := subVaggas, members;
    var v: VaggaRef;
    if s.vagga.None? {
      var sub := s.subdivisionUid;
      if subVaggas'[sub] != [] {
        v := subVaggas'[sub][0];
      } else {
        v := Null(sub);
        subVaggas' := subVaggas'[sub := [v]];
        members' := members'[v := []];
      }
    } else {
      v := Real(s.vagga.value.id);
    }
    members' := members'[v := members'[v] + [u]];
    PlaceStep(done, u, suttas, vaggaIds, subdivisions, subVaggas, members, subVaggas', members');
  }

  /** The placing invariant, restated over all vagga references. */
  lemma VaggaKeysMembers(done: seq<string>, suttas: map<string, Sutta>, vaggaIds: set<int>,
                         members: map<VaggaRef, seq<string>>)
    requires Known(done, suttas) && VaggaKeys(done, suttas, vaggaIds, members)
    ensures forall r :: r in members <==>
              (r.Real? && r.id in vaggaIds) || (r.Null? && Where(done, suttas, VaggaOf, r) != [])
  {
    forall r
      ensures r in members <==>
              (r.Real? && r.id in vaggaIds) || (r.Null? && Where(done, suttas, VaggaOf, r) != [])
    {
      if r.Real? {
        assert Real(r.id) in members <==> r.id in vaggaIds;
      } else {
        assert Null(r.subdivisionUid) in members <==> Where(done, suttas, VaggaOf, Null(r.subdivisionUid)) != [];
      }
    }
  }

  /** The loop that appends each sutta to `vagga.suttas`, in the global
      order. */
  method AttachToVaggas(order: seq<string>, suttas: map<string, Sutta>, vaggaIds: set<int>,
                        subdivisions: set<string>)
    returns (subVaggas: map<string, seq<VaggaRef>>, members: map<VaggaRef, seq<string>>)
    requires Known(order, suttas) && forall u :: u in order ==> Placed(suttas[u], vaggaIds, subdivisions)
    ensures subVaggas.Keys == subdivisions
    ensures forall sub :: sub in subdivisions ==> subVaggas[sub] == NullVaggas(order, suttas, sub)
    ensures forall r :: r in members <==>
              (r.Real? && r.id in vaggaIds) || (r.Null? && Where(order, suttas, VaggaOf, r) != [])
    ensures forall r :: r in members ==> members[r] == Where(order, suttas, VaggaOf, r)
  {
    subVaggas := map sub | sub in subdivisions :: [];
    members := map v | v in vaggaIds :: Real(v) := [];
    ghost var done: seq<string> := [];
    var i := 0;
    while i < |order|
      invariant 0 <= i <= |order| && done == order[..i]
      invariant Known(done, suttas)
      invariant PlacedPrefix(done, suttas, vaggaIds, subdivisions, subVaggas, members)
    {
      subVaggas, members := PlaceSutta(done, order[i], suttas, vaggaIds, subdivisions, subVaggas, members);
      done := done + [order[i]];
      TakeSnoc(order, i);
      i := i + 1;
    }
    assert order[..|order|] == order;
    VaggaKeysMembers(order, suttas, vaggaIds, members);
  }

  /** Every member of a vagga is a known sutta. */
  predicate MembersKnown(members: map<VaggaRef, seq<string>>, suttas: map<string, Sutta>) {
    forall r, j :: r in members && 0 <= j < |members[r]| ==> members[r][j] in suttas
  }

  /** The subdivision a real vagga is attached to: that of its first
      sutta, or its own when it has none. */
  function Home(v: int, vaggas: map<int, Vagga>, members: map<VaggaRef, seq<string>>,
                suttas: map<string, Sutta>): string
    requires v in vaggas && Real(v) in members && MembersKnown(members, suttas)
  {
    var ms := members[Real(v)];
    if ms != [] then suttas[ms[0]].subdivisionUid else vaggas[v].subdivisionUid
  }

  predicate Attachable(vs: seq<int>, vaggas: map<int, Vagga>, members: map<VaggaRef, seq<string>>) {
    forall v :: v in vs ==> v in vaggas && Real(v) in members
  }

  /** The real vaggas of `vs` whose home is `sub`, in order. */
  function HomedIn(vs: seq<int>, vaggas: map<int, Vagga>, members: map<VaggaRef, seq<string>>,
                   suttas: map<string, Sutta>, sub: string): (r: seq<VaggaRef>)
    requires Attachable(vs, vaggas, members) && MembersKnown(members, suttas)
    ensures forall i :: 0 <= i < |r| ==> r[i].Real?
    decreases |vs|
  {
    if vs == [] then []
    else
      var init := vs[..|vs| - 1];
      var v := vs[|vs| - 1];
      HomedIn(init, vaggas, members, suttas, sub) +
        (if Home(v, vaggas, members, suttas) == sub then [Real(v)] else [])
  }

  lemma HomedInSnoc(done: seq<int>, v: int, vaggas: map<int, Vagga>, members: map<VaggaRef, seq<string>>,
                    suttas: map<string, Sutta>, sub: string)
    requires Attachable(done, vaggas, members) && v in vaggas && Real(v) in members && MembersKnown(members, suttas)
    ensures Attachable(done + [v], vaggas, members)
    ensures HomedIn(done + [v], vaggas, members, suttas, sub) ==
            HomedIn(done, vaggas, members, suttas, sub) + (if Home(v, vaggas, members, suttas) == sub then [Real(v)] else [])
  {
    assert (done + [v])[..|done|] == done;
  }

  /** A real vagga is in the list of its home once, and in no other. */
  lemma {:induction false} HomedInCount(vs: seq<int>, vaggas: map<int, Vagga>, members: map<VaggaRef, seq<string>>,
                                        suttas: map<string, Sutta>, sub: string, v: int)
    requires Attachable(vs, vaggas, members) && MembersKnown(members, suttas) && Distinct(vs)
    ensures multiset(HomedIn(vs, vaggas, members, suttas, sub))[Real(v)] ==
            if v in vs && Home(v, vaggas, members, suttas) == sub then 1 else 0
    decreases |vs|
  {
    if vs != [] {
      var init := vs[..|vs| - 1];
      var last := vs[|vs| - 1];
      assert vs == init + [last];
      assert Attachable(init, vaggas, members) by {
        forall i | 0 <= i < |init| ensures init[i] == vs[i] { }
      }
      assert Distinct(init) by {
        forall i, j | 0 <= i < j < |init| ensures init[i] != init[j] {
          assert init[i] == vs[i] && init[j] == vs[j];
        }
      }
      forall j | 0 <= j < |init| ensures init[j] != last {
        assert init[j] == vs[j];
      }
      assert last !in init;
      HomedInCount(init, vaggas, members, suttas, sub, v);
      var tail := if Home(last, vaggas, members, suttas) == sub then [Real(last)] else [];
      assert multiset(HomedIn(vs, vaggas, members, suttas, sub)) ==
             multiset(HomedIn(init, vaggas, members, suttas, sub)) + multiset(tail);
      assert v in vs <==> v in init || v == last;
    }
  }

  /** One pass of the loop: vagga `v` is appended to the list of its home,
      the subdivision of its first sutta, or its own when it has none. */
  method AttachVagga(ghost done: seq<int>, v: int, vaggas: map<int, Vagga>, members: map<VaggaRef, seq<string>>,
                     suttas: map<string, Sutta>, subVaggas: map<string, seq<VaggaRef>>,
                     result: map<string, seq<VaggaRef>>)
    returns (result': map<string, seq<VaggaRef>>)
    requires Attachable(done, vaggas, members) && MembersKnown(members, suttas)
    requires v in vaggas && Real(v) in members && Home(v, vaggas, members, suttas) in subVaggas
    requires result.Keys == subVaggas.Keys
    requires forall sub :: sub in subVaggas ==>
               result[sub] == subVaggas[sub] + HomedIn(done, vaggas, members, suttas, sub)
    ensures Attachable(done + [v], vaggas, members) && result'.Keys == subVaggas.Keys
    ensures forall sub :: sub in subVaggas ==>
              result'[sub] == subVaggas[sub] + HomedIn(done + [v], vaggas, members, suttas, sub)
  {
    var ms := members[Real(v)];
    var home := if ms != [] then suttas[ms[0]].subdivisionUid else vaggas[v].subdivisionUid;
    assert home == Home(v, vaggas, members, suttas);
    result' := result[home := result[home] + [Real(v)]];
    forall sub | sub in subVaggas
      ensures result'[sub] == subVaggas[sub] + HomedIn(done + [v], vaggas, members, suttas, sub)
    {
      AttachVaggaAt(done, v, vaggas, members, suttas, subVaggas[sub], result[sub], result'[sub], sub, home);
    }
  }

  /** The list of one subdivision after vagga `v` is attached to `home`. */
  lemma AttachVaggaAt(done: seq<int>, v: int, vaggas: map<int, Vagga>, members: map<VaggaRef, seq<string>>,
                      suttas: map<string, Sutta>, before: seq<VaggaRef>, now: seq<VaggaRef>,
                      next: seq<VaggaRef>, sub: string, home: string)
    requires Attachable(done, vaggas, members) && MembersKnown(members, suttas)
    requires v in vaggas && Real(v) in members && home == Home(v, vaggas, members, suttas)
    requires now == before + HomedIn(done, vaggas, members, suttas, sub)
    requires next == if sub == home then now + [Real(v)] else now
    ensures next == before + HomedIn(done + [v], vaggas, members, suttas, sub)
  {
    HomedInSnoc(done, v, vaggas, members, suttas, sub);
    if sub == home {
      SnocAssoc(before, HomedIn(done, vaggas, members, suttas, sub), Real(v));
    } else {
      SnocNone(HomedIn(done, vaggas, members, suttas, sub));
    }
  }

  lemma SnocAssoc<X>(a: seq<X>, b: seq<X>, x: X)
    ensures (a + b) + [x] == a + (b + [x])
  {
  }

  lemma SnocNone<X>(a: seq<X>)
    ensures a + [] == a
  {
  }

  /** "Attach vaggas to subdivisions": each vagga of the table, in order,
      is appended to the vagga list of its home. A vagga whose first sutta
      lies in another subdivision than its own is only reported. */
  method AttachVaggas(vaggaOrder: seq<int>, vaggas: map<int, Vagga>, members: map<VaggaRef, seq<string>>,
                      suttas: map<string, Sutta>, subVaggas: map<string, seq<VaggaRef>>)
    returns (result: map<string, seq<VaggaRef>>)
    requires Attachable(vaggaOrder, vaggas, members) && MembersKnown(members, suttas)
    requires forall v :: v in vaggaOrder ==> Home(v, vaggas, members, suttas) in subVaggas
    ensures result.Keys == subVaggas.Keys
    ensures forall sub :: sub in subVaggas ==>
              result[sub] == subVaggas[sub] + HomedIn(vaggaOrder, vaggas, members, suttas, sub)
  {
    result := subVaggas;
    ghost var done: seq<int> := [];
    var i := 0;
    while i < |vaggaOrder|
      invariant 0 <= i <= |vaggaOrder| && done == vaggaOrder[..i]
      invariant Attachable(done, vaggas, members)
      invariant result.Keys == subVaggas.Keys
      invariant forall sub :: sub in subVaggas ==>
                  result[sub] == subVaggas[sub] + HomedIn(done, vaggas, members, suttas, sub)
    {
      var v := vaggaOrder[i];
      assert v in vaggaOrder;
      result := AttachVagga(done, v, vaggas, members, suttas, subVaggas, result);
      done := done + [v];
      TakeSnoc(vaggaOrder, i);
      i := i + 1;
    }
    assert vaggaOrder[..|vaggaOrder|] == vaggaOrder;
  }

  /** After both loops, a sutta of the global order is in exactly one
      vagga's list, once: the one `VaggaOf` names. */
  lemma SuttaInOneVagga(order: seq<string>, suttas: map<string, Sutta>, u: string, r: VaggaRef)
    requires Known(order, suttas)
    requires Distinct(order) && u in order
    ensures multiset(Where(order, suttas, VaggaOf, r))[u] == if r == VaggaOf(suttas[u]) then 1 else 0
  {
    WhereCount(order, suttas, VaggaOf, r, u);
  }

  /** A subdivision's final vagga list holds its null vagga (first) only when
      one of its suttas has no vagga, and each real vagga exactly once, in
      the list of its home, and nowhere else. */
  lemma VaggaInOneSubdivision(order: seq<string>, suttas: map<string, Sutta>, vaggaOrder: seq<int>,
                              vaggas: map<int, Vagga>, members: map<VaggaRef, seq<string>>, sub: string, v: int)
    requires Known(order, suttas)
    requires Attachable(vaggaOrder, vaggas, members) && MembersKnown(members, suttas) && Distinct(vaggaOrder)
    ensures var l := NullVaggas(order, suttas, sub) + HomedIn(vaggaOrder, vaggas, members, suttas, sub);
            multiset(l)[Real(v)] == (if v in vaggaOrder && Home(v, vaggas, members, suttas) == sub then 1 else 0) &&
            (Null(sub) in l <==> Where(order, suttas, VaggaOf, Null(sub)) != []) &&
            (Null(sub) in l ==> l[0] == Null(sub))
  {
    var h := HomedIn(vaggaOrder, vaggas, members, suttas, sub);
    HomedInCount(vaggaOrder, vaggas, members, suttas, sub, v);
    assert Null(sub) !in h;
    assert multiset(NullVaggas(order, suttas, sub) + h) == multiset(NullVaggas(order, suttas, sub)) + multiset(h);
  }

  /** A sutta of the global order is in its own subdivision's list, once,
      and in no other. */
  lemma SuttaInOneSubdivision(order: seq<string>, suttas: map<string, Sutta>, u: string, sub: string)
    requires Known(order, suttas)
    requires Distinct(order) && u in order
    ensures multiset(Where(order, suttas, SubdivisionOf, sub))[u] ==
            if sub == suttas[u].subdivisionUid then 1 else 0
  {
    WhereCount(order, suttas, SubdivisionOf, sub, u);
  }

  // The whole of `build_suttas` below the top-level tables

  /** The vagga table is keyed by id, and each vagga's subdivision was
      built (`self.subdivisions[...]` raises `KeyError` otherwise). */
  predicate VaggasWellFormed(t: Tables) {
    forall k :: k in t.vaggas ==> t.vaggas[k].id == k && t.vaggas[k].subdivisionUid in t.subdivisions
  }

  predicate AllResolvable(rows: seq<SuttaRow>, t: Tables) {
    forall i :: 0 <= i < |rows| ==> Resolvable(rows[i], t)
  }

  /** The `(uid, sutta)` pairs of the rows, in table order. */
  function Resolved(rows: seq<SuttaRow>, t: Tables): (r: seq<(string, Sutta)>)
    requires AllResolvable(rows, t)
    ensures |r| == |rows|
    ensures forall i :: 0 <= i < |rows| ==> r[i] == (rows[i].uid, ResolvedSutta(rows[i], t))
  {
    seq(|rows|, i requires 0 <= i < |rows| => (rows[i].uid, ResolvedSutta(rows[i], t)))
  }

  /** The problems logged for the rows, in table order. */
  function AllProblems(rows: seq<SuttaRow>, t: Tables): seq<Problem>
    decreases |rows|
  {
    if rows == [] then []
    else AllProblems(rows[..|rows| - 1], t) + Problems(rows[|rows| - 1], t)
  }

  /** The loop over `db.sutta.values()`: a pair per row, and the problems
      logged on the way. */
  method ResolveAll(rows: seq<SuttaRow>, t: Tables) returns (pairs: seq<(string, Sutta)>, problems: seq<Problem>)
    requires AllResolvable(rows, t)
    ensures pairs == Resolved(rows, t)
    ensures problems == AllProblems(rows, t)
  {
    pairs, problems := [], [];
    var i := 0;
    while i < |rows|
      invariant 0 <= i <= |rows|
      invariant pairs == Resolved(rows[..i], t)
      invariant problems == AllProblems(rows[..i], t)
    {
      var row := rows[i];
      assert rows[..i + 1][..i] == rows[..i];
      pairs := pairs + [(row.uid, ResolvedSutta(row, t))];
      problems := problems + Problems(row, t);
      i := i + 1;
    }
    assert rows[..|rows|] == rows;
  }

  /** Each entry of `OrderedDict(pairs)` is one of the pairs. */
  lemma {:induction false} OrderedDictValues(pairs: seq<(string, Sutta)>, u: string)
    requires u in OrderedDictOf(pairs).1
    ensures (u, OrderedDictOf(pairs).1[u]) in pairs
    decreases |pairs|
  {
    var init := pairs[..|pairs| - 1];
    var last := pairs[|pairs| - 1];
    if last.0 != u {
      OrderedDictValues(init, u);
      assert (u, OrderedDictOf(init).1[u]) in init;
    } else {
      assert last in pairs;
    }
  }

  /** A resolved sutta's subdivision and real vagga were built. */
  lemma ResolvedPlaced(row: SuttaRow, t: Tables)
    requires Resolvable(row, t) && VaggasWellFormed(t)
    ensures Placed(ResolvedSutta(row, t), t.vaggas.Keys, t.subdivisions)
  {
    var s := ResolvedSutta(row, t);
    if s.vagga.Some? {
      var k := row.vaggaId.value;
      assert s.vagga.value == t.vaggas[k];
    }
  }

  lemma InMultiset<X>(x: X, a: seq<X>, b: seq<X>)
    requires x in a && multiset(a) == multiset(b)
    ensures x in b
  {
    assert x in multiset(a);
  }

  /** Every sutta of the dictionary was resolved from some row, so its
      subdivision and its real vagga were built. */
  lemma PlacedAll(rows: seq<SuttaRow>, t: Tables, u: string)
    requires AllResolvable(rows, t) && VaggasWellFormed(t)
    requires u in OrderedDictOf(OrderPairs(Resolved(rows, t))).1
    ensures Placed(OrderedDictOf(OrderPairs(Resolved(rows, t))).1[u], t.vaggas.Keys, t.subdivisions)
  {
    var r := Resolved(rows, t);
    var p := OrderPairs(r);
    var s := OrderedDictOf(p).1[u];
    OrderedDictValues(p, u);
    OrderPairsSorted(r);
    InMultiset((u, s), p, r);
    var i :| 0 <= i < |r| && r[i] == (u, s);
    ResolvedPlaced(rows[i], t);
  }

  /** The members of a filter are uids of the order. */
  lemma {:induction false} WhereIn<K>(order: seq<string>, suttas: map<string, Sutta>, key: Sutta -> K, k: K, u: string)
    requires Known(order, suttas) && u in Where(order, suttas, key, k)
    ensures u in order
    decreases |order|
  {
    var init := order[..|order| - 1];
    if u in Where(init, suttas, key, k) {
      WhereIn(init, suttas, key, k, u);
      assert u in init;
    }
  }

  /** The tree below the subdivisions, as `build_suttas` leaves it for the
      global order `order` and the sutta table `suttas`: each subdivision's
      sutta list is the order restricted to it; there is a sutta list for
      every real vagga and for every null vagga some sutta falls into, each
      the order restricted to that vagga; and each subdivision's vagga list
      is its null vaggas followed by the real vaggas whose home it is, in the
      order of `vaggaOrder`. */
  ghost predicate Tree(t: Tables, vaggaOrder: seq<int>, order: seq<string>, suttas: map<string, Sutta>,
                       subSuttas: map<string, seq<string>>, subVaggas: map<string, seq<VaggaRef>>,
                       members: map<VaggaRef, seq<string>>) {
    && Known(order, suttas)
    && subSuttas.Keys == t.subdivisions
    && (forall sub :: sub in t.subdivisions ==> subSuttas[sub] == Where(order, suttas, SubdivisionOf, sub))
    && (forall r :: r in members <==>
          (r.Real? && r.id in t.vaggas) || (r.Null? && Where(order, suttas, VaggaOf, r) != []))
    && (forall r :: r in members ==> members[r] == Where(order, suttas, VaggaOf, r))
    && Attachable(vaggaOrder, t.vaggas, members) && MembersKnown(members, suttas)
    && subVaggas.Keys == t.subdivisions
    && (forall sub :: sub in t.subdivisions ==>
          subVaggas[sub] == NullVaggas(order, suttas, sub) + HomedIn(vaggaOrder, t.vaggas, members, suttas, sub))
    && VaggaKeyOrder(vaggaOrder, t.vaggas)
    && ListedOnce(t, suttas, subVaggas, members)
  }

  /** `self.vaggas.values()`: the order lists each key of the vagga table
      once, and nothing else. */
  ghost predicate VaggaKeyOrder(vaggaOrder: seq<int>, vaggas: map<int, Vagga>) {
    Distinct(vaggaOrder) && forall v :: v in vaggas <==> v in vaggaOrder
  }

  /** Every real vagga is in exactly one subdivision's vagga list, once:
      that of its home. */
  ghost predicate ListedOnce(t: Tables, suttas: map<string, Sutta>, subVaggas: map<string, seq<VaggaRef>>,
                             members: map<VaggaRef, seq<string>>) {
    && subVaggas.Keys == t.subdivisions
    && (forall v :: v in t.vaggas ==> Real(v) in members)
    && MembersKnown(members, suttas)
    && (forall v :: v in t.vaggas ==> Home(v, t.vaggas, members, suttas) in t.subdivisions)
    && (forall sub, v :: sub in t.subdivisions && v in t.vaggas ==>
          multiset(subVaggas[sub])[Real(v)] == if Home(v, t.vaggas, members, suttas) == sub then 1 else 0)
  }

  /** `build_suttas` from the sutta rows on, for given top-level tables:
      the global order and the dictionary of suttas, the subdivisions'
      sutta lists, the vaggas' sutta lists and the subdivisions' vagga
      lists, as the steps above describe them. */
  method BuildTree(rows: seq<SuttaRow>, t: Tables, vaggaOrder: seq<int>)
    returns (order: seq<string>, suttas: map<string, Sutta>, subSuttas: map<string, seq<string>>,
             subVaggas: map<string, seq<VaggaRef>>, members: map<VaggaRef, seq<string>>,
             problems: seq<Problem>)
    requires AllResolvable(rows, t) && VaggasWellFormed(t) && VaggaKeyOrder(vaggaOrder, t.vaggas)
    ensures (order, suttas) == OrderedDictOf(OrderPairs(Resolved(rows, t)))
    ensures problems == AllProblems(rows, t)
    ensures Known(order, suttas)
    ensures subSuttas.Keys == t.subdivisions
    ensures forall sub :: sub in t.subdivisions ==> subSuttas[sub] == Where(order, suttas, SubdivisionOf, sub)
    ensures forall r :: r in members <==>
              (r.Real? && r.id in t.vaggas) || (r.Null? && Where(order, suttas, VaggaOf, r) != [])
    ensures forall r :: r in members ==> members[r] == Where(order, suttas, VaggaOf, r)
    ensures Attachable(vaggaOrder, t.vaggas, members) && MembersKnown(members, suttas)
    ensures subVaggas.Keys == t.subdivisions
    ensures forall sub :: sub in t.subdivisions ==>
              subVaggas[sub] == NullVaggas(order, suttas, sub) + HomedIn(vaggaOrder, t.vaggas, members, suttas, sub)
    ensures ListedOnce(t, suttas, subVaggas, members)
  {
    var pairs;
    pairs, problems := ResolveAll(rows, t);
    var d := OrderedDictOf(OrderPairs(pairs));
    order, suttas := d.0, d.1;
    forall u | u in order ensures Placed(suttas[u], t.vaggas.Keys, t.subdivisions) {
      PlacedAll(rows, t, u);
    }
    subSuttas := FillSubdivisions(order, suttas, t.subdivisions);
    var nullVaggas;
    nullVaggas, members := AttachToVaggas(order, suttas, t.vaggas.Keys, t.subdivisions);
    forall r, j | r in members && 0 <= j < |members[r]| ensures members[r][j] in suttas {
      WhereIn(order, suttas, VaggaOf, r, members[r][j]);
    }
    forall v | v in vaggaOrder ensures Home(v, t.vaggas, members, suttas) in nullVaggas {
      var ms := members[Real(v)];
      if ms != [] {
        assert ms[0] in order by { WhereIn(order, suttas, VaggaOf, Real(v), ms[0]); }
      }
    }
    subVaggas := AttachVaggas(vaggaOrder, t.vaggas, members, suttas, nullVaggas);
    forall sub, v | sub in t.subdivisions && v in t.vaggas
      ensures multiset(subVaggas[sub])[Real(v)] == if Home(v, t.vaggas, members, suttas) == sub then 1 else 0
    {
      VaggaInOneSubdivision(order, suttas, vaggaOrder, t.vaggas, members, sub, v);
    }
  }
}
