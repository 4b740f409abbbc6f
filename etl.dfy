/** What utility/dbredo.py and utility/mysql_to_csv.py have in common: the
    field values of the CSV rows they write, the language-uid fix-up, the
    `//` join of alternative acronyms and volpages, the vagga uids, the
    ordered vagga table and the assembly of the language table. The files
    themselves are not part of this model: a table is the sequence of its
    rows, and a row the sequence of its field values. */
module Etl {
  import opened Wrappers
  import opened Strings
  import opened PyValue
  import opened Entities
  import Sorting

  /** A value the CSV writer is given: a string, an int or `None`. */
  datatype Field = S(s: string) | N(n: int) | Null

  function OptField(o: Option<string>): Field
  {
    if o.Some? then S(o.value) else Null
  }

  /** `fix_lang_uid(uid)`. The second test is `uid in ('ot')`, and `('ot')`
      is the string `"ot"`, not a tuple: the test is a substring test. */
  function FixLangUid(uid: string): string
  {
    if uid == "sa" || uid == "sk" then "skt"
    else if Contains("ot", uid) then "oth"
    else uid
  }

  /** The substrings of `"ot"`. */
  lemma OtSubstrings(u: string)
    ensures Contains("ot", u) <==> u == "" || u == "o" || u == "t" || u == "ot"
  {
    if u == "" || u == "o" || u == "ot" {
      assert OccursAt("ot", u, 0);
    } else if u == "t" {
      assert OccursAt("ot", u, 1);
    }
    if Contains("ot", u) {
      var i :| 0 <= i <= 2 - |u| && OccursAt("ot", u, i);
      assert u == "ot"[i..i + |u|];
    }
  }

  /** Which codes become `skt` and `oth`: besides `sa` and `sk`, every
      substring of `ot`, the empty code included, becomes `oth`; every
      other code is kept. */
  lemma FixLangUidMeaning(u: string)
    ensures FixLangUid(u) == "skt" <==> u == "sa" || u == "sk" || u == "skt"
    ensures FixLangUid(u) == "oth" <==> u == "" || u == "o" || u == "t" || u == "ot" || u == "oth"
    ensures FixLangUid(u) == u || FixLangUid(u) == "skt" || FixLangUid(u) == "oth"
  {
    OtSubstrings(u);
    OtSubstrings("skt");
    OtSubstrings("oth");
  }

  /** Fixing a fixed code changes nothing. */
  lemma FixLangUidIdempotent(u: string)
    ensures FixLangUid(FixLangUid(u)) == FixLangUid(u)
  {
    FixLangUidMeaning(u);
    OtSubstrings("skt");
    OtSubstrings("oth");
    OtSubstrings(u);
  }

  /** `x` or `x + '//' + alt` when `alt` is truthy: the main value always
      comes first, and the alternative can be read back after the `//`. */
  function AltJoin(main: string, alt: Option<string>): (r: string)
    ensures StartsWith(r, main)
    ensures Truthy(alt) <==> |r| > |main|
    ensures Truthy(alt) ==> |r| == |main| + 2 + |alt.value|
    ensures Truthy(alt) ==> r[|main|..|main| + 2] == "//" && r[|main| + 2..] == alt.value
  {
    if Truthy(alt) then main + "//" + alt.value else main
  }

  /** The key of the vagga table: `'{}/{}'.format(subd, vagga_number)`. */
  function VaggaKey(subd: string, vaggaNumber: int): string
  {
    subd + "/" + IntToString(vaggaNumber)
  }

  /** `str()` of an optional int. */
  function OptIntString(o: Option<int>): string
  {
    if o.Some? then IntToString(o.value) else "None"
  }

  /** The vagga field of a sutta row: the vagga key, a slash, and the number
      in the vagga (`None` printed as such). */
  function VaggaField(subd: string, vaggaNumber: int, numberInVagga: Option<int>): (r: string)
    ensures StartsWith(r, VaggaKey(subd, vaggaNumber) + "/")
  {
    VaggaKey(subd, vaggaNumber) + "/" + OptIntString(numberInVagga)
  }

  /** `1 if ind == 'Y' else None`. */
  function YFlag(ind: Option<string>): (r: Field)
    ensures r == N(1) <==> ind == Some("Y")
    ensures r != N(1) ==> r == Null
  {
    if ind == Some("Y") then N(1) else Null
  }

  /** `collection_uids`: the uid of each collection id. */
  const CollectionUids: map<int, string> :=
    map[1 := "pi.su", 2 := "pi.vi", 3 := "pi.ab", 4 := "zh.su", 5 := "zh.vi", 6 := "zh.ab",
        7 := "bo.su", 8 := "skt.su", 9 := "prk", 10 := "gandh", 11 := "khot", 12 := "uigh"]

  /** `od[k] = v` on an `OrderedDict` held as its items in order: a new key
      goes to the end, an old one keeps its place. */
  function Put<V>(od: seq<(string, V)>, k: string, v: V): seq<(string, V)>
  {
    if exists i :: 0 <= i < |od| && od[i].0 == k then
      seq(|od|, i requires 0 <= i < |od| => if od[i].0 == k then (k, v) else od[i])
    else od + [(k, v)]
  }

  ghost predicate DistinctKeys<V>(od: seq<(string, V)>) {
    forall i, j :: 0 <= i < j < |od| ==> od[i].0 != od[j].0
  }

  /** Putting keeps the keys distinct and in place; afterwards `k` maps to
      `v` and every other key to what it mapped to before. */
  lemma PutMeaning<V>(od: seq<(string, V)>, k: string, v: V)
    requires DistinctKeys(od)
    ensures var r := Put(od, k, v);
            && DistinctKeys(r)
            && (forall i :: 0 <= i < |od| ==> r[i].0 == od[i].0)
            && (exists i :: 0 <= i < |r| && r[i] == (k, v))
            && (forall i :: 0 <= i < |r| && r[i].0 != k ==> i < |od| && r[i] == od[i])
            && (|r| == |od| <==> exists i :: 0 <= i < |od| && od[i].0 == k)
  {
    var r := Put(od, k, v);
    if exists i :: 0 <= i < |od| && od[i].0 == k {
      var i :| 0 <= i < |od| && od[i].0 == k;
      assert r[i] == (k, v);
    } else {
      assert r[|od|] == (k, v);
    }
  }

  /** A row of the language table: uid, iso code, name, the root flag (1
      or `None`) and the columns one of the scripts adds after them. */
  datatype LangRow = LangRow(uid: string, isoCode: string, name: string, root: bool, extra: seq<Field>)

  function LangFields(r: LangRow): seq<Field>
  {
    [S(r.uid), S(r.isoCode), S(r.name), if r.root then N(1) else Null] + r.extra
  }

  /** A key of `dbr.collection_languages` or `dbr.reference_languages`:
      the tables are keyed both by id and by code. */
  datatype LangKey = IdKey(id: int) | CodeKey(code: string)

  type LangItems = seq<(LangKey, Language)>

  predicate Kept(k: LangKey, skipIdKeys: bool) { !(skipIdKeys && k.IdKey?) }

  /** The rows of the collection languages, in table order. */
  function CollRows(items: LangItems, skipIdKeys: bool, extra: string -> seq<Field>): seq<LangRow>
  {
    if items == [] then [] else
      var init := CollRows(items[..|items| - 1], skipIdKeys, extra);
      var (k, lang) := items[|items| - 1];
      if Kept(k, skipIdKeys) then
        var uid := FixLangUid(lang.code);
        init + [LangRow(uid, lang.code, lang.name, true, extra(uid))]
      else init
  }

  /** `seen`: the fixed uids of the collection languages. */
  function SeenUids(items: LangItems, skipIdKeys: bool): set<string>
  {
    if items == [] then {} else
      var init := SeenUids(items[..|items| - 1], skipIdKeys);
      var (k, lang) := items[|items| - 1];
      if Kept(k, skipIdKeys) then init + {FixLangUid(lang.code)} else init
  }

  /** The uid of a reference language: its fixed code, with an `m` in
      front when a collection language already has that uid. */
  function RefUid(code: string, seen: set<string>): string
  {
    var uid := FixLangUid(code);
    if uid in seen then "m" + uid else uid
  }

  /** The rows of the reference languages some translation uses. */
  function RefRows(items: LangItems, skipIdKeys: bool, used: set<string>, seen: set<string>,
                   extra: string -> seq<Field>): seq<LangRow>
  {
    if items == [] then [] else
      var init := RefRows(items[..|items| - 1], skipIdKeys, used, seen, extra);
      var (k, lang) := items[|items| - 1];
      if Kept(k, skipIdKeys) && lang.code in used then
        var uid := RefUid(lang.code, seen);
        init + [LangRow(uid, lang.code, lang.name, false, extra(uid))]
      else init
  }

  /** The sort key `(t[1], not t[3])`. */
  function LangSortKey(r: LangRow): Value
  {
    List([Str(r.isoCode), Bool(!r.root)])
  }

  lemma LangSortKeyOrder(a: LangRow, b: LangRow)
    ensures Comparable(LangSortKey(a), LangSortKey(b))
    ensures !Lt(LangSortKey(b), LangSortKey(a)) ==>
              !StrLess(b.isoCode, a.isoCode) && (a.isoCode == b.isoCode && b.root ==> a.root)
  {
    var xs, ys := LangSortKey(a).items, LangSortKey(b).items;
    assert xs[1..] == [Bool(!a.root)] && ys[1..] == [Bool(!b.root)];
    assert xs[1..][1..] == [] && ys[1..][1..] == [];
    assert Less(LangSortKey(b), LangSortKey(a)) == ListLess(ys, xs);
    assert Less(LangSortKey(a), LangSortKey(b)) == ListLess(xs, ys);
    if a.isoCode == b.isoCode {
      StrLessIrreflexive(a.isoCode);
      assert ListLess(ys, xs) == ListLess(ys[1..], xs[1..]);
      assert ListLess(xs, ys) == ListLess(xs[1..], ys[1..]);
      if a.root != b.root {
        assert ListLess(ys[1..], xs[1..]) == Less(ys[1], xs[1]);
        assert ListLess(xs[1..], ys[1..]) == Less(xs[1], ys[1]);
      } else {
        assert ListLess(xs[1..], ys[1..]) == ListLess(xs[1..][1..], ys[1..][1..]);
        assert ListLess(ys[1..], xs[1..]) == ListLess(ys[1..][1..], xs[1..][1..]);
      }
    } else {
      assert ListLess(ys, xs) == Some(StrLess(b.isoCode, a.isoCode));
      assert ListLess(xs, ys) == Some(StrLess(a.isoCode, b.isoCode));
    }
  }

  lemma LangKeysComparable(s: seq<LangRow>)
    ensures Sorting.KeysComparable(s, LangSortKey)
  {
    forall x, y | x in s && y in s ensures Comparable(LangSortKey(x), LangSortKey(y)) {
      LangSortKeyOrder(x, y);
    }
  }

  /** The language table: the collection languages, then the reference
      languages in use, sorted by iso code with a root row first. */
  function Languages(coll: LangItems, refs: LangItems, used: set<string>, skipIdKeys: bool,
                     extra: string -> seq<Field>): seq<LangRow>
  {
    Sorting.SortBy(CollRows(coll, skipIdKeys, extra) +
                   RefRows(refs, skipIdKeys, used, SeenUids(coll, skipIdKeys), extra), LangSortKey)
  }

  /** The language table is ordered by iso code and, within one code, has
      its root rows before the others; it holds the same rows as the two
      loops produced. */
  lemma LanguagesSorted(coll: LangItems, refs: LangItems, used: set<string>, skipIdKeys: bool,
                        extra: string -> seq<Field>)
    ensures var rows := Languages(coll, refs, used, skipIdKeys, extra);
            && multiset(rows) == multiset(CollRows(coll, skipIdKeys, extra) +
                                          RefRows(refs, skipIdKeys, used, SeenUids(coll, skipIdKeys), extra))
            && (forall i, j :: 0 <= i < j < |rows| ==> !StrLess(rows[j].isoCode, rows[i].isoCode))
            && (forall i, j :: 0 <= i < j < |rows| && rows[i].isoCode == rows[j].isoCode && rows[j].root ==>
                  rows[i].root)
  {
    var unsorted := CollRows(coll, skipIdKeys, extra) +
                    RefRows(refs, skipIdKeys, used, SeenUids(coll, skipIdKeys), extra);
    LangKeysComparable(unsorted);
    Sorting.SortBySorted(unsorted, LangSortKey);
    var rows := Sorting.SortBy(unsorted, LangSortKey);
    forall i, j | 0 <= i < j < |rows|
      ensures !StrLess(rows[j].isoCode, rows[i].isoCode)
      ensures rows[i].isoCode == rows[j].isoCode && rows[j].root ==> rows[i].root
    {
      LangSortKeyOrder(rows[i], rows[j]);
    }
  }

  /** Every collection-language row is a root row whose uid is its fixed
      code, one of the `seen` uids. */
  lemma {:induction false} CollRowsMeaning(items: LangItems, skipIdKeys: bool, extra: string -> seq<Field>, r: LangRow)
    requires r in CollRows(items, skipIdKeys, extra)
    ensures r.root && r.uid == FixLangUid(r.isoCode) && r.uid in SeenUids(items, skipIdKeys)
    ensures r.extra == extra(r.uid)
    ensures exists i :: 0 <= i < |items| && Kept(items[i].0, skipIdKeys) &&
                        items[i].1.code == r.isoCode && items[i].1.name == r.name
    decreases |items|
  {
    var init := items[..|items| - 1];
    var (k, lang) := items[|items| - 1];
    if r in CollRows(init, skipIdKeys, extra) {
      CollRowsMeaning(init, skipIdKeys, extra, r);
      var i :| 0 <= i < |init| && Kept(init[i].0, skipIdKeys) &&
               init[i].1.code == r.isoCode && init[i].1.name == r.name;
      assert items[i] == init[i];
    } else {
      var n := |items| - 1;
      assert Kept(items[n].0, skipIdKeys) && items[n].1.code == r.isoCode && items[n].1.name == r.name;
    }
  }

  /** Every reference-language row is a non-root row for a language some
      translation uses; its uid is the fixed code, or that with an `m` in
      front exactly when a collection language has the fixed code. */
  lemma {:induction false} RefRowsMeaning(items: LangItems, skipIdKeys: bool, used: set<string>, seen: set<string>,
                                          extra: string -> seq<Field>, r: LangRow)
    requires r in RefRows(items, skipIdKeys, used, seen, extra)
    ensures !r.root && r.isoCode in used && r.extra == extra(r.uid)
    ensures FixLangUid(r.isoCode) in seen ==> r.uid == "m" + FixLangUid(r.isoCode)
    ensures FixLangUid(r.isoCode) !in seen ==> r.uid == FixLangUid(r.isoCode)
    ensures exists i :: 0 <= i < |items| && Kept(items[i].0, skipIdKeys) &&
                        items[i].1.code == r.isoCode && items[i].1.name == r.name
    decreases |items|
  {
    var init := items[..|items| - 1];
    var (k, lang) := items[|items| - 1];
    if r in RefRows(init, skipIdKeys, used, seen, extra) {
      RefRowsMeaning(init, skipIdKeys, used, seen, extra, r);
      var i :| 0 <= i < |init| && Kept(init[i].0, skipIdKeys) &&
               init[i].1.code == r.isoCode && init[i].1.name == r.name;
      assert items[i] == init[i];
    } else {
      var n := |items| - 1;
      assert Kept(items[n].0, skipIdKeys) && items[n].1.code == r.isoCode && items[n].1.name == r.name;
    }
  }

  /** Every kept reference language that is in use has its row. */
  lemma {:induction false} RefRowsComplete(items: LangItems, skipIdKeys: bool, used: set<string>, seen: set<string>,
                                           extra: string -> seq<Field>, i: int)
    requires 0 <= i < |items| && Kept(items[i].0, skipIdKeys) && items[i].1.code in used
    ensures var uid := RefUid(items[i].1.code, seen);
            LangRow(uid, items[i].1.code, items[i].1.name, false, extra(uid)) in RefRows(items, skipIdKeys, used, seen, extra)
    decreases |items|
  {
    var init := items[..|items| - 1];
    if i < |items| - 1 {
      assert init[i] == items[i];
      RefRowsComplete(init, skipIdKeys, used, seen, extra, i);
    }
  }

  lemma TakeSnoc<X>(s: seq<X>, i: int)
    requires 0 <= i < |s|
    ensures s[..i + 1][..i] == s[..i] && s[..i + 1][i] == s[i]
  {
  }

  /** The two loops of the language table and its sort. */
  method AssembleLanguages(coll: LangItems, refs: LangItems, used: set<string>, skipIdKeys: bool,
                           extra: string -> seq<Field>) returns (rows: seq<LangRow>)
    ensures rows == Languages(coll, refs, used, skipIdKeys, extra)
  {
    var languages: seq<LangRow> := [];
    var seen: set<string> := {};
    for i := 0 to |coll|
      invariant languages == CollRows(coll[..i], skipIdKeys, extra)
      invariant seen == SeenUids(coll[..i], skipIdKeys)
    {
      TakeSnoc(coll, i);
      var (key, lang) := coll[i];
      if Kept(key, skipIdKeys) {
        var uid := FixLangUid(lang.code);
        seen := seen + {uid};
        languages := languages + [LangRow(uid, lang.code, lang.name, true, extra(uid))];
      }
    }
    assert coll[..|coll|] == coll;
    ghost var collRows := languages;
    for j := 0 to |refs|
      invariant languages == collRows + RefRows(refs[..j], skipIdKeys, used, seen, extra)
    {
      TakeSnoc(refs, j);
      var (key, lang) := refs[j];
      if Kept(key, skipIdKeys) && lang.code in used {
        var uid := FixLangUid(lang.code);
        if uid in seen {
          uid := "m" + uid;
        }
        languages := languages + [LangRow(uid, lang.code, lang.name, false, extra(uid))];
      }
    }
    assert refs[..|refs|] == refs;
    rows := Sorting.SortBy(languages, LangSortKey);
  }

  /** `references.append(...)` of a sutta's own text: uid, language code,
      url info and url. */
  function SuttaReference(s: Sutta): seq<Field>
    requires s.lang.Some? && s.url.Some?
  {
    [S(s.uid), S(s.lang.value.code), OptField(s.urlInfo), S(s.url.value)]
  }

  /** The reference row of a translation: uid, language code, abstract and
      url. */
  function TranslationReference(uid: string, t: Translation): seq<Field>
  {
    [S(uid), S(t.lang.code), OptField(t.abstractText), S(t.url)]
  }

  /** The biblio rows of a sutta: one when it has a biblio entry. */
  function BiblioRows(s: Sutta): seq<seq<Field>>
  {
    if s.biblioEntry.Some? then [[S(s.uid), S(s.biblioEntry.value.name), S(s.biblioEntry.value.text)]] else []
  }

  /** `used_lang.update(...)`: the language codes of some translations. */
  function Codes(ts: seq<Translation>): set<string>
  {
    set i | 0 <= i < |ts| :: ts[i].lang.code
  }

  /** A correspondence row: both sutta uids, looked up by entry id, the
      partial flag and the footnote. */
  function CorrespondenceRow(uidOf: map<int, string>, entryId: int, correspId: int,
                             partialInd: Option<string>, footnote: Option<string>): (r: seq<Field>)
    requires entryId in uidOf && correspId in uidOf
    ensures |r| == 4 && r[0] == S(uidOf[entryId]) && r[1] == S(uidOf[correspId])
    ensures r[2] == N(1) <==> partialInd == Some("Y")
  {
    [S(uidOf[entryId]), S(uidOf[correspId]), YFlag(partialInd), OptField(footnote)]
  }

  /** The fields the scripts read of a collection of `dbr.collections`. */
  datatype CollectionRec = CollectionRec(id: int, name: string, abbrevName: string, langCode: string)

  /** The fields the scripts read of a division of `dbr.divisions`. */
  datatype DivisionRec = DivisionRec(uid: string, collectionId: int, name: string,
                                     acronym: Option<string>, subdivInd: Option<string>)

  /** The row of `division.csv` in either script: `subdiv_ind` becomes 1 or `None`. */
  function DivisionRow(d: DivisionRec): (row: seq<Field>)
    requires d.collectionId in CollectionUids
    ensures |row| == 5 && row[1] == S(CollectionUids[d.collectionId])
    ensures row[4] == N(1) <==> d.subdivInd == Some("Y")
  {
    [S(d.uid), S(CollectionUids[d.collectionId]), S(d.name), OptField(d.acronym), YFlag(d.subdivInd)]
  }

  /** The fields the scripts read of a subdivision of `dbr.subdivisions`. */
  datatype SubdivisionRec = SubdivisionRec(uid: string, divisionUid: string, name: string,
                                           acronym: Option<string>, vaggaNumberingInd: Option<string>)

  /** A sutta of `dbr.suttas` with its translations. */
  datatype SuttaRecord = SuttaRecord(sutta: Sutta, translations: seq<Translation>)

  /** The tables the sutta loop of either script fills: the sutta rows, the
      reference rows, the biblio rows, the vagga table in insertion order and
      the language codes of the translations. */
  datatype Export = Export(suttaRows: seq<seq<Field>>, references: seq<seq<Field>>,
                           biblio: seq<seq<Field>>, vaggas: seq<(string, Option<string>)>,
                           usedLang: set<string>)

}
