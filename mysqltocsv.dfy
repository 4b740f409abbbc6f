/** utility/mysql_to_csv.py: the older export of the in-memory database to
    CSV tables. Every sutta is exported under its own subdivision; only
    external urls go to the reference table; the language table is keyed
    by code alone and carries a display priority. Writing the files is not
    part of this model. */
module MysqlToCsv {
  import opened Wrappers
  import opened Strings
  import opened Entities
  import opened Etl

  /** `s.replace(pat, rep)`: every occurrence of `pat`, from left to right
      and without overlaps, replaced by `rep`. */
  function ReplaceAll(s: string, pat: string, rep: string): (r: string)
    requires pat != []
    decreases |s|
  {
    if |s| < |pat| then s
    else if s[..|pat|] == pat then rep + ReplaceAll(s[|pat|..], pat, rep)
    else [s[0]] + ReplaceAll(s[1..], pat, rep)
  }

  /** A string without the pattern is left as it is. */
  lemma {:induction false} ReplaceAbsent(s: string, pat: string, rep: string)
    requires pat != []
    ensures !Contains(s, pat) ==> ReplaceAll(s, pat, rep) == s
    decreases |s|
  {
    if |s| >= |pat| && !Contains(s, pat) {
      assert !OccursAt(s, pat, 0);
      assert s == [s[0]] + s[1..];
      if Contains(s[1..], pat) {
        var i :| 0 <= i <= |s[1..]| - |pat| && OccursAt(s[1..], pat, i);
        assert s[1..][i..i + |pat|] == s[i + 1..i + 1 + |pat|];
        assert OccursAt(s, pat, i + 1);
        assert false;
      }
      ReplaceAbsent(s[1..], pat, rep);
    }
  }

  /** Replacing a pattern by a longer string changes exactly the strings
      that contain the pattern. */
  lemma {:induction false} ReplaceGrows(s: string, pat: string, rep: string)
    requires pat != [] && |rep| > |pat|
    ensures |ReplaceAll(s, pat, rep)| >= |s|
    ensures |ReplaceAll(s, pat, rep)| == |s| <==> !Contains(s, pat)
    decreases |s|
  {
    if |s| < |pat| {
      assert !Contains(s, pat);
    } else if s[..|pat|] == pat {
      ReplaceGrows(s[|pat|..], pat, rep);
      assert OccursAt(s, pat, 0);
    } else {
      ReplaceGrows(s[1..], pat, rep);
      ContainsTail(s, pat);
    }
  }

  /** When `s` does not start with `pat`, `s` contains `pat` exactly when
      its tail does. */
  lemma ContainsTail(s: string, pat: string)
    requires pat != [] && |s| >= |pat| && s[..|pat|] != pat
    ensures Contains(s, pat) <==> Contains(s[1..], pat)
  {
    if Contains(s, pat) {
      var i :| 0 <= i <= |s| - |pat| && OccursAt(s, pat, i);
      assert i != 0;
      assert s[1..][i - 1..i - 1 + |pat|] == s[i..i + |pat|];
      assert OccursAt(s[1..], pat, i - 1);
    }
    if Contains(s[1..], pat) {
      var i :| 0 <= i <= |s[1..]| - |pat| && OccursAt(s[1..], pat, i);
      assert s[1..][i..i + |pat|] == s[i + 1..i + 1 + |pat|];
      assert OccursAt(s, pat, i + 1);
    }
  }

  /** The collection language code: `coll.lang.code.replace('ot', 'oth')`.
      An `oth` code becomes `othh`. */
  function CollectionLangCode(code: string): (r: string)
    ensures Contains(code, "ot") <==> |r| > |code|
    ensures !Contains(code, "ot") ==> r == code
  {
    ReplaceGrows(code, "ot", "oth");
    ReplaceAbsent(code, "ot", "oth");
    ReplaceAll(code, "ot", "oth")
  }

  lemma CollectionLangCodeExamples()
    ensures CollectionLangCode("ot") == "oth"
    ensures CollectionLangCode("oth") == "othh"
  {
    var ot := "ot";
    assert ot[..2] == "ot";
    assert ReplaceAll(ot[2..], "ot", "oth") == [];
    var oth := "oth";
    assert oth[..2] == "ot" && oth[2..] == "h";
    assert ReplaceAll("h", "ot", "oth") == "h";
    assert "oth" + "h" == "othh";
  }

  /** The table of `priority(code)`. */
  const Priorities: map<string, int> :=
    map["en" := 2, "zh" := 1, "fr" := 5, "de" := 4, "ko" := 7, "oth" := 9,
        "pi" := 3, "skt" := 4, "vn" := 8, "bo" := 5]

  /** `priority(code)`: the table's value, 9 for any other code. */
  function Priority(code: string): (p: int)
    ensures 1 <= p <= 9
    ensures code !in Priorities ==> p == 9
    ensures code in Priorities ==> p == Priorities[code]
  {
    if code in Priorities then Priorities[code] else 9
  }

  /** The fixed uids of Sanskrit and of "other" have their priorities. */
  lemma PriorityOfFixed(code: string)
    ensures code in {"sa", "sk"} ==> Priority(FixLangUid(code)) == 4
    ensures code == "ot" ==> Priority(FixLangUid(code)) == 9
    ensures code == "zh" ==> Priority(FixLangUid(code)) == 1
  {
    FixLangUidMeaning(code);
    if code == "zh" {
      OtSubstrings(code);
    }
  }

  /** The priority column of the language table. */
  function PriorityColumn(uid: string): seq<Field>
  {
    [N(Priority(uid))]
  }

  /** `sutta_fields`: the header of `sutta.csv`. */
  const SuttaFields: seq<string> := ["name", "uid", "subdivision_uid", "language", "vagga", "acronym", "volpage"]

  /** What the loop reads without raising: every sutta's language, and the
      vagga number of its vagga in the raw vagga table. */
  predicate Exportable(r: SuttaRecord, vaggaNumbers: map<int, int>)
  {
    r.sutta.lang.Some? && (r.sutta.vagga.Some? ==> r.sutta.vagga.value.id in vaggaNumbers)
  }

  /** A url the reference table keeps: not a path on the site itself. */
  predicate External(url: string) { !StartsWith(url, "/") }

  /** The translations with an external url, in order. */
  function ExternalTranslations(ts: seq<Translation>): (r: seq<Translation>)
    ensures forall i :: 0 <= i < |r| ==> External(r[i].url) && r[i] in ts
    ensures forall t :: t in ts && External(t.url) ==> t in r
  {
    if ts == [] then []
    else ExternalTranslations(ts[..|ts| - 1]) +
         (if External(ts[|ts| - 1].url) then [ts[|ts| - 1]] else [])
  }

  /** `add_references(sutta)`: the sutta's own text when its url is
      external, and every translation with an external url. */
  function References(r: SuttaRecord): (refs: seq<seq<Field>>)
    requires r.sutta.lang.Some?
    ensures forall k :: 0 <= k < |refs| ==>
              |refs[k]| == 4 && refs[k][0] == S(r.sutta.uid) && refs[k][3].S? && External(refs[k][3].s)
  {
    var ts := ExternalTranslations(r.translations);
    (if Truthy(r.sutta.url) && External(r.sutta.url.value) then [SuttaReference(r.sutta)] else []) +
    seq(|ts|, i requires 0 <= i < |ts| => TranslationReference(r.sutta.uid, ts[i]))
  }

  /** The vagga field of the row of sutta `s`. */
  function VaggaOf(s: Sutta, vaggaNumbers: map<int, int>): Field
    requires s.vagga.Some? ==> s.vagga.value.id in vaggaNumbers
  {
    if s.vagga.Some? then S(VaggaField(s.subdivisionUid, vaggaNumbers[s.vagga.value.id], s.numberInVagga)) else Null
  }

  function SuttaRow(s: Sutta, vaggaNumbers: map<int, int>): (row: seq<Field>)
    requires s.lang.Some? && (s.vagga.Some? ==> s.vagga.value.id in vaggaNumbers)
    ensures |row| == |SuttaFields|
    ensures row[1] == S(s.uid) && row[2] == S(s.subdivisionUid) && row[3] == S(FixLangUid(s.lang.value.code))
  {
    [S(s.name), S(s.uid), S(s.subdivisionUid), S(FixLangUid(s.lang.value.code)), VaggaOf(s, vaggaNumbers),
     S(AltJoin(s.acronym, s.altAcronym)), S(AltJoin(s.volpageInfo, s.altVolpageInfo))]
  }

  /** One turn of the loop. */
  function Step(e: Export, r: SuttaRecord, vaggaNumbers: map<int, int>): Export
    requires Exportable(r, vaggaNumbers)
  {
    var s := r.sutta;
    var vaggas := if s.vagga.Some? then Put(e.vaggas, VaggaKey(s.subdivisionUid, vaggaNumbers[s.vagga.value.id]), s.vagga.value.name)
                  else e.vaggas;
    Export(e.suttaRows + [SuttaRow(s, vaggaNumbers)], e.references + References(r),
           e.biblio + BiblioRows(s), vaggas, e.usedLang + Codes(r.translations))
  }

  lemma StepParts(e: Export, r: SuttaRecord, vaggaNumbers: map<int, int>)
    requires Exportable(r, vaggaNumbers)
    ensures Step(e, r, vaggaNumbers).suttaRows == e.suttaRows + [SuttaRow(r.sutta, vaggaNumbers)]
    ensures Step(e, r, vaggaNumbers).references == e.references + References(r)
  {
  }

  /** The tables after the loop over `records`. */
  function ExportOf(records: seq<SuttaRecord>, vaggaNumbers: map<int, int>): Export
    requires forall i :: 0 <= i < |records| ==> Exportable(records[i], vaggaNumbers)
  {
    if records == [] then Export([], [], [], [], {})
    else Step(ExportOf(records[..|records| - 1], vaggaNumbers), records[|records| - 1], vaggaNumbers)
  }

  /** The loop over `dbr.suttas.values()`. */
  method ExportSuttas(records: seq<SuttaRecord>, vaggaNumbers: map<int, int>) returns (e: Export)
    requires forall i :: 0 <= i < |records| ==> Exportable(records[i], vaggaNumbers)
    ensures e == ExportOf(records, vaggaNumbers)
  {
    var suttaRows, references, biblio := [], [], [];
    var vaggas: seq<(string, Option<string>)> := [];
    var usedLang: set<string> := {};
    for i := 0 to |records|
      invariant Export(suttaRows, references, biblio, vaggas, usedLang) == ExportOf(records[..i], vaggaNumbers)
    {
      TakeSnoc(records, i);
      var s := records[i].sutta;
      var subd := s.subdivisionUid;
      references := references + References(records[i]);
      usedLang := usedLang + Codes(records[i].translations);
      biblio := biblio + BiblioRows(s);
      var vaggaField := Null;
      if s.vagga.Some? {
        var key := VaggaKey(subd, vaggaNumbers[s.vagga.value.id]);
        vaggas := Put(vaggas, key, s.vagga.value.name);
        vaggaField := S(key + "/" + OptIntString(s.numberInVagga));
      }
      suttaRows := suttaRows + [[S(s.name), S(s.uid), S(subd), S(FixLangUid(s.lang.value.code)), vaggaField,
                                 S(AltJoin(s.acronym, s.altAcronym)), S(AltJoin(s.volpageInfo, s.altVolpageInfo))]];
    }
    assert records[..|records|] == records;
    e := Export(suttaRows, references, biblio, vaggas, usedLang);
  }

  /** Every sutta has its row, in order, carrying its uid and its
      subdivision. */
  lemma {:induction false} ExportRows(records: seq<SuttaRecord>, vaggaNumbers: map<int, int>)
    requires forall i :: 0 <= i < |records| ==> Exportable(records[i], vaggaNumbers)
    ensures var rows := ExportOf(records, vaggaNumbers).suttaRows;
            && |rows| == |records|
            && forall k :: 0 <= k < |records| ==>
                 |rows[k]| == |SuttaFields| && rows[k][1] == S(records[k].sutta.uid) &&
                 rows[k][2] == S(records[k].sutta.subdivisionUid)
    decreases |records|
  {
    if records != [] {
      var init := records[..|records| - 1];
      var last := records[|records| - 1];
      ExportRows(init, vaggaNumbers);
      var before := ExportOf(init, vaggaNumbers).suttaRows;
      var row := SuttaRow(last.sutta, vaggaNumbers);
      StepParts(ExportOf(init, vaggaNumbers), last, vaggaNumbers);
      var rows: seq<seq<Field>> := before + [row];
      forall k | 0 <= k < |records|
        ensures |rows[k]| == |SuttaFields| && rows[k][1] == S(records[k].sutta.uid) &&
                rows[k][2] == S(records[k].sutta.subdivisionUid)
      {
        if k < |before| {
          assert rows[k] == before[k] && records[k] == init[k];
        } else {
          assert rows[k] == row && records[k] == last;
        }
      }
    }
  }

  /** The vagga table has each key once. */
  lemma {:induction false} ExportVaggasDistinct(records: seq<SuttaRecord>, vaggaNumbers: map<int, int>)
    requires forall i :: 0 <= i < |records| ==> Exportable(records[i], vaggaNumbers)
    ensures DistinctKeys(ExportOf(records, vaggaNumbers).vaggas)
    decreases |records|
  {
    if records != [] {
      var init := records[..|records| - 1];
      var last := records[|records| - 1].sutta;
      ExportVaggasDistinct(init, vaggaNumbers);
      if last.vagga.Some? {
        PutMeaning(ExportOf(init, vaggaNumbers).vaggas, VaggaKey(last.subdivisionUid, vaggaNumbers[last.vagga.value.id]),
                   last.vagga.value.name);
      }
    }
  }

  /** Every reference row has four fields and an external url. */
  predicate AllExternal(refs: seq<seq<Field>>)
  {
    forall k :: 0 <= k < |refs| ==> |refs[k]| == 4 && refs[k][3].S? && External(refs[k][3].s)
  }

  /** Every reference row points to an external url. */
  lemma {:induction false} ExportReferencesExternal(records: seq<SuttaRecord>, vaggaNumbers: map<int, int>)
    requires forall i :: 0 <= i < |records| ==> Exportable(records[i], vaggaNumbers)
    ensures AllExternal(ExportOf(records, vaggaNumbers).references)
    decreases |records|
  {
    if records != [] {
      var init := records[..|records| - 1];
      ExportReferencesExternal(init, vaggaNumbers);
      var added := References(records[|records| - 1]);
      StepParts(ExportOf(init, vaggaNumbers), records[|records| - 1], vaggaNumbers);
      assert AllExternal(added);
      AllExternalConcat(ExportOf(init, vaggaNumbers).references, added);
    }
  }

  lemma AllExternalConcat(a: seq<seq<Field>>, b: seq<seq<Field>>)
    requires AllExternal(a) && AllExternal(b)
    ensures AllExternal(a + b)
  {
    forall k | 0 <= k < |a + b| ensures |(a + b)[k]| == 4 && (a + b)[k][3].S? && External((a + b)[k][3].s) {
      if k < |a| {
        assert (a + b)[k] == a[k];
      } else {
        assert (a + b)[k] == b[k - |a|];
      }
    }
  }

  /** `used_lang` holds the language of every translation, whether or not
      its url is external. */
  lemma {:induction false} UsedLangMeaning(records: seq<SuttaRecord>, vaggaNumbers: map<int, int>, code: string)
    requires forall i :: 0 <= i < |records| ==> Exportable(records[i], vaggaNumbers)
    ensures code in ExportOf(records, vaggaNumbers).usedLang <==>
            exists i :: 0 <= i < |records| && code in Codes(records[i].translations)
    decreases |records|
  {
    if records != [] {
      var init := records[..|records| - 1];
      UsedLangMeaning(init, vaggaNumbers, code);
      if code in ExportOf(init, vaggaNumbers).usedLang {
        var i :| 0 <= i < |init| && code in Codes(init[i].translations);
        assert records[i] == init[i];
      }
      if exists i :: 0 <= i < |records| && code in Codes(records[i].translations) {
        var i :| 0 <= i < |records| && code in Codes(records[i].translations);
        if i < |init| {
          assert init[i] == records[i];
        }
      }
    }
  }

  /** The language table: the collection languages and the reference
      languages in use, the entries keyed by id skipped, each row with its
      priority. */
  method LanguageTable(coll: LangItems, refs: LangItems, usedLang: set<string>) returns (rows: seq<LangRow>)
    ensures rows == Languages(coll, refs, usedLang, true, PriorityColumn)
    ensures forall k :: 0 <= k < |rows| ==>
              |LangFields(rows[k])| == 5 && LangFields(rows[k])[4] == N(Priority(rows[k].uid))
  {
    rows := AssembleLanguages(coll, refs, usedLang, true, PriorityColumn);
    LanguagesSorted(coll, refs, usedLang, true, PriorityColumn);
    forall k | 0 <= k < |rows|
      ensures |LangFields(rows[k])| == 5 && LangFields(rows[k])[4] == N(Priority(rows[k].uid))
    {
      var unsorted := CollRows(coll, true, PriorityColumn) +
                      RefRows(refs, true, usedLang, SeenUids(coll, true), PriorityColumn);
      assert rows[k] in multiset(unsorted);
      if rows[k] in CollRows(coll, true, PriorityColumn) {
        CollRowsMeaning(coll, true, PriorityColumn, rows[k]);
      } else {
        RefRowsMeaning(refs, true, usedLang, SeenUids(coll, true), PriorityColumn, rows[k]);
      }
    }
  }

  /** No row of the language table comes from an entry keyed by id. */
  lemma LanguagesSkipIds(coll: LangItems, refs: LangItems, usedLang: set<string>, r: LangRow)
    requires r in Languages(coll, refs, usedLang, true, PriorityColumn)
    ensures (exists i :: 0 <= i < |coll| && coll[i].0.CodeKey? && coll[i].1.code == r.isoCode) ||
            (exists i :: 0 <= i < |refs| && refs[i].0.CodeKey? && refs[i].1.code == r.isoCode && r.isoCode in usedLang)
  {
    LanguagesSorted(coll, refs, usedLang, true, PriorityColumn);
    var unsorted := CollRows(coll, true, PriorityColumn) +
                    RefRows(refs, true, usedLang, SeenUids(coll, true), PriorityColumn);
    assert r in multiset(unsorted);
    if r in CollRows(coll, true, PriorityColumn) {
      CollRowsMeaning(coll, true, PriorityColumn, r);
    } else {
      RefRowsMeaning(refs, true, usedLang, SeenUids(coll, true), PriorityColumn, r);
    }
  }

  /** The row of `collection.csv`. */
  function CollectionRow(c: CollectionRec): (row: seq<Field>)
    requires c.id in CollectionUids
    ensures |row| == 4 && row[0] == S(CollectionUids[c.id]) && row[3] == S(CollectionLangCode(c.langCode))
  {
    [S(CollectionUids[c.id]), S(c.name), S(c.abbrevName), S(CollectionLangCode(c.langCode))]
  }

  /** The row of `subdivision.csv`, with its division's uid. */
  function SubdivisionRow(sd: SubdivisionRec): (row: seq<Field>)
    ensures |row| == 5 && row[0] == S(sd.uid) && row[1] == S(sd.divisionUid)
  {
    [S(sd.uid), S(sd.divisionUid), S(sd.name), OptField(sd.acronym), OptField(sd.vaggaNumberingInd)]
  }
}
