/** utility/dbredo.py: the export of the in-memory database to the CSV
    tables of the new schema. A sutta's division and subdivision uids are
    recovered from its own uid; a sutta whose uid does not decompose is
    reported and skipped. Printing the skipped uid and writing the files are
    not part of this model; the script's module-level lists, its `vaggas`
    `OrderedDict` and its `used_lang` set are the fields of `Export`. */
module DbRedo {
  import opened Wrappers
  import opened Strings
  import opened Entities
  import opened Etl

  /** The number of letters `\p{alpha}+` takes at the start of `s`
      (ASCII letters stand in for Unicode ones). */
  function LeadingAlpha(s: string): (n: nat)
    ensures n <= |s|
    ensures forall i :: 0 <= i < n ==> IsAlpha(s[i])
    ensures n < |s| ==> !IsAlpha(s[n])
  {
    if s != [] && IsAlpha(s[0]) then 1 + LeadingAlpha(s[1..]) else 0
  }

  /** The number of digits `\d` takes at the start of `s`. */
  function LeadingDigits(s: string): (n: nat)
    ensures n <= |s|
    ensures forall i :: 0 <= i < n ==> IsDigit(s[i])
    ensures n < |s| ==> !IsDigit(s[n])
  {
    if s != [] && IsDigit(s[0]) then 1 + LeadingDigits(s[1..]) else 0
  }

  /** The length of the group `(?:-\d+)` at the start of `rest`, or 0 when
      it does not match there. */
  function DashGroup(rest: string): (n: nat)
    ensures n <= |rest|
    ensures n > 0 ==> n >= 2 && rest[0] == '-'
  {
    if rest != [] && rest[0] == '-' && LeadingDigits(rest[1..]) > 0 then 1 + LeadingDigits(rest[1..]) else 0
  }

  /** `decompose_uid(uid)`: `(division, subdivision)`, or `None` where the
      regular expression does not match, `m` is `None` and `m[1]` raises
      the `TypeError` the caller catches. The letters run as far as they
      go; the rest of the uid is read by `Dotted` or `Undotted`. */
  function DecomposeUid(uid: string): Option<(string, string)>
  {
    var n := LeadingAlpha(uid);
    if n == 0 then None
    else if Contains(uid, ".") then Dotted(uid[..n], uid[n..])
    else Undotted(uid[..n], uid[n..])
  }

  /** The pattern with a `.` in the uid: after the letters, an optional
      `-digits` group, digits, then the dot. The dash group is taken when
      the dot follows it directly, and the subdivision is then the division
      with `-nosub`; otherwise the division is the letters, and the
      subdivision the letters with the digits, or with `-nosub` when there
      are none. */
  function Dotted(letters: string, rest: string): Option<(string, string)>
  {
    var g := DashGroup(rest);
    if g > 0 && g < |rest| && rest[g] == '.' then
      var division := letters + rest[..g];
      Some((division, division + "-nosub"))
    else
      var d := LeadingDigits(rest);
      if d < |rest| && rest[d] == '.' then
        Some((letters, if d > 0 then letters + rest[..d] else letters + "-nosub"))
      else None
  }

  /** The pattern without a `.`: the letters and the optional dash group
      make the division, and the second group is always empty. */
  function Undotted(letters: string, rest: string): (r: Option<(string, string)>)
  {
    var division := letters + rest[..DashGroup(rest)];
    Some((division, division + "-nosub"))
  }

  predicate AllAlpha(s: string) { forall i :: 0 <= i < |s| ==> IsAlpha(s[i]) }

  lemma {:induction false} LeadingAlphaConcat(a: string, b: string)
    requires AllAlpha(a) && (b == [] || !IsAlpha(b[0]))
    ensures LeadingAlpha(a + b) == |a|
    decreases |a|
  {
    if a != [] {
      assert (a + b)[1..] == a[1..] + b;
      LeadingAlphaConcat(a[1..], b);
    } else {
      assert a + b == b;
    }
  }

  lemma {:induction false} LeadingDigitsConcat(a: string, b: string)
    requires AllDigits(a) && (b == [] || !IsDigit(b[0]))
    ensures LeadingDigits(a + b) == |a|
    decreases |a|
  {
    if a != [] {
      assert (a + b)[1..] == a[1..] + b;
      LeadingDigitsConcat(a[1..], b);
    } else {
      assert a + b == b;
    }
  }

  /** The letters of `letters + rest` are `letters` when `rest` does not
      start with a letter. */
  lemma SplitLetters(letters: string, rest: string)
    requires letters != [] && AllAlpha(letters) && (rest == [] || !IsAlpha(rest[0]))
    ensures var uid := letters + rest;
            var n := LeadingAlpha(uid);
            n == |letters| && uid[..n] == letters && uid[n..] == rest
  {
    LeadingAlphaConcat(letters, rest);
    var uid := letters + rest;
    assert uid[..|letters|] == letters && uid[|letters|..] == rest;
  }

  lemma ContainsDot(a: string, b: string)
    ensures Contains(a + "." + b, ".")
  {
    ContainsConcat(a, ".", b);
  }

  /** A uid of letters, digits, a dot and anything: the division is the
      letters, the subdivision the letters and the digits (`sn56.11` gives
      `sn` and `sn56`). */
  lemma DecomposeNumbered(letters: string, digits: string, tail: string)
    requires letters != [] && AllAlpha(letters)
    requires digits != [] && AllDigits(digits)
    ensures DecomposeUid(letters + digits + "." + tail) == Some((letters, letters + digits))
  {
    var rest := digits + "." + tail;
    assert letters + digits + "." + tail == letters + rest;
    SplitLetters(letters, rest);
    ContainsDot(letters + digits, tail);
    assert rest == digits + ("." + tail);
    LeadingDigitsConcat(digits, "." + tail);
    assert DashGroup(rest) == 0;
    assert rest[|digits|] == '.' && rest[..|digits|] == digits;
  }

  /** A uid of letters, a dash and digits, then a dot and anything: the
      dash group joins the division, and the subdivision is the division
      with `-nosub` (`sa-2.5` gives `sa-2` and `sa-2-nosub`). */
  lemma DecomposeDashed(letters: string, digits: string, tail: string)
    requires letters != [] && AllAlpha(letters)
    requires digits != [] && AllDigits(digits)
    ensures var division := letters + "-" + digits;
            DecomposeUid(division + "." + tail) == Some((division, division + "-nosub"))
  {
    var division := letters + "-" + digits;
    var rest := "-" + digits + "." + tail;
    assert division + "." + tail == letters + rest;
    SplitLetters(letters, rest);
    ContainsDot(division, tail);
    DashedRest(digits, tail);
    assert letters + rest[..1 + |digits|] == division;
  }

  lemma DashedRest(digits: string, tail: string)
    requires digits != [] && AllDigits(digits)
    ensures var rest := "-" + digits + "." + tail;
            DashGroup(rest) == 1 + |digits| && rest[1 + |digits|] == '.' && rest[..1 + |digits|] == "-" + digits
  {
    var rest := "-" + digits + "." + tail;
    assert rest[1..] == digits + ("." + tail);
    LeadingDigitsConcat(digits, "." + tail);
  }

  /** A uid of letters and digits with no dot: the division is the letters,
      the subdivision the letters with `-nosub` (`dn1` gives `dn` and
      `dn-nosub`). */
  lemma DecomposeUnnumbered(letters: string, digits: string)
    requires letters != [] && AllAlpha(letters) && AllDigits(digits)
    ensures DecomposeUid(letters + digits) == Some((letters, letters + "-nosub"))
  {
    var uid := letters + digits;
    SplitLetters(letters, digits);
    NoDot(uid);
    assert DashGroup(digits) == 0;
    assert letters + digits[..0] == letters;
    assert Undotted(letters, digits) == Some((letters, letters + "-nosub"));
  }

  lemma NoDot(s: string)
    requires forall i :: 0 <= i < |s| ==> IsAlpha(s[i]) || IsDigit(s[i])
    ensures !Contains(s, ".")
  {
    forall i | 0 <= i <= |s| - 1 ensures !OccursAt(s, ".", i) {
      assert s[i..i + 1][0] == s[i];
    }
  }

  /** A uid that does not start with a letter does not decompose. */
  lemma DecomposeNeedsLetter(uid: string)
    requires uid == [] || !IsAlpha(uid[0])
    ensures DecomposeUid(uid) == None
  {
  }

  /** Whatever decomposes: the division is a non-empty prefix of the uid
      and the subdivision starts with the division. */
  lemma DecomposeShape(uid: string)
    requires DecomposeUid(uid).Some?
    ensures var (division, subdivision) := DecomposeUid(uid).value;
            division != [] && StartsWith(uid, division) && StartsWith(subdivision, division)
  {
    var n := LeadingAlpha(uid);
    var letters, rest := uid[..n], uid[n..];
    assert uid == letters + rest;
    if Contains(uid, ".") {
      DottedShape(letters, rest);
    } else {
      UndottedShape(letters, rest);
    }
  }

  /** What the two readings of the rest give: a division that extends the
      letters by a prefix of the rest, and a subdivision that extends the
      division. */
  lemma DottedShape(letters: string, rest: string)
    requires Dotted(letters, rest).Some?
    ensures var (division, subdivision) := Dotted(letters, rest).value;
            StartsWith(letters + rest, division) && StartsWith(division, letters) && StartsWith(subdivision, division)
  {
    var g := DashGroup(rest);
    assert (letters + rest)[..|letters| + g] == letters + rest[..g];
    assert (letters + rest)[..|letters|] == letters;
    assert (letters + rest[..g])[..|letters|] == letters;
  }

  lemma UndottedShape(letters: string, rest: string)
    ensures var (division, subdivision) := Undotted(letters, rest).value;
            StartsWith(letters + rest, division) && StartsWith(division, letters) && StartsWith(subdivision, division)
  {
    var g := DashGroup(rest);
    assert (letters + rest)[..|letters| + g] == letters + rest[..g];
    assert (letters + rest[..g])[..|letters|] == letters;
  }

  lemma ExampleNumbered()
    ensures DecomposeUid("sn56.11") == Some(("sn", "sn56"))
  {
    var sn, n56, n11 := "sn", "56", "11";
    assert AllAlpha(sn) by { assert sn[0] == 's' && sn[1] == 'n'; }
    assert AllDigits(n56) by { assert n56[0] == '5' && n56[1] == '6'; }
    DecomposeNumbered(sn, n56, n11);
    assert sn + n56 + "." + n11 == "sn56.11";
    assert sn + n56 == "sn56";
  }

  lemma ExampleUnnumbered()
    ensures DecomposeUid("dn1") == Some(("dn", "dn-nosub"))
  {
    var dn, n1 := "dn", "1";
    assert AllAlpha(dn) by { assert dn[0] == 'd' && dn[1] == 'n'; }
    assert AllDigits(n1) by { assert n1[0] == '1'; }
    DecomposeUnnumbered(dn, n1);
    assert dn + n1 == "dn1";
    assert dn + "-nosub" == "dn-nosub";
  }

  /** `sutta_fields`: the header of `sutta.csv`. */
  const SuttaFields: seq<string> := ["name", "uid", "language", "vagga", "acronym", "volpage"]

  /** What the loop reads without raising for a sutta it does not skip: its
      language, and the vagga number of its vagga in the raw vagga table. */
  predicate Exportable(r: SuttaRecord, vaggaNumbers: map<int, int>)
  {
    DecomposeUid(r.sutta.uid).Some? ==>
      r.sutta.lang.Some? && (r.sutta.vagga.Some? ==> r.sutta.vagga.value.id in vaggaNumbers)
  }

  /** `add_references(sutta)`: the sutta's own text when it has a url, and
      every translation. */
  function References(r: SuttaRecord): seq<seq<Field>>
    requires r.sutta.lang.Some?
  {
    (if Truthy(r.sutta.url) then [SuttaReference(r.sutta)] else []) +
    seq(|r.translations|, i requires 0 <= i < |r.translations| => TranslationReference(r.sutta.uid, r.translations[i]))
  }

  /** The vagga field of the row of sutta `s` in subdivision `subd`. */
  function VaggaOf(s: Sutta, subd: string, vaggaNumbers: map<int, int>): Field
    requires s.vagga.Some? ==> s.vagga.value.id in vaggaNumbers
  {
    if s.vagga.Some? then S(VaggaField(subd, vaggaNumbers[s.vagga.value.id], s.numberInVagga)) else Null
  }

  function SuttaRow(s: Sutta, subd: string, vaggaNumbers: map<int, int>): (row: seq<Field>)
    requires s.lang.Some? && (s.vagga.Some? ==> s.vagga.value.id in vaggaNumbers)
    ensures |row| == |SuttaFields|
    ensures row[1] == S(s.uid) && row[2] == S(s.lang.value.code) && row[3] == VaggaOf(s, subd, vaggaNumbers)
  {
    [S(s.name), S(s.uid), S(s.lang.value.code), VaggaOf(s, subd, vaggaNumbers),
     S(AltJoin(s.acronym, s.altAcronym)), S(AltJoin(s.volpageInfo, s.altVolpageInfo))]
  }

  /** One turn of the loop. */
  function Step(e: Export, r: SuttaRecord, vaggaNumbers: map<int, int>): Export
    requires Exportable(r, vaggaNumbers)
  {
    match DecomposeUid(r.sutta.uid)
    case None => e
    case Some((_, subd)) =>
      var s := r.sutta;
      var vaggas := if s.vagga.Some? then Put(e.vaggas, VaggaKey(subd, vaggaNumbers[s.vagga.value.id]), s.vagga.value.name)
                    else e.vaggas;
      Export(e.suttaRows + [SuttaRow(s, subd, vaggaNumbers)], e.references + References(r),
             e.biblio + BiblioRows(s), vaggas, e.usedLang + Codes(r.translations))
  }

  /** The tables after the loop over `records`. */
  function ExportOf(records: seq<SuttaRecord>, vaggaNumbers: map<int, int>): Export
    requires forall i :: 0 <= i < |records| ==> Exportable(records[i], vaggaNumbers)
  {
    if records == [] then Export([], [], [], [], {})
    else Step(ExportOf(records[..|records| - 1], vaggaNumbers), records[|records| - 1], vaggaNumbers)
  }

  /** The loop over `dbr.suttas.values()`. */
  method ExportSuttas(records: seq<SuttaRecord>, vaggaNumbers: map<int, int>) returns (e: Export)
    requires forall i :: 0 <= i < |records| ==> Exportable(records[i], vaggaNumbers)
    ensures e == ExportOf(records, vaggaNumbers)
  {
    var suttaRows, references, biblio := [], [], [];
    var vaggas: seq<(string, Option<string>)> := [];
    var usedLang: set<string> := {};
    for i := 0 to |records|
      invariant Export(suttaRows, references, biblio, vaggas, usedLang) == ExportOf(records[..i], vaggaNumbers)
    {
      TakeSnoc(records, i);
      var s := records[i].sutta;
      var parts := DecomposeUid(s.uid);
      if parts.None? {
        continue;
      }
      var subd := parts.value.1;
      references := references + References(records[i]);
      usedLang := usedLang + Codes(records[i].translations);
      biblio := biblio + BiblioRows(s);
      var vaggaField := Null;
      if s.vagga.Some? {
        var key := VaggaKey(subd, vaggaNumbers[s.vagga.value.id]);
        vaggas := Put(vaggas, key, s.vagga.value.name);
        vaggaField := S(key + "/" + OptIntString(s.numberInVagga));
      }
      suttaRows := suttaRows + [[S(s.name), S(s.uid), S(s.lang.value.code), vaggaField,
                                 S(AltJoin(s.acronym, s.altAcronym)), S(AltJoin(s.volpageInfo, s.altVolpageInfo))]];
    }
    assert records[..|records|] == records;
    e := Export(suttaRows, references, biblio, vaggas, usedLang);
  }

  /** A record the loop does not skip. */
  predicate Exported(r: SuttaRecord) { DecomposeUid(r.sutta.uid).Some? }

  /** The shape of the tables: every sutta row has one field per header
      column, the vagga table has each key once, and the vagga field of a
      row is `None` or starts with a key of the vagga table and a slash. */
  ghost predicate WellShaped(e: Export)
  {
    && (forall k :: 0 <= k < |e.suttaRows| ==> |e.suttaRows[k]| == |SuttaFields|)
    && DistinctKeys(e.vaggas)
    && (forall k :: 0 <= k < |e.suttaRows| ==>
          e.suttaRows[k][3] == Null ||
          (e.suttaRows[k][3].S? && exists j :: 0 <= j < |e.vaggas| && StartsWith(e.suttaRows[k][3].s, e.vaggas[j].0 + "/")))
  }

  lemma StepShaped(e: Export, r: SuttaRecord, vaggaNumbers: map<int, int>)
    requires WellShaped(e) && Exportable(r, vaggaNumbers)
    ensures WellShaped(Step(e, r, vaggaNumbers))
  {
    if Exported(r) {
      var subd := DecomposeUid(r.sutta.uid).value.1;
      var s := r.sutta;
      var e' := Step(e, r, vaggaNumbers);
      var row := SuttaRow(s, subd, vaggaNumbers);
      assert e'.suttaRows == e.suttaRows + [row];
      if s.vagga.Some? {
        var key := VaggaKey(subd, vaggaNumbers[s.vagga.value.id]);
        PutMeaning(e.vaggas, key, s.vagga.value.name);
        var j :| 0 <= j < |e'.vaggas| && e'.vaggas[j] == (key, s.vagga.value.name);
        assert StartsWith(row[3].s, e'.vaggas[j].0 + "/");
        forall k | 0 <= k < |e.suttaRows| && e.suttaRows[k][3] != Null
          ensures exists j :: 0 <= j < |e'.vaggas| && StartsWith(e'.suttaRows[k][3].s, e'.vaggas[j].0 + "/")
        {
          var j0 :| 0 <= j0 < |e.vaggas| && StartsWith(e.suttaRows[k][3].s, e.vaggas[j0].0 + "/");
          assert e'.vaggas[j0].0 == e.vaggas[j0].0;
          assert e'.suttaRows[k] == e.suttaRows[k];
        }
      }
    }
  }

  lemma {:induction false} ExportShaped(records: seq<SuttaRecord>, vaggaNumbers: map<int, int>)
    requires forall i :: 0 <= i < |records| ==> Exportable(records[i], vaggaNumbers)
    ensures WellShaped(ExportOf(records, vaggaNumbers))
    decreases |records|
  {
    if records != [] {
      ExportShaped(records[..|records| - 1], vaggaNumbers);
      StepShaped(ExportOf(records[..|records| - 1], vaggaNumbers), records[|records| - 1], vaggaNumbers);
    }
  }

  /** `used_lang` holds exactly the translation languages of the suttas the
      loop did not skip. */
  lemma {:induction false} UsedLangMeaning(records: seq<SuttaRecord>, vaggaNumbers: map<int, int>, code: string)
    requires forall i :: 0 <= i < |records| ==> Exportable(records[i], vaggaNumbers)
    ensures code in ExportOf(records, vaggaNumbers).usedLang <==>
            exists i :: 0 <= i < |records| && Exported(records[i]) && code in Codes(records[i].translations)
    decreases |records|
  {
    if records != [] {
      var init := records[..|records| - 1];
      var last := records[|records| - 1];
      UsedLangMeaning(init, vaggaNumbers, code);
      if code in ExportOf(init, vaggaNumbers).usedLang {
        var i :| 0 <= i < |init| && Exported(init[i]) && code in Codes(init[i].translations);
        assert records[i] == init[i];
      }
      if exists i :: 0 <= i < |records| && Exported(records[i]) && code in Codes(records[i].translations) {
        var i :| 0 <= i < |records| && Exported(records[i]) && code in Codes(records[i].translations);
        if i < |init| {
          assert init[i] == records[i];
        }
      }
    }
  }

  /** The rows of the sutta table are those of the suttas the loop did not
      skip, in order: one per such sutta, carrying its uid. */
  lemma {:induction false} RowsOfExported(records: seq<SuttaRecord>, vaggaNumbers: map<int, int>)
    requires forall i :: 0 <= i < |records| ==> Exportable(records[i], vaggaNumbers)
    ensures var rows := ExportOf(records, vaggaNumbers).suttaRows;
            |rows| == |ExportedUids(records)| &&
            forall k :: 0 <= k < |rows| ==> |rows[k]| == |SuttaFields| && rows[k][1] == S(ExportedUids(records)[k])
    decreases |records|
  {
    if records != [] {
      RowsOfExported(records[..|records| - 1], vaggaNumbers);
    }
  }

  /** The uids of the suttas the loop does not skip, in order. */
  function ExportedUids(records: seq<SuttaRecord>): seq<string>
  {
    if records == [] then []
    else ExportedUids(records[..|records| - 1]) +
         (if Exported(records[|records| - 1]) then [records[|records| - 1].sutta.uid] else [])
  }

  /** No extra column: this script's language rows have four fields. */
  function NoExtra(uid: string): seq<Field> { [] }

  /** The language table: every collection language, then the reference
      languages some exported translation uses. */
  method LanguageTable(coll: seq<Language>, refs: seq<Language>, usedLang: set<string>) returns (rows: seq<LangRow>)
    ensures rows == Languages(AsItems(coll), AsItems(refs), usedLang, false, NoExtra)
    ensures forall k :: 0 <= k < |rows| ==> |LangFields(rows[k])| == 4
  {
    rows := AssembleLanguages(AsItems(coll), AsItems(refs), usedLang, false, NoExtra);
    LanguagesSorted(AsItems(coll), AsItems(refs), usedLang, false, NoExtra);
    forall k | 0 <= k < |rows| ensures |LangFields(rows[k])| == 4 {
      var unsorted := CollRows(AsItems(coll), false, NoExtra) +
                      RefRows(AsItems(refs), false, usedLang, SeenUids(AsItems(coll), false), NoExtra);
      assert rows[k] in multiset(unsorted);
      if rows[k] in CollRows(AsItems(coll), false, NoExtra) {
        CollRowsMeaning(AsItems(coll), false, NoExtra, rows[k]);
      } else {
        RefRowsMeaning(AsItems(refs), false, usedLang, SeenUids(AsItems(coll), false), NoExtra, rows[k]);
      }
    }
  }

  /** `dict.values()` iterated: every language, the key unused. */
  function AsItems(langs: seq<Language>): LangItems
  {
    seq(|langs|, i requires 0 <= i < |langs| => (CodeKey(langs[i].code), langs[i]))
  }

  /** The row of `collection.csv`. */
  function CollectionRow(c: CollectionRec): (row: seq<Field>)
    requires c.id in CollectionUids
    ensures |row| == 4 && row[0] == S(CollectionUids[c.id]) && row[3] == S(c.langCode)
  {
    [S(CollectionUids[c.id]), S(c.name), S(c.abbrevName), S(c.langCode)]
  }

  /** The row of `subdivision.csv`. */
  function SubdivisionRow(sd: SubdivisionRec): (row: seq<Field>)
    ensures |row| == 3 && row[0] == S(sd.uid)
  {
    [S(sd.uid), S(sd.name), OptField(sd.vaggaNumberingInd)]
  }
}
