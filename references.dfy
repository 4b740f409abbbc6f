/** `build_references` of src/imm.py: each row of the reference table
    becomes a `Translation` of its sutta. A row whose sutta id is not in the
    sutta table records an error message; the source then goes on with an
    unbound (or the previous row's) uid, which is evidently not intended:
    `Translations` skips that row after its error is recorded, and
    `AsWritten` is the loop as it stands. */
module References {
  import opened Wrappers
  import opened Strings
  import opened Entities

  /** A row of `db.reference`. */
  datatype ReferenceRow = ReferenceRow(suttaId: int, languageId: int, seqNbr: int, url: string,
                                       abstractText: Option<string>)

  /** `db.reference.items()`: key and row. */
  type Refs = seq<(int, ReferenceRow)>

  /** The lookups that raise `KeyError` uncaught for a row whose sutta is
      known: its language and the built sutta of that uid. */
  predicate Resolvable(refs: Refs, uidOf: map<int, string>, langs: map<int, Language>, suttas: set<string>) {
    forall i :: 0 <= i < |refs| && refs[i].1.suttaId in uidOf ==>
      refs[i].1.languageId in langs && uidOf[refs[i].1.suttaId] in suttas
  }

  function TranslationOf(row: ReferenceRow, uidOf: map<int, string>, langs: map<int, Language>): Translation
    requires row.suttaId in uidOf && row.languageId in langs
  {
    Translation(row.seqNbr, langs[row.languageId], row.url, row.abstractText, uidOf[row.suttaId])
  }

  /** `'{} missing in sutta ({})'.format(row.sutta_id, key)` */
  function MissingMessage(key: int, row: ReferenceRow): string
  {
    IntToString(row.suttaId) + " missing in sutta (" + IntToString(key) + ")"
  }

  /** The translations made, in row order. */
  function Translations(refs: Refs, uidOf: map<int, string>, langs: map<int, Language>, suttas: set<string>)
    : seq<Translation>
    requires Resolvable(refs, uidOf, langs, suttas)
    decreases |refs|
  {
    if refs == [] then []
    else
      var init := refs[..|refs| - 1];
      var (key, row) := refs[|refs| - 1];
      assert Resolvable(init, uidOf, langs, suttas) by {
        forall i | 0 <= i < |init| ensures init[i] == refs[i] { }
      }
      Translations(init, uidOf, langs, suttas) + (if row.suttaId in uidOf then [TranslationOf(row, uidOf, langs)] else [])
  }

  /** The error messages recorded, in row order. */
  function Errors(refs: Refs, uidOf: map<int, string>): seq<string>
    decreases |refs|
  {
    if refs == [] then []
    else
      var (key, row) := refs[|refs| - 1];
      Errors(refs[..|refs| - 1], uidOf) + (if row.suttaId in uidOf then [] else [MissingMessage(key, row)])
  }

  /** The translations of sutta `u`, in order. */
  function OfSutta(ts: seq<Translation>, u: string): seq<Translation>
    decreases |ts|
  {
    if ts == [] then []
    else
      var t := ts[|ts| - 1];
      OfSutta(ts[..|ts| - 1], u) + (if t.suttaUid == u then [t] else [])
  }

  lemma ResolvablePrefix(refs: Refs, uidOf: map<int, string>, langs: map<int, Language>, suttas: set<string>, i: int)
    requires Resolvable(refs, uidOf, langs, suttas) && 0 <= i <= |refs|
    ensures Resolvable(refs[..i], uidOf, langs, suttas)
  {
    forall k | 0 <= k < i ensures refs[..i][k] == refs[k] { }
  }

  /** One more row: a translation, or an error message. */
  lemma RowStep(refs: Refs, uidOf: map<int, string>, langs: map<int, Language>, suttas: set<string>, i: int)
    requires Resolvable(refs, uidOf, langs, suttas) && 0 <= i < |refs|
    ensures Resolvable(refs[..i], uidOf, langs, suttas) && Resolvable(refs[..i + 1], uidOf, langs, suttas)
    ensures var row := refs[i].1;
            Translations(refs[..i + 1], uidOf, langs, suttas) ==
              Translations(refs[..i], uidOf, langs, suttas) +
              (if row.suttaId in uidOf then [TranslationOf(row, uidOf, langs)] else [])
    ensures Errors(refs[..i + 1], uidOf) ==
              Errors(refs[..i], uidOf) + (if refs[i].1.suttaId in uidOf then [] else [MissingMessage(refs[i].0, refs[i].1)])
  {
    ResolvablePrefix(refs, uidOf, langs, suttas, i);
    ResolvablePrefix(refs, uidOf, langs, suttas, i + 1);
    assert refs[..i + 1][..i] == refs[..i];
  }

  lemma OfSuttaSnoc(ts: seq<Translation>, t: Translation, u: string)
    ensures OfSutta(ts + [t], u) == OfSutta(ts, u) + (if t.suttaUid == u then [t] else [])
  {
    assert (ts + [t])[..|ts|] == ts;
  }

  /** One more row, seen from sutta `u`. */
  lemma OfSuttaStep(refs: Refs, uidOf: map<int, string>, langs: map<int, Language>, suttas: set<string>,
                    n: int, u: string)
    requires Resolvable(refs, uidOf, langs, suttas) && 0 <= n < |refs|
    ensures Resolvable(refs[..n], uidOf, langs, suttas) && Resolvable(refs[..n + 1], uidOf, langs, suttas)
    ensures var row := refs[n].1;
            OfSutta(Translations(refs[..n + 1], uidOf, langs, suttas), u) ==
              OfSutta(Translations(refs[..n], uidOf, langs, suttas), u) +
              (if row.suttaId in uidOf && uidOf[row.suttaId] == u then [TranslationOf(row, uidOf, langs)] else [])
  {
    RowStep(refs, uidOf, langs, suttas, n);
    var row := refs[n].1;
    if row.suttaId in uidOf {
      OfSuttaSnoc(Translations(refs[..n], uidOf, langs, suttas), TranslationOf(row, uidOf, langs), u);
    } else {
      assert Translations(refs[..n], uidOf, langs, suttas) + [] == Translations(refs[..n], uidOf, langs, suttas);
    }
  }

  /** A translation the rows make for `u` is one of a row whose sutta id
      names `u`. */
  lemma {:induction false} TranslationsFrom(refs: Refs, uidOf: map<int, string>, langs: map<int, Language>,
                                            suttas: set<string>, u: string, t: Translation)
    requires Resolvable(refs, uidOf, langs, suttas)
    requires t in OfSutta(Translations(refs, uidOf, langs, suttas), u)
    ensures exists i :: 0 <= i < |refs| && refs[i].1.suttaId in uidOf && uidOf[refs[i].1.suttaId] == u &&
                        t == TranslationOf(refs[i].1, uidOf, langs)
    decreases |refs|
  {
    var n := |refs| - 1;
    OfSuttaStep(refs, uidOf, langs, suttas, n, u);
    assert refs[..n + 1] == refs;
    var init := refs[..n];
    if t in OfSutta(Translations(init, uidOf, langs, suttas), u) {
      TranslationsFrom(init, uidOf, langs, suttas, u, t);
      var i :| 0 <= i < n && init[i].1.suttaId in uidOf && uidOf[init[i].1.suttaId] == u &&
               t == TranslationOf(init[i].1, uidOf, langs);
      assert init[i] == refs[i];
    }
  }

  /** Every row whose sutta id names `u` gives `u` its translation. */
  lemma {:induction false} TranslationsTo(refs: Refs, uidOf: map<int, string>, langs: map<int, Language>,
                                          suttas: set<string>, i: int)
    requires Resolvable(refs, uidOf, langs, suttas)
    requires 0 <= i < |refs| && refs[i].1.suttaId in uidOf
    ensures TranslationOf(refs[i].1, uidOf, langs) in
            OfSutta(Translations(refs, uidOf, langs, suttas), uidOf[refs[i].1.suttaId])
    decreases |refs|
  {
    var n := |refs| - 1;
    var u := uidOf[refs[i].1.suttaId];
    var t := TranslationOf(refs[i].1, uidOf, langs);
    OfSuttaStep(refs, uidOf, langs, suttas, n, u);
    assert refs[..n + 1] == refs;
    if i < n {
      var init := refs[..n];
      assert init[i] == refs[i];
      TranslationsTo(init, uidOf, langs, suttas, i);
      assert t in OfSutta(Translations(init, uidOf, langs, suttas), u);
    }
  }

  /** The translations a sutta receives are exactly those of the rows whose
      sutta id names it. */
  lemma TranslationsMeaning(refs: Refs, uidOf: map<int, string>, langs: map<int, Language>,
                            suttas: set<string>, u: string, t: Translation)
    requires Resolvable(refs, uidOf, langs, suttas)
    ensures t in OfSutta(Translations(refs, uidOf, langs, suttas), u) <==>
            exists i :: 0 <= i < |refs| && refs[i].1.suttaId in uidOf && uidOf[refs[i].1.suttaId] == u &&
                        t == TranslationOf(refs[i].1, uidOf, langs)
  {
    if t in OfSutta(Translations(refs, uidOf, langs, suttas), u) {
      TranslationsFrom(refs, uidOf, langs, suttas, u, t);
    }
    if exists i :: 0 <= i < |refs| && refs[i].1.suttaId in uidOf && uidOf[refs[i].1.suttaId] == u &&
                   t == TranslationOf(refs[i].1, uidOf, langs) {
      var i :| 0 <= i < |refs| && refs[i].1.suttaId in uidOf && uidOf[refs[i].1.suttaId] == u &&
               t == TranslationOf(refs[i].1, uidOf, langs);
      TranslationsTo(refs, uidOf, langs, suttas, i);
    }
  }

  /** An error message recorded is that of a row whose sutta is unknown. */
  lemma {:induction false} ErrorsFrom(refs: Refs, uidOf: map<int, string>, e: string)
    requires e in Errors(refs, uidOf)
    ensures exists i :: 0 <= i < |refs| && refs[i].1.suttaId !in uidOf && e == MissingMessage(refs[i].0, refs[i].1)
    decreases |refs|
  {
    var n := |refs| - 1;
    var init := refs[..n];
    ErrorsLast(refs, uidOf, e);
    if e in Errors(init, uidOf) {
      ErrorsFrom(init, uidOf, e);
      var i :| 0 <= i < n && init[i].1.suttaId !in uidOf && e == MissingMessage(init[i].0, init[i].1);
      assert init[i] == refs[i];
    }
  }

  /** Every row whose sutta is unknown records its message. */
  lemma {:induction false} ErrorsTo(refs: Refs, uidOf: map<int, string>, i: int)
    requires 0 <= i < |refs| && refs[i].1.suttaId !in uidOf
    ensures MissingMessage(refs[i].0, refs[i].1) in Errors(refs, uidOf)
    decreases |refs|
  {
    if i == |refs| - 1 {
      ErrorsOfLast(refs, uidOf);
    } else {
      var init := refs[..|refs| - 1];
      assert init[i] == refs[i];
      ErrorsTo(init, uidOf, i);
      ErrorsLast(refs, uidOf, MissingMessage(init[i].0, init[i].1));
    }
  }

  /** The last row, when its sutta is unknown, records its message. */
  lemma ErrorsOfLast(refs: Refs, uidOf: map<int, string>)
    requires refs != [] && refs[|refs| - 1].1.suttaId !in uidOf
    ensures MissingMessage(refs[|refs| - 1].0, refs[|refs| - 1].1) in Errors(refs, uidOf)
  {
    var (key, row) := refs[|refs| - 1];
    assert Errors(refs, uidOf) == Errors(refs[..|refs| - 1], uidOf) + [MissingMessage(key, row)];
  }

  lemma ErrorsLast(refs: Refs, uidOf: map<int, string>, e: string)
    requires refs != []
    ensures var n := |refs| - 1;
            e in Errors(refs, uidOf) <==>
            e in Errors(refs[..n], uidOf) || (refs[n].1.suttaId !in uidOf && e == MissingMessage(refs[n].0, refs[n].1))
  {
  }

  /** The errors recorded are exactly the messages of the rows whose sutta is
      unknown. */
  lemma ErrorsMeaning(refs: Refs, uidOf: map<int, string>, e: string)
    ensures e in Errors(refs, uidOf) <==>
            exists i :: 0 <= i < |refs| && refs[i].1.suttaId !in uidOf && e == MissingMessage(refs[i].0, refs[i].1)
  {
    if e in Errors(refs, uidOf) {
      ErrorsFrom(refs, uidOf, e);
    }
    if exists i :: 0 <= i < |refs| && refs[i].1.suttaId !in uidOf && e == MissingMessage(refs[i].0, refs[i].1) {
      var i :| 0 <= i < |refs| && refs[i].1.suttaId !in uidOf && e == MissingMessage(refs[i].0, refs[i].1);
      ErrorsTo(refs, uidOf, i);
    }
  }

  /** The translation lists `tr`: each sutta's list of `base` followed by
      its translations of `ts`. */
  ghost predicate Appended(tr: map<string, seq<Translation>>, base: map<string, seq<Translation>>,
                           ts: seq<Translation>) {
    tr.Keys == base.Keys && forall u :: u in tr ==> tr[u] == base[u] + OfSutta(ts, u)
  }

  /** `sutta.translations.append(translation)` keeps the lists appended. */
  lemma AppendedSnoc(tr: map<string, seq<Translation>>, base: map<string, seq<Translation>>,
                     ts: seq<Translation>, t: Translation)
    requires Appended(tr, base, ts) && t.suttaUid in tr
    ensures Appended(tr[t.suttaUid := tr[t.suttaUid] + [t]], base, ts + [t])
  {
    var tr' := tr[t.suttaUid := tr[t.suttaUid] + [t]];
    forall u | u in tr' ensures tr'[u] == base[u] + OfSutta(ts + [t], u) {
      OfSuttaSnoc(ts, t, u);
      if t.suttaUid == u {
        assert (base[u] + OfSutta(ts, u)) + [t] == base[u] + (OfSutta(ts, u) + [t]);
      } else {
        assert OfSutta(ts, u) + [] == OfSutta(ts, u);
      }
    }
  }

  /** Before the first row: nothing appended, no error recorded. */
  lemma NoRowsYet(refs: Refs, uidOf: map<int, string>, langs: map<int, Language>, suttas: set<string>,
                  base: map<string, seq<Translation>>)
    ensures Resolvable(refs[..0], uidOf, langs, suttas)
    ensures Translations(refs[..0], uidOf, langs, suttas) == [] && Errors(refs[..0], uidOf) == []
    ensures Appended(base, base, Translations(refs[..0], uidOf, langs, suttas))
  {
    assert refs[..0] == [];
    forall u | u in base ensures base[u] == base[u] + OfSutta([], u) { }
  }

  // The loop as written

  /** `build_references` as written, row by row: a row whose sutta id is
      not found still goes on with the `uid` of the last row whose sutta was
      found, and `prev` is that uid; on a row with no such uid, or with an
      unknown language, the loop raises, which is `None` here. The lookup
      `self.suttas[uid]` itself cannot fail: `uid` is always one of
      `db.sutta`, and `build_suttas` has built a sutta for each of them. */
  function AsWritten(refs: Refs, uidOf: map<int, string>, langs: map<int, Language>, prev: Option<string>)
    : Option<seq<Translation>>
    decreases |refs|
  {
    if refs == [] then Some([])
    else
      var row := refs[0].1;
      var uid := if row.suttaId in uidOf then Some(uidOf[row.suttaId]) else prev;
      if uid.None? || row.languageId !in langs then None
      else
        var t := Translation(row.seqNbr, langs[row.languageId], row.url, row.abstractText, uid.value);
        var rest := AsWritten(refs[1..], uidOf, langs, uid);
        if rest.None? then None else Some([t] + rest.value)
  }

  /** As written, a row naming an unknown sutta is filed under the sutta of
      the row before it, and as a first row it raises; the corrected loop
      files only the known sutta's row and records an error for the other. */
  lemma AsWrittenMisfiles(lang: Language)
    ensures var a := ReferenceRow(1, 1, 1, "/a", None);
            var b := ReferenceRow(2, 1, 2, "/b", None);
            var uidOf := map[1 := "dn1"];
            var langs := map[1 := lang];
            && AsWritten([(10, a), (11, b)], uidOf, langs, None) ==
               Some([Translation(1, lang, "/a", None, "dn1"), Translation(2, lang, "/b", None, "dn1")])
            && AsWritten([(11, b)], uidOf, langs, None) == None
            && Translations([(10, a), (11, b)], uidOf, langs, {"dn1"}) == [Translation(1, lang, "/a", None, "dn1")]
            && Errors([(10, a), (11, b)], uidOf) == [MissingMessage(11, b)]
  {
    var a := ReferenceRow(1, 1, 1, "/a", None);
    var b := ReferenceRow(2, 1, 2, "/b", None);
    var refs := [(10, a), (11, b)];
    var uidOf := map[1 := "dn1"];
    var langs := map[1 := lang];
    var ta := Translation(1, lang, "/a", None, "dn1");
    var tb := Translation(2, lang, "/b", None, "dn1");
    assert refs[1..] == [(11, b)] && refs[..1] == [(10, a)];
    assert [(11, b)][1..] == [] && [(10, a)][..0] == [];
    assert 2 !in uidOf && 1 in langs;
    assert AsWritten([], uidOf, langs, Some("dn1")) == Some([]);
    var one := [(11, b)];
    assert one[0].1 == b && one[1..] == [];
    assert AsWritten(one[1..], uidOf, langs, Some("dn1")) == Some([]);
    assert AsWritten(one, uidOf, langs, Some("dn1")) == Some([tb] + []);
    assert [tb] + [] == [tb];
    assert refs[1..] == one;
    assert AsWritten(refs, uidOf, langs, None) == Some([ta] + [tb]);
    assert [ta] + [tb] == [ta, tb];
    assert Translations([(10, a)], uidOf, langs, {"dn1"}) == [ta];
    assert Errors([(10, a)], uidOf) == [];
  }
}
