/** `build_search_data` of src/imm.py: for every sutta, in sutta order, the
    strings the sutta search matches a query against. `textfunctions.simplify`
    is not part of this model; it is the parameter `simplify`. */
module SearchData {
  import opened Strings
  import opened Entities

  /** An entry of `searchstrings`: the sutta, its blob lowercased, its blob
      as written, and its simplified name. */
  datatype SearchEntry = SearchEntry(sutta: Sutta, blob: string, blobCased: string, nameSimplified: string)

  /** The language codes of a sutta's translations, in list order. */
  function LangCodes(ts: seq<Translation>): (r: seq<string>)
    ensures |r| == |ts|
    ensures forall i :: 0 <= i < |ts| ==> r[i] == ts[i].lang.code
  {
    seq(|ts|, i requires 0 <= i < |ts| => ts[i].lang.code)
  }

  /** The ten fields of the blob, in order; a missing alternative acronym
      or volpage is the empty string. */
  function BlobFields(s: Sutta, ts: seq<Translation>): seq<string>
    requires s.lang.Some?
  {
    [s.uid, s.lang.value.code, s.acronym, OrEmpty(s.altAcronym), s.name, s.codedName, s.plainName,
     s.volpageInfo, OrEmpty(s.altVolpageInfo), Join("  ", LangCodes(ts))]
  }

  /** `"  {}  ".format(x)` */
  function Framed(x: string): string { "  " + x + "  " }

  /** The cased blob: the fields joined by two spaces, framed by two. */
  function CasedBlob(s: Sutta, ts: seq<Translation>): string
    requires s.lang.Some?
  {
    Framed(Join("  ", BlobFields(s, ts)))
  }

  /** The entry of sutta `s` with translations `ts`. */
  function Entry(s: Sutta, ts: seq<Translation>, simplify: (string, string) -> string): SearchEntry
    requires s.lang.Some?
  {
    var cased := CasedBlob(s, ts);
    SearchEntry(s, Lower(cased), cased, Framed(simplify(s.name, s.lang.value.code)))
  }

  /** A part of a join, with separators around it, occurs in the join
      with separators around it. */
  lemma {:induction false} JoinHasPart(sep: string, parts: seq<string>, i: int)
    requires 0 <= i < |parts|
    ensures Contains(sep + Join(sep, parts) + sep, sep + parts[i] + sep)
    decreases |parts|
  {
    if |parts| == 1 {
      assert sep + Join(sep, parts) + sep == "" + (sep + parts[i] + sep) + "";
      ContainsConcat("", sep + parts[i] + sep, "");
    } else if i == 0 {
      var rest := Join(sep, parts[1..]);
      assert sep + Join(sep, parts) + sep == "" + (sep + parts[0] + sep) + (rest + sep);
      ContainsConcat("", sep + parts[0] + sep, rest + sep);
    } else {
      var rest := Join(sep, parts[1..]);
      JoinHasPart(sep, parts[1..], i - 1);
      assert parts[1..][i - 1] == parts[i];
      assert sep + Join(sep, parts) + sep == (sep + parts[0]) + (sep + rest + sep) + "";
      ContainsMonotone(sep + parts[i] + sep, sep + rest + sep, sep + parts[0], "");
    }
  }

  lemma LowerSlice(s: string, i: int, j: int)
    requires 0 <= i <= j <= |s|
    ensures Lower(s)[i..j] == Lower(s[i..j])
  {
  }

  /** Lowercasing keeps every occurrence. */
  lemma LowerContains(s: string, sub: string)
    requires Contains(s, sub)
    ensures Contains(Lower(s), Lower(sub))
  {
    var i :| 0 <= i <= |s| - |sub| && OccursAt(s, sub, i);
    LowerSlice(s, i, i + |sub|);
    assert OccursAt(Lower(s), Lower(sub), i);
  }

  /** Every field of the blob occurs in it as a word framed by two spaces,
      in the cased blob and, lowercased, in the lowercased one; the blob
      itself starts and ends with two spaces. */
  lemma BlobHasFields(s: Sutta, ts: seq<Translation>, i: int)
    requires s.lang.Some? && 0 <= i < 10
    ensures StartsWith(CasedBlob(s, ts), "  ")
    ensures CasedBlob(s, ts)[|CasedBlob(s, ts)| - 2..] == "  "
    ensures Contains(CasedBlob(s, ts), Framed(BlobFields(s, ts)[i]))
    ensures Contains(Lower(CasedBlob(s, ts)), Framed(Lower(BlobFields(s, ts)[i])))
  {
    var f := BlobFields(s, ts)[i];
    JoinHasPart("  ", BlobFields(s, ts), i);
    LowerContains(CasedBlob(s, ts), Framed(f));
    LowerFramed(f);
    var b := CasedBlob(s, ts);
    assert b[..2] == "  ";
    assert b[|b| - 2..] == "  ";
  }

  lemma LowerFramed(x: string)
    ensures Lower(Framed(x)) == Framed(Lower(x))
  {
    assert forall i :: 0 <= i < |Framed(x)| ==> Lower(Framed(x))[i] == Framed(Lower(x))[i];
  }

  /** The entry's blob is its cased blob lowercased, so it holds the
      sutta's lowercased uid as a framed word; its simplified name is
      framed too. */
  lemma EntryShape(s: Sutta, ts: seq<Translation>, simplify: (string, string) -> string)
    requires s.lang.Some?
    ensures Entry(s, ts, simplify).sutta == s
    ensures Entry(s, ts, simplify).blob == Lower(Entry(s, ts, simplify).blobCased)
    ensures Contains(Entry(s, ts, simplify).blob, Framed(Lower(s.uid)))
    ensures Contains(Entry(s, ts, simplify).blobCased, Framed(s.name))
    ensures StartsWith(Entry(s, ts, simplify).nameSimplified, "  ")
  {
    BlobHasFields(s, ts, 0);
    BlobHasFields(s, ts, 4);
  }
}
