/** The search result containers of src/classes.py: `SearchResults`, a
    query with a list of categories, and `ResultsCategory` with its three
    subclasses, a list of titled sections. A `SuttaSection` has the same
    shape as a `ResultSection`, so one `Section` datatype serves both. */
module Results {
  import opened Wrappers

  datatype Section<T> = Section(title: string, results: seq<T>)

  /** Which class a category is: its class attributes `type` and `caption`. */
  datatype Kind = Generic | SuttaKind | DictionaryKind | FulltextKind

  /** The `type` attribute: `None` on the base class only. */
  function TypeName(k: Kind): (r: Option<string>)
    ensures r.None? <==> k == Generic
  {
    match k
    case Generic => None
    case SuttaKind => Some("sutta")
    case DictionaryKind => Some("dict")
    case FulltextKind => Some("fulltext")
  }

  /** The `caption` attribute: set on exactly the classes that set `type`. */
  function Caption(k: Kind): (r: Option<string>)
    ensures r.None? <==> TypeName(k).None?
  {
    match k
    case Generic => None
    case SuttaKind => Some("Suttas:")
    case DictionaryKind => Some("Dictionaries:")
    case FulltextKind => Some("Texts:")
  }

  /** The class attributes tell the classes apart: no two kinds share a
      `type` or a `caption`, and a category has a caption exactly when it
      has a type. */
  lemma KindTags(k1: Kind, k2: Kind)
    ensures TypeName(k1) == TypeName(k2) ==> k1 == k2
    ensures Caption(k1) == Caption(k2) ==> k1 == k2
    ensures TypeName(k1).Some? <==> Caption(k1).Some?
  {
  }

  /** `self.sections[-1][1].append(row)` on the list of sections: an
      `IndexError` when there is none; otherwise only the last section's
      results grow, by `row` at their end. */
  function AddRowTo<T>(sections: seq<Section<T>>, row: T): (r: Result<seq<Section<T>>, string>)
    ensures sections == [] <==> r.Err?
    ensures r.Ok? ==>
              |r.value| == |sections| &&
              r.value[..|sections| - 1] == sections[..|sections| - 1] &&
              r.value[|sections| - 1].title == sections[|sections| - 1].title &&
              r.value[|sections| - 1].results == sections[|sections| - 1].results + [row]
  {
    if sections == [] then Err("IndexError: list index out of range")
    else
      var last := sections[|sections| - 1];
      Ok(sections[..|sections| - 1] + [Section(last.title, last.results + [row])])
  }

  /** Every row added lands in one section: the rows of all sections grow
      by exactly one. */
  function RowCount<T>(sections: seq<Section<T>>): nat
  {
    if sections == [] then 0 else RowCount(sections[..|sections| - 1]) + |sections[|sections| - 1].results|
  }

  lemma AddRowCounts<T>(sections: seq<Section<T>>, row: T)
    requires sections != []
    ensures AddRowTo(sections, row).Ok?
    ensures RowCount(AddRowTo(sections, row).value) == RowCount(sections) + 1
  {
    var r := AddRowTo(sections, row).value;
    assert r[..|r| - 1] == sections[..|sections| - 1];
  }

  class ResultsCategory<T> {
    const kind: Kind
    var sections: seq<Section<T>>
    var total: Option<int>
    /** The attribute `search` sets for a "more results" link. */
    var footurl: Option<string>

    /** `ResultsCategory(sections, total)`; `sections or []` makes a missing
        list empty. */
    constructor(kind: Kind, sections: seq<Section<T>>, total: Option<int>)
      ensures this.kind == kind && this.sections == sections && this.total == total
      ensures footurl == None
    {
      this.kind := kind;
      this.sections := sections;
      this.total := total;
      footurl := None;
    }

    /** `add(title, entries)`: a new section at the end. */
    method Add(title: string, entries: seq<T>)
      modifies this
      ensures sections == old(sections) + [Section(title, entries)]
      ensures total == old(total) && footurl == old(footurl)
    {
      sections := sections + [Section(title, entries)];
    }

    /** `add_row(row)`: the row goes to the most recently added section. */
    method AddRow(row: T) returns (r: Result<(), string>)
      modifies this
      ensures var res := AddRowTo(old(sections), row);
              (res.Ok? ==> sections == res.value && r == Ok(())) &&
              (res.Err? ==> sections == old(sections) && r == Err(res.error))
      ensures total == old(total) && footurl == old(footurl)
    {
      if sections == [] {
        r := Err("IndexError: list index out of range");
      } else {
        var last := sections[|sections| - 1];
        sections := sections[..|sections| - 1] + [Section(last.title, last.results + [row])];
        r := Ok(());
      }
    }
  }

  class SearchResults<T> {
    const query: string
    var categories: seq<ResultsCategory<T>>

    constructor(query: string, categories: seq<ResultsCategory<T>>)
      ensures this.query == query && this.categories == categories
    {
      this.query := query;
      this.categories := categories;
    }

    /** `add(category)` appends it. */
    method Add(category: ResultsCategory<T>)
      modifies this
      ensures categories == old(categories) + [category]
    {
      categories := categories + [category];
    }
  }
}
