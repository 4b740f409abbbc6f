# SuttaCentral in-memory database, in Dafny

This project models the core of SuttaCentral's Python back end and proves
properties of the model. That core has three parts:

- **The in-memory database `_IMM`** (src/imm.py), with the value classes and
  text collections it is made of (src/classes.py):
  - the sutta tree of subdivisions, vaggas and suttas;
  - the translations and parallels of each sutta;
  - the text collections keyed by url path;
  - the search strings;
  - the table of text paths;
  - the md5 consistency check over the whole object graph.
- **The helpers of sc/util.py:** the natural sort keys and the `TimedCache`.
- **Search and export:**
  - the sutta search with its ranking and paging (python/suttasearch.py);
  - the two scripts that export the database as CSV rows
    (utility/dbredo.py and utility/mysql_to_csv.py).

Each source file keeps its own form in the model:

- Pure computations are functions over datatypes.
- Code that updates state step by step is a method with loop invariants,
  proved against a specification function. Examples are the table-building
  loops, the eviction loop, the `atomicfy` worklist and the export loops.
- Objects whose methods change their fields are classes: `_IMM`,
  `TimedCache`, `TextCollection`, `ResultsCategory` and `SearchResults`.

Python semantics the model relies on:

- `PyValue` models Python's `<` on ints, strings and lists, including the
  `TypeError` of comparing an int with a string.
- `Sorting` models a stable `sort(key=...)`. Every sort in the source is
  that sort, applied to a key built from `PyValue` values.

Modelling conventions:

- **Object graph:** the graph is an arena. Suttas are named by uid, and a
  subdivision's or vagga's list of suttas is a list of uids.
- **Heap:** for `atomicfy`, the heap is a map from handles to nodes.
- **Outside inputs:**
  - `hashlib.md5` is a function parameter.
  - `textfunctions.simplify` and `simplify_pali` are function parameters.
  - The search bonus computed with `math.log` is a real-valued parameter.
  - The clock is a parameter.
  - The files found under the text root are a list.
- **Database tables:**
  - Rows arriving from the database are given as sequences of records.
  - Tables keyed by id are given as maps.

Where the code and its own comments disagree, the model follows the code:

- **Translation order.** The docstring of `Translation.sort_key`
  (src/classes.py:125-128) names only the language id and the sequence
  number. The key itself (src/classes.py:129) first puts translations with
  an internal url (one starting with `/`) before the others.
- **Parallel order.** The docstring of `Parallel.sort_key`
  (src/classes.py:101-107) puts full before partial first, then language.
  The key (src/classes.py:114-118) orders by the swapped language id first,
  then partial. The model follows the key.
- **Unknown sutta in a reference row.** `build_references` records the
  error with `self.errors.append` (src/imm.py:296-297), evidently meaning to
  go on with the next row. The code goes on with the previous row's `uid`
  (see Findings).

Quirks of the code the model keeps:

- `fix_lang_uid` tests `uid in ('ot')`, a substring test on the string
  `"ot"`. So the empty code, `o` and `t` also become `oth`.
- `mysql_to_csv.py` rewrites collection language codes with
  `replace('ot', 'oth')`, so `oth` becomes `othh`.
- `search_dbr` casefolds the query for the blob test but simplifies the raw
  query for the name test, while `Ranker` simplifies the casefolded query.
- The section title "Similiar results" keeps the source's spelling.

Parts of `_IMM` that cannot run as written are modelled by their evident
intent:

- Several names are never defined: `db`, `self.collection_languages`,
  `self.reference_languages`, `uids` and `self.errors`.
- `self.divisions[-1]` indexes an `OrderedDict` by position.
- The call `Vagga(uid=...)` does not match the fields of `Vagga`.

The module comments say where each of these applies.

## Model

| member | source | states |
|---|---|---|
| NaturalSort.SplitDigits | sc/util.py:89-90 | the pieces of `regex.split(r'(\d+)', s)` alternate between text with no digit and non-empty digit runs, the first piece is the text before the first digit, and they concatenate back to `s` |
| NaturalSort.SplitDigitsUnique | sc/util.py:89-90 | any alternating sequence of that shape that concatenates to `s` is the split of `s` |
| NaturalSort.NumericSortKeyShape | sc/util.py:72-90 | the key is a list of odd length holding ints exactly at the odd positions and strings at the even ones |
| NaturalSort.NumericKeysComparable | sc/util.py:72-78 | two keys always compare without a `TypeError` |
| NaturalSort.KeyFromParts | sc/util.py:89-90 | the key of `s` is read off any digit split of `s`: ints of the digit runs, the text kept as strings |
| NaturalSort.SplitNumbers | sc/util.py:92-104 | the pieces of the split on `\d+(?:[.-]\d+)*` alternate between text with no digit and number runs, and concatenate back to the string |
| NaturalSort.NumberRunShape | sc/util.py:92 | the number run the pattern takes starts and ends with a digit and holds only digits, dots and dashes |
| NaturalSort.HumanKeysComparable | sc/util.py:92-104 | two `humansortkey` lists always compare without a `TypeError` |
| NaturalSort.DottedNumericOrder | sc/util.py:80-84 | under `numericsortkey`, `1 < 1.1 < 1.1.1 < ...`, while `1.txt`, `1.1.txt`, ... sort in the reverse order |
| NaturalSort.NumericSortDottedExample | sc/util.py:80-81 | `sorted(['1', '1.1', '1.1.1'], key=numericsortkey)` keeps the order |
| NaturalSort.NumericSortTxtExample | sc/util.py:83-84 | `sorted(['1.txt', '1.1.txt', '1.1.1.txt'], key=numericsortkey)` reverses it |
| NaturalSort.DottedHumanOrder | sc/util.py:92-99 | under `humansortkey`, `1.txt < 1.1.txt < 1.1.1.txt < ...` |
| NaturalSort.HumanSortTxtExample | sc/util.py:98-99 | `sorted(['1.txt', '1.1.txt', '1.1.1.txt'], key=humansortkey)` keeps the order |
| NaturalSort.DigitPiecesNumeric | src/imm.py:40-41 | on a digit split, `isnumeric()` holds exactly for the pieces at odd positions |
| NaturalSort.NumSortKeyIsNumericSortKey | src/imm.py:26-41 | `numsortkey` of a string is its `numericsortkey`; of a `None` field it is the empty list |
| Cache.EvictSuffix | sc/util.py:126-138 | the eviction pass pops a prefix of the queue, deletes only keys it popped and keeps every other value unchanged |
| Cache.EvictStopsAtFresh | sc/util.py:129-135 | when the pass ends without a `KeyError` on a non-empty queue, the front entry is within its lifetime and the queue is at most one longer than `maxsize` |
| Cache.EvictNormal | sc/util.py:126-146 | in normal use (each key queued once, queue keys = stored keys) the pass never raises and normal use is kept |
| Cache.SetKeepsNormal | sc/util.py:142-148 | setting a key not in the cache keeps normal use |
| Cache.SetThenGet | sc/util.py:126-148 | a value set within its lifetime is found by the next get |
| Cache.LastEntrySurvives | sc/util.py:129-135 | the newest entry, within its lifetime, is never evicted |
| Cache.NeverSetMisses | sc/util.py:126-140 | a key never set is not found, however the pass goes |
| Cache.SetAscending | sc/util.py:142-148 | setting at a time no earlier than the newest entry keeps the deque's times ascending |
| Cache.EvictAscending | sc/util.py:124-138 | an eviction pass keeps the deque's times ascending |
| Cache.FreshLookup | sc/util.py:105-110 | in normal use with ascending times, a value that a read returns belongs to an entry still in the deque that is at most `lifetime` old: the returned object is never older than the lifetime |
| Cache.TimedCache.constructor | sc/util.py:120-124 | an empty queue and store with the given lifetime and size |
| Cache.TimedCache.Get | sc/util.py:126-140 | the new queue and store are those of the eviction pass at `now`, and the result is the stored value, the `KeyError` of the lookup, or the one the pass raised |
| Cache.TimedCache.Set | sc/util.py:142-148 | the entry `(now, key)` is queued and the value stored |
| Cache.TimedCache.Contains | sc/util.py:150-151 | always the `RuntimeError` with its message |
| Entities.OrEmpty | src/imm.py:431-441 | `o or ''`: the string when it is non-empty, else the empty string |
| Entities.LangHack | src/classes.py:108-113 | languages 1 and 2 trade places and every other id is kept |
| Entities.LangHackInvolution | src/classes.py:108-113 | `langhack` is its own inverse |
| Entities.ParallelOrder | src/classes.py:100-118 | two parallel keys always compare, as the lexicographic order of (swapped language id, partial, subdivision id, number) |
| Entities.FullBeforePartial | src/classes.py:102-118 | within one language a full parallel sorts before a partial one |
| Entities.LanguageTwoFirst | src/classes.py:108-118 | a parallel in language 2 sorts before one in language 1 or any higher id |
| Entities.TranslationOrder | src/classes.py:123-129 | internal (`/`) urls first; otherwise by language id, then sequence number |
| Entities.HasSubdivisionsMeaning | src/classes.py:166-167 | with distinct subdivision uids, `has_subdivisions` holds exactly when the division lists two different subdivisions; a division whose only subdivision is its `-nosub` placeholder has none |
| Results.AddRowTo | src/classes.py:206-208 | with no section it is the `IndexError`; otherwise only the last section changes, with the row appended |
| Results.AddRowCounts | src/classes.py:206-208 | adding a row to a non-empty listing adds one row to the count |
| Results.TypeName | src/classes.py:198-223 | the `type` class attribute of each results class: `None` exactly on the base class, `'sutta'`, `'dict'` and `'fulltext'` on the three subclasses |
| Results.Caption | src/classes.py:198-223 | the `caption` class attribute: `None` exactly when `type` is `None`, that is on the base class, `'Suttas:'`, `'Dictionaries:'` and `'Texts:'` on the subclasses |
| Results.KindTags | src/classes.py:198-223 | no two classes share a `type` or a `caption`, and a class has a caption exactly when it has a type |
| Results.ResultsCategory.constructor | src/classes.py:201-203 | the given sections and total, no foot url |
| Results.ResultsCategory.Add | src/classes.py:204-215 | a new section `(title, entries)` at the end, nothing else changed |
| Results.ResultsCategory.AddRow | src/classes.py:206-208 | the row goes to the last section, or the error when there is none |
| Results.SearchResults.constructor | src/classes.py:191-193 | the query and the categories |
| Results.SearchResults.Add | src/classes.py:194-195 | the category is appended |
| Sorting.Insert | src/classes.py:253-256 | one insertion step adds exactly the element |
| Sorting.SortBy | src/classes.py:253-256 | `sort(key=...)` keeps every element (a permutation) |
| Sorting.SortBySorted | src/classes.py:253-256 | when the keys compare, no later element has a key below an earlier one |
| Sorting.SortTwice | src/imm.py:232-233 | sorting by `k1` and then, stably, by `k2` orders by the pair `(k2, k1)` |
| Sorting.SortThreeKept | sc/util.py:80-81 | three elements already in key order stay put |
| Sorting.SortThreeReversed | sc/util.py:83-84 | three elements in strictly decreasing key order are reversed |
| Sorting.SortValuesSorted | src/classes.py:253-256 | sorting each list of a table keeps the keys, and each list becomes a permutation of itself in key order |
| Sorting.SortEach | src/classes.py:253-256 | the loop over the lists sorts each of them |
| TextCollections.NormalizePathIsLeftmostMatch | src/classes.py:258-260 | the normalised path is the longest prefix of `path[1:]` before the leftmost place where `/?(#.+)?$` matches the rest |
| TextCollections.NormalizeTrailingSlash | src/classes.py:258-260 | `/<base>/` normalises to `<base>` |
| TextCollections.NormalizeAnchor | src/classes.py:258-260 | `/<base>#<anchor>` normalises to `<base>` |
| TextCollections.NormalizeSlashAnchor | src/classes.py:258-260 | `/<base>/#<anchor>` normalises to `<base>` |
| TextCollections.ValidPathIsGrammar | src/classes.py:262-263 | the scan accepts exactly the paths `<[-.a-z0-9]+>/<[a-z]+>`, both directions |
| TextCollections.ValidPathAccepts | src/classes.py:262-263 | `dn1/en` is a valid path |
| TextCollections.ValidPathRejectsDigits | src/classes.py:262-263 | `dn/1` is not: the part after the slash is letters only |
| TextCollections.ValidPathRejectsNoSlash | src/classes.py:262-263 | `dn1` is not: a slash is needed |
| TextCollections.ValidPathExamples | src/classes.py:262-263 | the three cases together |
| TextCollections.FragmentNumberRoundTrip | src/classes.py:274-281 | a url ending in `#N` has the key `(N, 0)` |
| TextCollections.FragmentRangeRoundTrip | src/classes.py:274-281 | a url ending in `#N-M` has the key `(N, M)` |
| TextCollections.NoFragmentKey | src/classes.py:279-281 | a url without `#` has the key `(0, 0)` |
| TextCollections.AddResult | src/classes.py:242-251 | a url not hosted here changes nothing; a hosted url whose normalised path is invalid is the error with that path; otherwise the object is appended to the list at its path, a new list when there was none, and no other list changes |
| TextCollections.AddOneAt | src/classes.py:242-251 | after one add, the list at any path is the old one plus the object exactly when the object is filed under that path |
| TextCollections.AddAllAt | src/classes.py:242-251 | after a series of adds, the list at a path is the old list followed by the objects filed under it, in order |
| TextCollections.SuttaKeysComparable | src/classes.py:268-269 | sutta numbers always compare |
| TextCollections.TranslationKeysComparable | src/classes.py:274-281 | fragment keys always compare |
| TextCollections.TextCollection.constructor | src/classes.py:238-240 | an empty collection with its url reader and list key |
| TextCollections.TextCollection.Add | src/classes.py:242-251 | the collection becomes what `AddResult` gives, or stays and reports the invalid path |
| TextCollections.TextCollection.SortLists | src/classes.py:253-256 | every list is sorted by the list key, the keys unchanged |
| TextCollections.SuttaTexts | src/classes.py:265-269 | an empty collection keyed by sutta url, sorted by sutta number |
| TextCollections.TranslationTexts | src/classes.py:271-281 | an empty collection keyed by translation url, sorted by the fragment key |
| TextCollections.AddEach | src/imm.py:303-309 | adding each object in turn gives `AddAll` |
| TextPaths.PathsOfMeaning | src/imm.py:448-465 | the walk succeeds exactly when no two files share a language and a uid, and then the table holds one entry per file, `[lang][uid]` to its joined path, and nothing else |
| TextPaths.DropHtmlSuffix | src/imm.py:463 | `name.replace('.html', '')` gives back the uid of `<uid>.html` when the uid has no `.html` in it |
| TextPaths.DocExample | src/imm.py:453-455 | `text_root/pi/sn/56/sn56.11.html` is found under `('pi', 'sn56.11')` |
| TextPaths.BuildTextPaths | src/imm.py:457-465 | the loop over the files gives `PathsOf`: the table, or the first file whose key is already taken |
| TextPaths.PathsErr | src/imm.py:464 | once the assertion fails, the rest of the files do not matter |
| SearchData.LangCodes | src/imm.py:437-438 | one code per translation, in order |
| SearchData.BlobHasFields | src/imm.py:427-439 | the cased blob starts and ends with two spaces and holds every field framed by two spaces, and the lowered blob every lowered field |
| SearchData.LowerContains | src/imm.py:441 | lowercasing keeps every occurrence |
| SearchData.EntryShape | src/imm.py:427-446 | the entry pairs the sutta with its lowered blob, which holds its framed lowercase uid; the cased blob holds its framed name; the simplified name is framed |
| SuttaTree.ResolvedSutta | src/imm.py:181-227 | the sutta keeps the row's id, uid, number, url and subdivision id, takes the uid of its subdivision row and the id of that subdivision's division, and has a biblio entry exactly when the row's biblio id is found |
| SuttaTree.Problems | src/imm.py:186-204 | an invalid-biblio error is logged exactly for a non-zero biblio id that is not found, an invalid-vagga error exactly for a non-zero vagga id not found, and an invalid-language error exactly when the collection language is not found |
| SuttaTree.Resolved | src/imm.py:180-227 | one `(uid, sutta)` pair per row, in table order |
| SuttaTree.ResolveAll | src/imm.py:180-227 | the loop over the sutta rows gives the pairs of `Resolved` and the problems of `AllProblems` |
| SuttaTree.CompoundKeyMeaning | src/imm.py:232-233 | after the two sorts, neighbours are ordered by division id and, within a division, by `numsortkey` of the uid |
| SuttaTree.OrderPairsSorted | src/imm.py:232-233 | the two sorts keep every pair (a permutation) and leave the pairs ordered by division id, then by uid key |
| SuttaTree.OrderedDictOf | src/imm.py:235 | `OrderedDict(suttas)`: the key order holds each uid once, and the keys are exactly the uids of the pairs |
| SuttaTree.OrderedDictKeys | src/imm.py:235 | a uid is a key exactly when some pair carries it |
| SuttaTree.OrderedDictLastWins | src/imm.py:235 | the value of a uid is that of its last pair |
| SuttaTree.OrderedDictDistinct | src/imm.py:235 | with distinct uids, the key order is the pair order and each pair gives its value |
| SuttaTree.OrderedDictValues | src/imm.py:235 | every entry of the dictionary is one of the pairs |
| SuttaTree.WhereCount | src/imm.py:237-238 | a filter of the sutta order holds a sutta once when it has the key and is in the order, and otherwise not at all |
| SuttaTree.WhereIn | src/imm.py:237-238 | the members of a filter are suttas of the order |
| SuttaTree.FillSubdivisions | src/imm.py:237-238 | each subdivision's sutta list is the sutta order restricted to that subdivision |
| SuttaTree.SuttaInOneSubdivision | src/imm.py:237-238 | a sutta is in the list of its own subdivision once and in no other |
| SuttaTree.ResolvedPlaced | src/imm.py:206-226 | a resolved sutta's subdivision is built and its vagga, when found, is a real vagga |
| SuttaTree.PlacedAll | src/imm.py:180-235 | every sutta of the dictionary is placed so |
| SuttaTree.PlaceSutta | src/imm.py:251-268 | one pass of the bottom-up loop keeps the description of the vagga lists for the suttas seen so far |
| SuttaTree.AttachToVaggas | src/imm.py:251-268 | every real vagga gets a sutta list, and a subdivision's null vagga (id 0) exists exactly when one of its suttas has no vagga; each vagga's list is the sutta order restricted to that vagga, and each subdivision's vagga list holds just its null vagga when it has one |
| SuttaTree.SuttaInOneVagga | src/imm.py:251-268 | each sutta is in the list of exactly one vagga: its own, or its subdivision's null vagga |
| SuttaTree.HomedInCount | src/imm.py:271-283 | a real vagga of the vagga table is attached to its home subdivision once and to no other |
| SuttaTree.AttachVagga | src/imm.py:271-283 | attaching one vagga appends it to the list of its home, the subdivision of its first sutta or else its own, and changes no other list |
| SuttaTree.AttachVaggas | src/imm.py:271-283 | after the loop over the vaggas, each subdivision's list is the old list followed by the vaggas whose home it is, in table order |
| SuttaTree.VaggaInOneSubdivision | src/imm.py:251-283 | each real vagga is listed once, under its home; a subdivision's null vagga is listed exactly when a sutta needs it, and then first |
| SuttaTree.BuildTree | src/imm.py:180-283 | from the rows, with the vagga order holding each vagga key once: the sutta dictionary of the sorted pairs, the logged problems, each subdivision's sutta list, each vagga's sutta list and each subdivision's vagga list, all as described above; and every real vagga is in exactly one subdivision's vagga list, once, under its home |
| References.RowStep | src/imm.py:292-306 | one more reference row adds a translation when its sutta id is known and records nothing otherwise |
| References.OfSuttaStep | src/imm.py:292-306 | seen from one sutta, a row adds to its list exactly when the row names that sutta |
| References.TranslationsFrom | src/imm.py:292-306 | each translation of a sutta comes from a row naming that sutta |
| References.TranslationsTo | src/imm.py:292-306 | each row naming a known sutta gives that sutta its translation |
| References.TranslationsMeaning | src/imm.py:292-306 | both directions: a translation is in a sutta's list exactly when some row naming that sutta gives it |
| References.ErrorsFrom | src/imm.py:294-297 | each message recorded belongs to a row whose sutta id is not in the sutta table |
| References.ErrorsTo | src/imm.py:294-297 | every such row records the message `'<sutta id> missing in sutta (<key>)'` |
| References.ErrorsLast | src/imm.py:294-297 | the messages after one more row are the earlier ones and, for an unknown sutta id, that row's message |
| References.ErrorsOfLast | src/imm.py:294-297 | the last row, when its sutta id is not in the sutta table, records its message |
| References.ErrorsMeaning | src/imm.py:294-297 | both directions: a message is recorded exactly when some row with an unknown sutta id gives it |
| References.AppendedSnoc | src/imm.py:304 | `sutta.translations.append(translation)` adds the translation at the end of its sutta's list and leaves the others alone |
| References.NoRowsYet | src/imm.py:289-292 | before the first row nothing is appended and no error is recorded |
| References.AsWrittenMisfiles | src/imm.py:292-306 | as written, a row with an unknown sutta id is filed under the previous row's sutta, and raises as a first row; `Translations` files only the known row and `Errors` records the other |
| ImmDatabase.ChecksOnceStored | src/imm.py:498-509 | once a digest is stored it never changes, and each later check raises exactly when an exception was given and its digest differs |
| ImmDatabase.StoredOnce | src/imm.py:498-509 | the first check stores its digest and does not raise; each later check raises exactly when an exception was given and its digest differs from the first |
| ImmDatabase.TranslationKeysComparable | src/imm.py:391-393 | translation sort keys always compare (also src/classes.py:123-129) |
| ImmDatabase.SortedTranslations | src/imm.py:391-393 | each sutta's sorted translations are a permutation of its list, internal urls first, stable |
| ImmDatabase.WithParallels | src/imm.py:395-415 | the three loops leave the set of suttas with parallel lists unchanged |
| ImmDatabase.ParallelKeysComparable | src/imm.py:418-420 | parallel sort keys always compare (also src/classes.py:100-118) |
| ImmDatabase.BuiltParallels | src/imm.py:395-420 | when no parallel's sutta lacks a language, each sutta's sorted parallels are a permutation of its old list plus its full, indirect and partial parallels, with the flags the loops set, ordered by the parallel sort key |
| ImmDatabase.SearchEntries | src/imm.py:422-446 | one search entry per sutta, in sutta order |
| ImmDatabase.SearchEntriesShape | src/imm.py:422-446 | each entry pairs its sutta with the lowercased cased blob, which holds the framed lowercase uid, and a simplified name framed by spaces |
| ImmDatabase.InOrder | src/imm.py:237 | `self.suttas.values()`: the suttas of the key order, in order |
| ImmDatabase.EmptyLists | src/imm.py:223-224 | an empty list for each sutta |
| ImmDatabase.Imm.constructor | src/imm.py:55-61 | the given top-level tables, with the vagga order holding each key of the vagga table exactly once (the keys of the `OrderedDict` `self.vaggas`), and nothing built yet |
| ImmDatabase.Imm.Call | src/imm.py:69-77 | the first of collections, divisions, subdivisions and suttas that holds the uid, and `None` exactly when none does |
| ImmDatabase.Imm.BuildSuttas | src/imm.py:79-287 | the sutta dictionary, problems and tree of `SuttaTree.BuildTree`, the sutta text collection, and empty translation and parallel lists |
| ImmDatabase.Imm.AssembleTree | src/imm.py:180-283 | the sutta dictionary, problems and tree of `SuttaTree.BuildTree` stored in the fields |
| ImmDatabase.Imm.MakeSuttaTexts | src/imm.py:240-247 | the sutta text collection holds every sutta under its url, in sutta order, each list sorted by sutta number; every sutta gets empty translation and parallel lists |
| ImmDatabase.NewSuttaTexts | src/imm.py:240-247 | a new collection keyed by sutta url, filled with the suttas in order and sorted |
| ImmDatabase.AddReference | src/imm.py:292-313 | one reference row: its translation appended to its sutta and filed in the translation texts, or its error message recorded |
| ImmDatabase.AddReferences | src/imm.py:289-315 | the translations of `References.Translations` appended in order, the errors of `References.Errors` recorded, and a new translation text collection holding them, sorted |
| ImmDatabase.Imm.BuildReferences | src/imm.py:289-315 | the same, on the database's fields |
| ImmDatabase.Imm.BuildParallelsData | src/imm.py:317-389 | when both case suttas 16 and 4218 are suttas (else the `KeyError` of src/imm.py:380), `parallels_data` holds the listings, with uids, of the full table, the indirect table and the partial table built from the correspondence rows, each as `test()` has left it, with an empty entry for an absent case sutta |
| ImmDatabase.Imm.SortTranslations | src/imm.py:391-393 | every translation list is sorted by the translation sort key |
| ImmDatabase.Imm.BuildParallels | src/imm.py:395-420 | `parallels_data` is deleted and the records are appended as `WithParallels` says; the `AttributeError` of `Parallel.sort_key` (src/classes.py:114) is reported exactly when some list holds a parallel whose sutta has no language (the `lang = None` of src/imm.py:201-204), and otherwise every list is sorted by the parallel sort key. On the error the lists stay unsorted, where the source has sorted those of the suttas before the failing one; the error ends the construction either way |
| ImmDatabase.Imm.BuildSearchData | src/imm.py:422-446 | the search strings are `SearchEntries` of the suttas in order |
| ImmDatabase.Imm.BuildTextPaths | src/imm.py:448-465 | the text paths of `TextPaths.PathsOf` on success, or the failed assertion's key. On failure the model leaves the table as it was, while the source has reset and partly filled `self.text_paths`; the failed assertion ends `__init__`, so nothing reads it |
| ImmDatabase.Imm.CheckMd5 | src/imm.py:498-509 | one step of `CheckStep`: the first digest is stored; later, a digest that differs raises the given exception, if there is one |
| ParallelData.LinksFromRows | src/imm.py:325-332 | a link `(a, b, note)` of one kind is inserted exactly when some row of that kind, with that note, joins `a` and `b` in either direction |
| ParallelData.LinksSymmetric | src/imm.py:325-332 | every link has its reverse in the same table |
| ParallelData.TableSymmetric | src/imm.py:325-332 | if `b` with a note is in `a`'s set, then `a` with that note is in `b`'s set |
| ParallelData.AdjacencyPut | src/imm.py:327-332 | one more `add` on the `defaultdict(set)` is one more link |
| ParallelData.BuildTables | src/imm.py:318-332 | the loop over the correspondence rows builds the full and partial tables of the rows' links |
| ParallelData.IndirectsMeaning | src/imm.py:334-343 | `q` is an indirect parallel of `a` exactly when `q` is a full parallel of some full parallel of `a` and is not `a` itself |
| ParallelData.IndirectsNoSelf | src/imm.py:340-343 | no sutta is its own indirect parallel |
| ParallelData.ChainOneHop | src/imm.py:334-343 | on a chain `a - b - c - d`, the indirect parallels of `a` are just `c`: one hop, not the transitive closure |
| ParallelData.TriangleKeepsDirect | src/imm.py:334-344 | a sutta that is both a direct and an indirect parallel stays in both tables (the removal of the direct ones is commented out) |
| ParallelData.PartialsNotExpanded | src/imm.py:327-332 | partial rows add nothing to the full table |
| ParallelData.Expand | src/imm.py:336-338 | the inner loop over a sutta's full parallels gathers the full sets of those that have one, and reports whether any does |
| ParallelData.IndirectsPointwise | src/imm.py:334-343 | a table with the keys and sets of `Indirects` is `Indirects` |
| ParallelData.BuildIndirects | src/imm.py:334-343 | the two loops build the indirect table `Indirects` of the full table |
| ParallelData.SetToSeq | src/imm.py:377-388 | iterating a set lists its members, each once |
| ParallelData.ListTable | src/imm.py:377-388 | iterating a table's items lists each key once with a listing of its set |
| ParallelData.ToUids | src/imm.py:377-388 | each id, of a key and of each parallel, is replaced by its sutta's uid, lengths and notes kept |
| ParallelData.AdjacencyKnown | src/imm.py:325-332 | when both ends of every row name a sutta, so does every id of its table, which lines 377-388 look up |
| ParallelData.IndirectsKnown | src/imm.py:334-343 | and then every id of the indirect table too, which lines 377-388 look up |
| ParallelData.ListingKnown | src/imm.py:377-388 | the listing of such a table only mentions known ids |
| ParallelData.UidListing | src/imm.py:377-388 | a table listed with its ids turned into uids |
| ParallelData.BuildParallelsData | src/imm.py:317-389 | when both case suttas are suttas, the three buckets, fulls, indirects and partials, list their tables with uids, after `test()` has inserted an empty set under each absent case sutta |
| ParallelData.ReadDefault | src/imm.py:319-321 | reading a `defaultdict(set)` adds the key with an empty set when it is absent, and keeps every other entry |
| ParallelData.CaseTouched | src/imm.py:362-365 | both case suttas become keys; existing entries are kept, and the added ones are empty |
| ParallelData.SelfTest | src/imm.py:345-376 | the loop over the two case suttas leaves each of the three tables as `CaseTouched` of it |
| ParallelData.CaseSuttasListed | src/imm.py:378-389 | every bucket lists an entry for each case sutta, whatever the rows, and that entry is empty exactly when the table had no parallels for it |
| ParallelData.Flagged | src/imm.py:401-415 | one `Parallel` per `(uid, note)` pair, in order, pointing at that uid's sutta with the bucket's flags |
| ParallelData.AppendBucket | src/imm.py:401-415 | the keys of the parallel lists do not change |
| ParallelData.AppendBucketPerSutta | src/imm.py:401-415 | after one bucket, a sutta's list is its old list followed by what its entries contribute |
| ParallelData.ContributionsMember | src/imm.py:401-415 | a parallel is contributed to `u` exactly when some entry for `u` lists its sutta and note |
| ParallelData.ListedContributions | src/imm.py:317-415 | both directions: a parallel is contributed to a sutta exactly when its table gives that sutta the parallel's id and note |
| ParallelData.ListedSnoc | src/imm.py:401-415 | one more entry adds exactly its records to what is listed |
| ParallelData.AppendFlagged | src/imm.py:403-405 | the inner loop appends one record per pair of the entry, in order |
| ParallelData.AppendAll | src/imm.py:401-415 | the loop over one bucket gives `AppendBucket` |
| Digest.Utf8Char | src/imm.py:538 | `str.encode()` of one character is one to four bytes |
| Digest.Utf8CharRoundTrip | src/imm.py:538 | the UTF-8 bytes of a character decode back to it, and it is one byte exactly when it is ASCII |
| Digest.Utf8Concat | src/imm.py:538 | encoding distributes over concatenation |
| Digest.Utf8OfAscii | src/imm.py:545-583 | the markers and decimal lengths yielded are encoded byte for byte |
| Digest.FragmentKinds | src/imm.py:532-583 | a non-empty string yields its UTF-8 bytes, a non-empty list or dict `l` and its length and pushes its items (both halves of each pair of a dict), and an int `n` and its digits |
| Digest.PairsLength | src/imm.py:555-557 | a dict pushes two objects per pair |
| Digest.PushedForMember | src/imm.py:555-564 | an object is pushed exactly when it is a child of an object visited |
| Digest.PushedForClosed | src/imm.py:555-564 | in a closed heap every object pushed is in the heap |
| Digest.Fragments | src/imm.py:527-583 | one fragment per visited object, in visit order |
| Digest.SkipTouched | src/imm.py:527-531 | an object met again is skipped and yields nothing |
| Digest.VisitOrder | src/imm.py:527-531 | the visit order starts at the start object, holds each object once, and every later object was pushed by an earlier one |
| Digest.VisitNew | src/imm.py:525-583 | an object met for the first time is visited: its fragment is yielded and its children pushed |
| Digest.ScanStep | src/imm.py:525-583 | one pass of the loop keeps the traversal description, and either leaves the state alone or visits a new object |
| Digest.Atomicfy | src/imm.py:511-583 | the fragments are those of the traversal from the start: each reachable object once, in the order of its first place on the stack that `for obj in stack` reads, and the final stack is the start followed by every object pushed |
| Digest.VisitedClosed | src/imm.py:511-583 | when the loop ends, the visit order is a complete traversal and is the first occurrences of the stack |
| Digest.FirstOccurrencesStep | src/imm.py:527-531 | reading one more place of a stack that may have grown adds the object there exactly when it was not touched before |
| Digest.NextVisit | src/imm.py:525-531 | in a traversal, the object visited `n`th is the `n`th first occurrence of what the first `n` visits pushed |
| Digest.TraversalUnique | src/imm.py:511-583 | two traversals from the same start have the same visit order and the same stack, so the contract of `atomicfy` fixes its fragments and its stack |
| Digest.DeepMd5 | src/imm.py:467-496 | the pair of digests: md5 of the joined fragments of the traversal, and md5 of the ids of every object on its final stack; by `TraversalUnique` both are determined by the heap and the start |
| SuttaSearch.MakeRanker | python/suttasearch.py:5-10 | the ranker keeps the query, its casefolded form and its simplified form; the word-start form is a space and the stripped query, and the whole-word form adds a space after it |
| SuttaSearch.TierOfBlob | python/suttasearch.py:16-21 | the tier is at most 200 exactly when the blob holds the word-start form, and at most 300 exactly when it also or instead holds the casefolded query |
| SuttaSearch.TierOfName | python/suttasearch.py:16-29 | the name tiers 1100 and 1200 are reached exactly by the simplified-name tests, and any match at all lands at 1200 or better, only no match at all at 10000 |
| SuttaSearch.UidRanksFirst | python/suttasearch.py:16-17 | a query that, casefolded and stripped, is the sutta's uid is a whole-word match of that sutta's entry: tier 100 (also src/imm.py:427-441) |
| SuttaSearch.FoundEntriesRanked | python/suttasearch.py:101-114 | an entry `search_dbr` finds on the blob ranks at 300 or better, and one it finds on the name ranks at 1200 or better when simplifying ignores letter case (the ranks of lines 16-29) |
| SuttaSearch.ExactIff | python/suttasearch.py:47-51 | a score is at most 700, an exact result, exactly when tier, bonus and division id add up to less than 710, with `int` truncating toward zero (line 84) |
| SuttaSearch.RankKeyOrder | python/suttasearch.py:63 | `(rank, sutta)` pairs compare, by rank and then by sutta id |
| SuttaSearch.RankKeysComparable | python/suttasearch.py:63 | sorting the pairs never raises |
| SuttaSearch.ListsCard | python/suttasearch.py:63-75 | a listing of the result set has one pair per entry, so `count` is the number of entries found |
| SuttaSearch.Pairs | python/suttasearch.py:63 | one `(ranker(s), s[0])` pair per entry, in order |
| SuttaSearch.Unzip | python/suttasearch.py:63 | `zip(*pairs)`: the ranks and the suttas, position by position |
| SuttaSearch.SortedPairsRanked | python/suttasearch.py:63 | the sorted pairs unzip to a ranked list: ascending scores, ties by sutta id, one pair per entry found and every entry found present |
| SuttaSearch.RankedSorted | python/suttasearch.py:63 | the unzipped scores ascend and ties are ordered by sutta id |
| SuttaSearch.GetAndRankResults | python/suttasearch.py:58-64 | the ranks and suttas are the ranked list of the entries `search_dbr` finds, and empty exactly when none is found |
| SuttaSearch.Clamp | python/suttasearch.py:81-82 | a slice bound is clamped into `0..n`, a negative one counted from the end |
| SuttaSearch.PySlice | python/suttasearch.py:81-82 | `s[i:j]` is the run between the clamped bounds, or empty when they cross |
| SuttaSearch.SliceTogether | python/suttasearch.py:81-82 | the ranks and the suttas are cut at the same places |
| SuttaSearch.Bisect | python/suttasearch.py:84 | `bisect.bisect(ranks, 700)`: everything before the point is at most 700 and the element at the point is above it |
| SuttaSearch.BisectSorted | python/suttasearch.py:84 | on ascending ranks, everything from the point on is above 700 |
| SuttaSearch.SectionedCovers | python/suttasearch.py:95-98 | the exact and similar sections hold the exact results followed by the similar ones, and no section is empty |
| SuttaSearch.PageParts | python/suttasearch.py:81-98 | the page is the slice of the suttas split at the bisection point of the sliced ranks |
| SuttaSearch.PageCovers | python/suttasearch.py:81-98 | the page's sections together hold exactly the slice, and no section is empty |
| SuttaSearch.PageSplit | python/suttasearch.py:81-98 | within the page, the exact results are those scored at most 700 and the similar ones those above |
| SuttaSearch.AddPage | python/suttasearch.py:81-98 | the sections of the page, and the link to the next page exactly when there are results past this one |
| SuttaSearch.AddSections | python/suttasearch.py:95-98 | the sections appended, nothing else changed |
| SuttaSearch.Report | python/suttasearch.py:75-99 | the total is the count; no results gives the "No results" section, otherwise the page and its link |
| SuttaSearch.Found | python/suttasearch.py:73-99 | the same, over the ranked list of the entries found |
| SuttaSearch.Search | python/suttasearch.py:66-99 | a query under three characters gives total 0 and the "Search term too short." section; otherwise the total is the number of entries found, "No results" when there are none, and else the page of the ranked list with its link |
| Etl.FixLangUidMeaning | utility/dbredo.py:163-169 | `sa`, `sk` (and `skt`) become `skt`; every substring of `"ot"` (the empty string, `o`, `t`, `ot`) and `oth` become `oth`; every other code is kept (also utility/mysql_to_csv.py:54-59) |
| Etl.OtSubstrings | utility/dbredo.py:166 | `uid in ('ot')` is a substring test on the string `"ot"` (also utility/mysql_to_csv.py:57) |
| Etl.FixLangUidIdempotent | utility/dbredo.py:163-169 | fixing a fixed code changes nothing (also utility/mysql_to_csv.py:54-59) |
| Etl.AltJoin | utility/dbredo.py:95-100 | the main value, followed by `//` and the alternative exactly when the alternative is non-empty (also utility/mysql_to_csv.py:96-101) |
| Etl.VaggaField | utility/dbredo.py:87-91 | the vagga field starts with the vagga table's key and a slash (also utility/mysql_to_csv.py:88-92) |
| Etl.YFlag | utility/dbredo.py:120-147 | 1 exactly when the indicator is `'Y'`, otherwise `None` (also utility/mysql_to_csv.py:120, 144) |
| Etl.PutMeaning | utility/dbredo.py:90 | an `OrderedDict` assignment keeps its keys distinct and in place, stores the pair, and changes no other entry (also utility/mysql_to_csv.py:91) |
| Etl.LangSortKeyOrder | utility/dbredo.py:189 | the language keys compare: ascending iso code, and among equal codes root languages first (also utility/mysql_to_csv.py:192) |
| Etl.LangKeysComparable | utility/dbredo.py:189 | sorting the language rows never raises (also utility/mysql_to_csv.py:192) |
| Etl.LanguagesSorted | utility/dbredo.py:174-189 | the language table is a permutation of the collection rows and the used reference rows, ordered by iso code with root languages first (also utility/mysql_to_csv.py:173-192) |
| Etl.CollRowsMeaning | utility/dbredo.py:176-179 | every collection row is a root language, with the fixed code as uid, taken from a kept entry (also utility/mysql_to_csv.py:175-180) |
| Etl.RefRowsMeaning | utility/dbredo.py:181-187 | every reference row is a non-root language in use, with `m` before its fixed code exactly when a collection language has that code, taken from a kept entry (also utility/mysql_to_csv.py:182-190) |
| Etl.RefRowsComplete | utility/dbredo.py:181-187 | every kept reference language in use gets its row (also utility/mysql_to_csv.py:182-190) |
| Etl.AssembleLanguages | utility/dbredo.py:174-189 | the two loops and the sort give `Languages` (also utility/mysql_to_csv.py:173-192) |
| Etl.CorrespondenceRow | utility/dbredo.py:116-121 | four fields: the two suttas' uids, 1 exactly for a partial correspondence, and the footnote (also utility/mysql_to_csv.py:116-121) |
| Etl.DivisionRow | utility/dbredo.py:141-147 | five fields: the collection's uid second and 1 exactly when `subdiv_ind` is `'Y'` (also utility/mysql_to_csv.py:138-144) |
| DbRedo.LeadingAlpha | utility/dbredo.py:45-47 | the letters `\p{alpha}+` takes at the start: all letters, and the next character is not one |
| DbRedo.LeadingDigits | utility/dbredo.py:45 | the digits `\d*` takes: all digits, and the next character is not one |
| DbRedo.DashGroup | utility/dbredo.py:45-47 | the optional `-\d+` group is empty or a dash and at least one digit |
| DbRedo.DecomposeNumbered | utility/dbredo.py:43-53 | `<letters><digits>.<tail>` with digits gives `(<letters>, <letters><digits>)` |
| DbRedo.DecomposeDashed | utility/dbredo.py:43-53 | `<letters>-<digits>.<tail>` gives `(<letters>-<digits>, <letters>-<digits>-nosub)` |
| DbRedo.DecomposeUnnumbered | utility/dbredo.py:43-53 | an undotted `<letters><digits>` gives `(<letters>, <letters>-nosub)` |
| DbRedo.DecomposeShape | utility/dbredo.py:43-53 | whenever the match succeeds, the division is a non-empty prefix of the uid and the subdivision starts with the division |
| DbRedo.ExampleNumbered | utility/dbredo.py:43-53 | `sn56.11` gives `('sn', 'sn56')` |
| DbRedo.ExampleUnnumbered | utility/dbredo.py:43-53 | `dn1` gives `('dn', 'dn-nosub')` |
| DbRedo.SuttaRow | utility/dbredo.py:87-106 | six fields: the uid second, the language code third, and the vagga field fourth |
| DbRedo.ExportSuttas | utility/dbredo.py:77-106 | the loop over the suttas gives `ExportOf`, the fold of one step per sutta |
| DbRedo.StepShaped | utility/dbredo.py:77-106 | one step keeps six fields per row, the vagga keys distinct, and every vagga field `None` or under a vagga key |
| DbRedo.ExportShaped | utility/dbredo.py:77-106 | and so does the whole loop |
| DbRedo.UsedLangMeaning | utility/dbredo.py:78-85 | a code is used exactly when some sutta the loop does not skip has a translation in it (line 66) |
| DbRedo.RowsOfExported | utility/dbredo.py:77-106 | one row per sutta that is not skipped, in order, each with its uid |
| DbRedo.LanguageTable | utility/dbredo.py:171-190 | the language table is `Languages` over every entry, with four columns |
| DbRedo.CollectionRow | utility/dbredo.py:131-136 | four fields: the collection's fixed uid first and its language code last |
| DbRedo.SubdivisionRow | utility/dbredo.py:152-156 | three fields, the uid first |
| MysqlToCsv.ReplaceAbsent | utility/mysql_to_csv.py:134 | `str.replace` leaves a string without the pattern as it is |
| MysqlToCsv.ReplaceGrows | utility/mysql_to_csv.py:134 | with a longer replacement, the string grows exactly when it holds the pattern |
| MysqlToCsv.CollectionLangCode | utility/mysql_to_csv.py:134 | the code grows exactly when it holds `ot`, and is kept otherwise |
| MysqlToCsv.CollectionLangCodeExamples | utility/mysql_to_csv.py:134 | `ot` becomes `oth`, and `oth` becomes `othh` |
| MysqlToCsv.Priority | utility/mysql_to_csv.py:160-171 | the table's value for a listed code, 9 for another, always between 1 and 9 |
| MysqlToCsv.PriorityOfFixed | utility/mysql_to_csv.py:160-171 | Sanskrit codes get 4, `ot` gets 9 and `zh` gets 1 once fixed (the fix of lines 54-59) |
| MysqlToCsv.ExternalTranslations | utility/mysql_to_csv.py:69-71 | the translations kept all have external urls, and every translation with an external url is kept |
| MysqlToCsv.References | utility/mysql_to_csv.py:65-71 | every reference row has four fields, the sutta's uid first and an external url last |
| MysqlToCsv.SuttaRow | utility/mysql_to_csv.py:88-108 | seven fields: the uid, the subdivision uid and the fixed language code second to fourth |
| MysqlToCsv.ExportSuttas | utility/mysql_to_csv.py:81-108 | the loop over the suttas gives `ExportOf` |
| MysqlToCsv.ExportRows | utility/mysql_to_csv.py:81-108 | one row per sutta, in order, with its uid and subdivision uid |
| MysqlToCsv.ExportVaggasDistinct | utility/mysql_to_csv.py:88-91 | the vagga table has each key once |
| MysqlToCsv.ExportReferencesExternal | utility/mysql_to_csv.py:110-112 | every row of `external_text.csv` has an external url (the filter of lines 65-71) |
| MysqlToCsv.UsedLangMeaning | utility/mysql_to_csv.py:72 | a code is used exactly when some sutta has a translation in it, whatever the translation's url |
| MysqlToCsv.LanguageTable | utility/mysql_to_csv.py:173-192 | the language table is `Languages` over the entries keyed by code, with five columns, the last the uid's priority |
| MysqlToCsv.LanguagesSkipIds | utility/mysql_to_csv.py:175-186 | every row comes from an entry keyed by a code, never by an id |
| MysqlToCsv.CollectionRow | utility/mysql_to_csv.py:129-134 | four fields: the collection's fixed uid first and the replaced language code last |
| MysqlToCsv.SubdivisionRow | utility/mysql_to_csv.py:148-154 | five fields: the uid and then the division's uid |

## Findings

| source | as written | input that shows it | evidently intended | confidence | as-written member | corrected member |
|---|---|---|---|---|---|---|
| src/imm.py:292-306 | a reference row whose sutta id is not in the sutta table records its error and then goes on with the `uid` of the previous row, so the translation is filed under the wrong sutta; on a first row `uid` is unbound and the loop raises `NameError` | rows `(10, sutta 1)` and `(11, sutta 2)` with only sutta 1 (`dn1`) known: both translations are filed under `dn1`; the row of key 11 alone raises | record the error and skip the row | not executed | References.AsWrittenMisfiles | References.TranslationsMeaning |

## Left out

- The refresh thread `Updater`, `getDBR`, the build-completed event and
  `stress_test` (src/imm.py:591-729): they are concurrency and
  MySQL/SQLite I/O.
- `stress` in python/suttasearch.py and the `lru_cache` on
  `get_and_rank_results`: they are load testing and caching.
- `table_reader`, the CSV dialects and every file write in the two export
  scripts: they are file I/O. The rows are sequences of field values.
- The top-level tables of `build_suttas` are not built:
  - languages, collections, divisions, subdivisions and vaggas
    (src/imm.py:123-177) come from CSV files through names the code never
    defines, so the constructor receives them as built;
  - the same holds for appending each collection to its language's list
    (src/imm.py:285-287).
- The sequencing in `__init__` and `build_stage2` (src/imm.py:56-67) is not a
  member. Each step it calls is one.
- Logging (`logger.*`, `print`) is left out. The problems `build_suttas`
  logs are returned as values.
- The vagga/subdivision mismatch warning (src/imm.py:278-281) is left out
  because it only logs.
- The comparison in the `test()` self-check of `build_parallels_data`
  (src/imm.py:366-375) is left out because it only logs. Its reads of the
  three `defaultdict` tables, which add entries, are modelled.
- ParallelData.BuildParallelsData and ImmDatabase.Imm.BuildParallelsData:
  require the case suttas 16 and 4218 to be suttas. Otherwise the source
  raises `KeyError` at `db.sutta[s_id]` (src/imm.py:380); the model does not
  report it.
- The glob and `os.walk` of `build_text_paths` are left out: the files are
  given as a list of `(lang, dir, filename)` entries.
- `hashlib.md5` and `id()` are left out as cryptography and memory
  addresses. The digest is a function parameter, and objects are handles.
- `textfunctions.simplify` and `simplify_pali` are not part of this model;
  they are function parameters.
- The float bonus of `Ranker.__call__` (python/suttasearch.py:31-45) is left
  out because it is floating point with `math.log`. It is a parameter
  `Sutta -> real`. The truncation `10 * int(rank / 10)` is modelled.
- Unicode character classes (`\d`, `\p{alpha}`, `isnumeric`, `casefold`,
  `lower`, `strip`) are approximated by their ASCII meaning.
- A regex `$` also matches before a final newline. This is not modelled:
  urls are taken to have no trailing newline.
- `format_date`, `format_time`, `wrap` and `filelock` in sc/util.py are left
  out: they are babel formatting and `fcntl` locking.
- The printing of skipped uids in utility/dbredo.py is left out. A uid
  `decompose_uid` cannot match is skipped, as the `TypeError` handler does.
- ImmDatabase.Imm.BuildSearchData: requires every sutta to have a language.
  A sutta without one (src/imm.py:201-204) makes `build_search_data` raise
  `AttributeError` at `sutta.lang.code`; the model does not report that
  error. `BuildParallels` does report its own.
- ImmDatabase.Imm.BuildParallels: on the `AttributeError` the source has
  already sorted the lists of the suttas before the failing one; the model
  leaves every list unsorted, since the error ends the construction.
- SuttaSearch.Search: `search(query=None, limit=25, offset=0)`
  (python/suttasearch.py:66) has default arguments. The model takes all
  three as parameters, so a caller passes the defaults explicitly. The
  default `query=None` would raise `TypeError` at `len(query)`; the query
  is a string in the model.
- Lookups that raise `KeyError` uncaught are preconditions, not error
  results. Examples are a sutta's subdivision, a language id, and a
  collection id in `collection_uids`. The source does not handle them.
- The deque of `TimedCache` is a sequence: `popleft` and `appendleft` are
  slices and concatenation.
