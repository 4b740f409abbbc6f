/** The sutta search of python/suttasearch.py: `search_dbr` finds the entries
    of `searchstrings` a query matches, `Ranker` scores them,
    `get_and_rank_results` sorts them by score and `search` cuts a page out
    of the sorted list and splits it into exact and similar results.

    The database is the parameter `entries` (the `searchstrings` of the
    loaded database), `textfunctions.simplify_pali` is the parameter
    `simplifyPali`, and the floating-point part of a score (the bonus for
    parallels, translations and small subdivisions, built from `math.log`)
    is the parameter `bonus`, read as an exact real number. */
module SuttaSearch {
  import opened Wrappers
  import opened Strings
  import opened Entities
  import opened PyValue
  import Sorting
  import ParallelData
  import opened SearchData
  import opened Results

  /** Substring facts the ranking relies on. */

  lemma ContainsPrefix(s: string, a: string, b: string)
    requires Contains(s, a + b)
    ensures Contains(s, a)
  {
    var i :| 0 <= i <= |s| - |a + b| && OccursAt(s, a + b, i);
    assert s[i..i + |a|] == (a + b)[..|a|] == a;
    assert OccursAt(s, a, i);
  }

  lemma ContainsSuffix(s: string, a: string, b: string)
    requires Contains(s, a + b)
    ensures Contains(s, b)
  {
    var i :| 0 <= i <= |s| - |a + b| && OccursAt(s, a + b, i);
    assert s[i + |a|..i + |a| + |b|] == (a + b)[|a|..] == b;
    assert OccursAt(s, b, i + |a|);
  }

  lemma ContainsTrans(s: string, t: string, u: string)
    requires Contains(s, t) && Contains(t, u)
    ensures Contains(s, u)
  {
    var i :| 0 <= i <= |s| - |t| && OccursAt(s, t, i);
    assert s == s[..i] + t + s[i + |t|..];
    ContainsMonotone(u, t, s[..i], s[i + |t|..]);
  }

  /** The query in the forms `Ranker` matches it in. */
  datatype Ranker = Ranker(queryCased: string, query: string, queryWhole: string,
                           queryStarts: string, querySimple: string)

  /** `Ranker(query)`: the whole-word form is the word-start form with a
      space after it. */
  function MakeRanker(q: string, simplifyPali: string -> string): (r: Ranker)
    ensures r.queryCased == q && r.query == Lower(q) && r.querySimple == simplifyPali(Lower(q))
    ensures r.queryWhole == r.queryStarts + " "
    ensures r.queryStarts == " " + Strip(Lower(q))
  {
    var query := Lower(q);
    Ranker(q, query, " " + Strip(query) + " ", " " + Strip(query), simplifyPali(query))
  }

  /** The match tier of `Ranker.__call__`: the first test that succeeds
      decides, from a whole-word match in the blob (100) down to no match
      at all (10000). */
  function Tier(r: Ranker, e: SearchEntry): int
  {
    if Contains(e.blob, r.queryWhole) then 100
    else if Contains(e.blob, r.queryStarts) then 200
    else if Contains(e.blob, r.query) then 300
    else if Contains(e.nameSimplified, " " + r.querySimple + " ") then 1000
    else if Contains(e.nameSimplified, " " + r.querySimple) then 1100
    else if Contains(e.nameSimplified, r.querySimple) then 1200
    else 10000
  }

  /** A blob match ranks at most 300, and at most 200 exactly when the
      query starts a word of the blob: a whole-word match is also a
      word-start match. */
  lemma TierOfBlob(q: string, simplifyPali: string -> string, e: SearchEntry)
    ensures var r := MakeRanker(q, simplifyPali);
            Tier(r, e) <= 200 <==> Contains(e.blob, r.queryStarts)
    ensures var r := MakeRanker(q, simplifyPali);
            Tier(r, e) <= 300 <==> Contains(e.blob, r.queryStarts) || Contains(e.blob, Lower(q))
  {
    var r := MakeRanker(q, simplifyPali);
    if Contains(e.blob, r.queryWhole) {
      ContainsPrefix(e.blob, r.queryStarts, " ");
    }
  }

  /** A name match ranks at most 1100 when the simplified query starts a
      word of the simplified name, and at most 1200 when it occurs in it
      at all; nothing else ranks below 10000. */
  lemma TierOfName(q: string, simplifyPali: string -> string, e: SearchEntry)
    ensures var r := MakeRanker(q, simplifyPali);
            Tier(r, e) <= 1100 <==> Tier(r, e) <= 300 || Contains(e.nameSimplified, " " + r.querySimple)
    ensures var r := MakeRanker(q, simplifyPali);
            Tier(r, e) <= 1200 <==> Tier(r, e) <= 300 || Contains(e.nameSimplified, r.querySimple)
    ensures var r := MakeRanker(q, simplifyPali);
            Tier(r, e) < 10000 <==> Tier(r, e) <= 1200
  {
    var r := MakeRanker(q, simplifyPali);
    var s := r.querySimple;
    if Contains(e.nameSimplified, " " + s + " ") {
      ContainsPrefix(e.nameSimplified, " " + s, " ");
    }
    if Contains(e.nameSimplified, " " + s) {
      ContainsSuffix(e.nameSimplified, " ", s);
    }
  }

  /** A query that is, after casefolding and stripping, the uid of the
      entry's sutta ranks first: the blob holds the uid as a framed word. */
  lemma UidRanksFirst(q: string, simplifyPali: string -> string, s: Sutta, ts: seq<Translation>,
                      simplify: (string, string) -> string)
    requires s.lang.Some?
    requires Strip(Lower(q)) == Lower(s.uid)
    ensures Tier(MakeRanker(q, simplifyPali), Entry(s, ts, simplify)) == 100
  {
    var e := Entry(s, ts, simplify);
    EntryShape(s, ts, simplify);
    FramedWord(e.blob, Lower(s.uid));
  }

  /** A word framed by two spaces is also framed by one. */
  lemma FramedWord(blob: string, x: string)
    requires Contains(blob, Framed(x))
    ensures Contains(blob, " " + x + " ")
  {
    assert Framed(x) == " " + (" " + x + " ") + " ";
    ContainsConcat(" ", " " + x + " ", " ");
    ContainsTrans(blob, Framed(x), " " + x + " ");
  }

  /** `search_dbr(query)`: the entries whose blob holds the casefolded
      query, together with those whose simplified name holds the
      simplified query. */
  function SearchDbr(q: string, entries: seq<SearchEntry>, simplifyPali: string -> string): (r: set<SearchEntry>)
    ensures forall e :: e in r ==> e in entries
  {
    (set e | e in entries && Contains(e.blob, Lower(q))) +
    (set e | e in entries && Contains(e.nameSimplified, simplifyPali(q)))
  }

  /** Every entry found ranks as a blob match or, when simplifying does
      not depend on letter case, as a name match; so no entry found is
      left at 10000. */
  lemma FoundEntriesRanked(q: string, entries: seq<SearchEntry>, simplifyPali: string -> string, e: SearchEntry)
    requires e in SearchDbr(q, entries, simplifyPali)
    ensures Contains(e.blob, Lower(q)) ==> Tier(MakeRanker(q, simplifyPali), e) <= 300
    ensures simplifyPali(q) == simplifyPali(Lower(q)) ==> Tier(MakeRanker(q, simplifyPali), e) <= 1200
  {
    TierOfBlob(q, simplifyPali, e);
    TierOfName(q, simplifyPali, e);
  }

  /** `int(x)` on a float: truncation toward zero. */
  function Trunc(x: real): int
  {
    if x >= 0.0 then x.Floor else -((-x).Floor)
  }

  /** The score `Ranker.__call__` returns: tier, bonus and division id,
      truncated to a multiple of ten. */
  function Rank(r: Ranker, e: SearchEntry, bonus: Sutta -> real): int
  {
    10 * Trunc(((Tier(r, e) as real) + bonus(e.sutta) + (e.sutta.divisionId as real)) / 10.0)
  }

  /** What the cut at 700 in `search` means: a score is at most 700
      exactly when tier, bonus and division id add up to less than 710. */
  lemma ExactIff(r: Ranker, e: SearchEntry, bonus: Sutta -> real)
    ensures Rank(r, e, bonus) <= 700 <==>
            (Tier(r, e) as real) + bonus(e.sutta) + (e.sutta.divisionId as real) < 710.0
  {
    var x := (Tier(r, e) as real) + bonus(e.sutta) + (e.sutta.divisionId as real);
    var y := x / 10.0;
    if x >= 0.0 {
      assert Trunc(y) == y.Floor;
      assert (y.Floor as real) <= y < (y.Floor as real) + 1.0;
    } else {
      assert -y > 0.0;
      assert Trunc(y) <= 0;
    }
  }

  /** The sort key of `(rank, sutta)`: tuples compare by rank, then by the
      sutta, whose first field is its id. */
  function RankKey(p: (int, Sutta)): Value
  {
    List([Int(p.0), Int(p.1.id)])
  }

  lemma RankKeyOrder(p: (int, Sutta), q: (int, Sutta))
    ensures Comparable(RankKey(p), RankKey(q))
    ensures !Lt(RankKey(q), RankKey(p)) ==> p.0 <= q.0 && (p.0 == q.0 ==> p.1.id <= q.1.id)
  {
    var xs, ys := RankKey(p).items, RankKey(q).items;
    assert xs[1..] == [Int(p.1.id)] && ys[1..] == [Int(q.1.id)];
    assert xs[1..][1..] == [] && ys[1..][1..] == [];
    assert Less(RankKey(p), RankKey(q)) == ListLess(xs, ys);
    assert Less(RankKey(q), RankKey(p)) == ListLess(ys, xs);
    if p.0 == q.0 {
      assert ListLess(ys, xs) == ListLess(ys[1..], xs[1..]);
      assert ListLess(xs, ys) == ListLess(xs[1..], ys[1..]);
      if p.1.id != q.1.id {
        assert ListLess(ys[1..], xs[1..]) == Some(q.1.id < p.1.id);
        assert ListLess(xs[1..], ys[1..]) == Some(p.1.id < q.1.id);
      } else {
        assert ListLess(xs[1..], ys[1..]) == ListLess([], []);
      }
    } else {
      assert ListLess(ys, xs) == Some(q.0 < p.0);
      assert ListLess(xs, ys) == Some(p.0 < q.0);
    }
  }

  lemma RankKeysComparable(s: seq<(int, Sutta)>)
    ensures Sorting.KeysComparable(s, RankKey)
  {
    forall x, y | x in s && y in s ensures Comparable(RankKey(x), RankKey(y)) {
      RankKeyOrder(x, y);
    }
  }

  /** A listing of a set without repeats is as long as the set is large. */
  lemma {:induction false} ListsCard<X>(xs: seq<X>, s: set<X>)
    requires ParallelData.Lists(xs, s)
    ensures |xs| == |s|
    decreases |xs|
  {
    if xs != [] {
      var n := |xs| - 1;
      var init := xs[..n];
      forall i | 0 <= i < |init| ensures init[i] in s - {xs[n]} {
        assert init[i] == xs[i];
      }
      forall x | x in s - {xs[n]} ensures x in init {
        var j :| 0 <= j < |xs| && xs[j] == x;
        assert init[j] == x;
      }
      ListsCard(init, s - {xs[n]});
    } else {
      assert s == {};
    }
  }

  /** `(rank, sutta)` is the score and sutta of one of the entries found. */
  ghost predicate RankOf(results: set<SearchEntry>, r: Ranker, bonus: Sutta -> real, rank: int, sutta: Sutta) {
    exists e :: e in results && rank == Rank(r, e, bonus) && sutta == e.sutta
  }

  /** What `get_and_rank_results` returns: the scores and suttas of the
      entries found, one pair per entry, ascending by score and, among equal
      scores, by sutta id. */
  ghost predicate Ranked(results: set<SearchEntry>, r: Ranker, bonus: Sutta -> real,
                         ranks: seq<int>, suttas: seq<Sutta>)
  {
    && |ranks| == |suttas| == |results|
    && (forall i, j :: 0 <= i < j < |ranks| ==> ranks[i] <= ranks[j])
    && (forall i, j :: 0 <= i < j < |ranks| && ranks[i] == ranks[j] ==> suttas[i].id <= suttas[j].id)
    && (forall i :: 0 <= i < |ranks| ==>
          RankOf(results, r, bonus, ranks[i], suttas[i]))
    && (forall e :: e in results ==>
          exists i :: 0 <= i < |ranks| && ranks[i] == Rank(r, e, bonus) && suttas[i] == e.sutta)
  }

  /** The `(rank, sutta)` pairs of a listing of the entries found. */
  function Pairs(xs: seq<SearchEntry>, r: Ranker, bonus: Sutta -> real): (ps: seq<(int, Sutta)>)
    ensures |ps| == |xs|
    ensures forall i :: 0 <= i < |xs| ==> ps[i] == (Rank(r, xs[i], bonus), xs[i].sutta)
  {
    seq(|xs|, i requires 0 <= i < |xs| => (Rank(r, xs[i], bonus), xs[i].sutta))
  }

  /** `zip(*pairs)`: the scores and the suttas. */
  function Unzip(ps: seq<(int, Sutta)>): (r: (seq<int>, seq<Sutta>))
    ensures |r.0| == |r.1| == |ps|
    ensures forall i :: 0 <= i < |ps| ==> r.0[i] == ps[i].0 && r.1[i] == ps[i].1
  {
    (seq(|ps|, i requires 0 <= i < |ps| => ps[i].0), seq(|ps|, i requires 0 <= i < |ps| => ps[i].1))
  }

  /** Sorting the pairs of a listing of the entries found, and unzipping
      them, gives what `Ranked` describes. */
  lemma SortedPairsRanked(results: set<SearchEntry>, r: Ranker, bonus: Sutta -> real, xs: seq<SearchEntry>,
                          sorted: seq<(int, Sutta)>, ranks: seq<int>, suttas: seq<Sutta>)
    requires ParallelData.Lists(xs, results)
    requires multiset(sorted) == multiset(Pairs(xs, r, bonus))
    requires Sorting.SortedBy(sorted, RankKey)
    requires |ranks| == |suttas| == |sorted|
    requires forall i :: 0 <= i < |sorted| ==> ranks[i] == sorted[i].0 && suttas[i] == sorted[i].1
    ensures Ranked(results, r, bonus, ranks, suttas)
  {
    ListsCard(xs, results);
    SortLength(Pairs(xs, r, bonus), sorted);
    RankedSorted(sorted, ranks, suttas);
    SortedPairsFrom(results, r, bonus, xs, sorted, ranks, suttas);
    SortedPairsTo(results, r, bonus, xs, sorted, ranks, suttas);
  }

  lemma SortLength<T>(s: seq<T>, t: seq<T>)
    requires multiset(s) == multiset(t)
    ensures |s| == |t|
  {
    assert |multiset(s)| == |multiset(t)|;
  }

  lemma SortedPairsFrom(results: set<SearchEntry>, r: Ranker, bonus: Sutta -> real, xs: seq<SearchEntry>,
                        sorted: seq<(int, Sutta)>, ranks: seq<int>, suttas: seq<Sutta>)
    requires forall i :: 0 <= i < |xs| ==> xs[i] in results
    requires multiset(sorted) == multiset(Pairs(xs, r, bonus))
    requires |ranks| == |suttas| == |sorted|
    requires forall i :: 0 <= i < |sorted| ==> ranks[i] == sorted[i].0 && suttas[i] == sorted[i].1
    ensures forall i :: 0 <= i < |ranks| ==>
              RankOf(results, r, bonus, ranks[i], suttas[i])
  {
    var pairs := Pairs(xs, r, bonus);
    forall i | 0 <= i < |ranks|
      ensures RankOf(results, r, bonus, ranks[i], suttas[i])
    {
      assert sorted[i] in multiset(pairs);
      var j :| 0 <= j < |pairs| && pairs[j] == sorted[i];
      var e := xs[j];
      assert pairs[j] == (Rank(r, e, bonus), e.sutta);
      assert e in results && ranks[i] == Rank(r, e, bonus) && suttas[i] == e.sutta;
    }
  }

  lemma SortedPairsTo(results: set<SearchEntry>, r: Ranker, bonus: Sutta -> real, xs: seq<SearchEntry>,
                      sorted: seq<(int, Sutta)>, ranks: seq<int>, suttas: seq<Sutta>)
    requires forall e :: e in results ==> e in xs
    requires multiset(sorted) == multiset(Pairs(xs, r, bonus))
    requires |ranks| == |suttas| == |sorted|
    requires forall i :: 0 <= i < |sorted| ==> ranks[i] == sorted[i].0 && suttas[i] == sorted[i].1
    ensures forall e :: e in results ==>
              exists i :: 0 <= i < |ranks| && ranks[i] == Rank(r, e, bonus) && suttas[i] == e.sutta
  {
    var pairs := Pairs(xs, r, bonus);
    forall e | e in results
      ensures exists i :: 0 <= i < |ranks| && ranks[i] == Rank(r, e, bonus) && suttas[i] == e.sutta
    {
      var j :| 0 <= j < |xs| && xs[j] == e;
      assert pairs[j] in multiset(sorted);
      var i :| 0 <= i < |sorted| && sorted[i] == pairs[j];
      assert ranks[i] == Rank(r, e, bonus) && suttas[i] == e.sutta;
    }
  }

  /** `get_and_rank_results(query)`. */
  method GetAndRankResults(q: string, entries: seq<SearchEntry>, simplifyPali: string -> string,
                           bonus: Sutta -> real) returns (ranks: seq<int>, suttas: seq<Sutta>)
    ensures Ranked(SearchDbr(q, entries, simplifyPali), MakeRanker(q, simplifyPali), bonus, ranks, suttas)
    ensures ranks == [] <==> SearchDbr(q, entries, simplifyPali) == {}
  {
    var results := SearchDbr(q, entries, simplifyPali);
    if results == {} {
      return [], [];
    }
    var r := MakeRanker(q, simplifyPali);
    var xs := ParallelData.SetToSeq(results);
    var pairs := Pairs(xs, r, bonus);
    var sorted := Sorting.SortBy(pairs, RankKey);
    RankKeysComparable(pairs);
    Sorting.SortBySorted(pairs, RankKey);
    var u := Unzip(sorted);
    ranks, suttas := u.0, u.1;
    SortedPairsRanked(results, r, bonus, xs, sorted, ranks, suttas);
  }

  /** Unzipping a list sorted by `RankKey` gives ascending scores, ties
      ordered by sutta id. */
  lemma RankedSorted(sorted: seq<(int, Sutta)>, ranks: seq<int>, suttas: seq<Sutta>)
    requires Sorting.SortedBy(sorted, RankKey)
    requires |ranks| == |suttas| == |sorted|
    requires forall i :: 0 <= i < |sorted| ==> ranks[i] == sorted[i].0 && suttas[i] == sorted[i].1
    ensures forall i, j :: 0 <= i < j < |ranks| ==> ranks[i] <= ranks[j]
    ensures forall i, j :: 0 <= i < j < |ranks| && ranks[i] == ranks[j] ==> suttas[i].id <= suttas[j].id
  {
    forall i, j | 0 <= i < j < |ranks|
      ensures ranks[i] <= ranks[j] && (ranks[i] == ranks[j] ==> suttas[i].id <= suttas[j].id)
    {
      RankKeyOrder(sorted[i], sorted[j]);
    }
  }

  /** Where a Python slice bound `i` lands in a sequence of length `n`: a
      negative bound counts from the end, and both ends are clamped. */
  function Clamp(i: int, n: nat): (r: nat)
    ensures r <= n
    ensures 0 <= i <= n ==> r == i
    ensures i > n ==> r == n
    ensures i < 0 ==> r == if i + n < 0 then 0 else i + n
  {
    if i < 0 then (if i + n < 0 then 0 else i + n) else if i > n then n else i
  }

  /** `s[i:j]`. */
  function PySlice<T>(s: seq<T>, i: int, j: int): (r: seq<T>)
    ensures |r| <= |s|
    ensures Clamp(i, |s|) < Clamp(j, |s|) ==> r == s[Clamp(i, |s|)..Clamp(j, |s|)]
    ensures Clamp(j, |s|) <= Clamp(i, |s|) ==> r == []
  {
    var lo, hi := Clamp(i, |s|), Clamp(j, |s|);
    if lo < hi then s[lo..hi] else []
  }

  /** Slicing two sequences of one length at the same bounds keeps their
      lengths equal and their items paired. */
  lemma SliceTogether<A, B>(a: seq<A>, b: seq<B>, i: int, j: int)
    requires |a| == |b|
    ensures |PySlice(a, i, j)| == |PySlice(b, i, j)|
    ensures var lo := Clamp(i, |a|);
            forall k :: 0 <= k < |PySlice(a, i, j)| ==>
              PySlice(a, i, j)[k] == a[lo + k] && PySlice(b, i, j)[k] == b[lo + k]
  {
  }

  /** `bisect.bisect(a, x)` read as: the length of the longest prefix of
      `a` with no item above `x`. On a sorted list, the only kind `search`
      passes, this is the insertion point after the last item equal to x. */
  function Bisect(a: seq<int>, x: int): (r: nat)
    ensures r <= |a|
    ensures forall i :: 0 <= i < r ==> a[i] <= x
    ensures r < |a| ==> a[r] > x
  {
    if a == [] || a[0] > x then 0 else 1 + Bisect(a[1..], x)
  }

  /** On a sorted list, everything from the insertion point on is above `x`. */
  lemma BisectSorted(a: seq<int>, x: int)
    requires forall i, j :: 0 <= i < j < |a| ==> a[i] <= a[j]
    ensures forall i :: Bisect(a, x) <= i < |a| ==> a[i] > x
  {
  }

  /** The sections of a page: `exact` under "Exact results" and
      `similar` under "Similiar results" (sic), each only when it has
      suttas. */
  function Sectioned(exact: seq<Sutta>, similar: seq<Sutta>): seq<Section<Sutta>>
  {
    (if exact != [] then [Section("Exact results", exact)] else []) +
    (if similar != [] then [Section("Similiar results", similar)] else [])
  }

  /** The suttas of a list of sections, section after section. */
  function Flatten(sections: seq<Section<Sutta>>): seq<Sutta>
  {
    if sections == [] then [] else sections[0].results + Flatten(sections[1..])
  }

  /** The page cut out of the ranked list, split where the scores pass 700. */
  function Page(ranks: seq<int>, suttas: seq<Sutta>, limit: int, offset: int): seq<Section<Sutta>>
  {
    var ps := PySlice(suttas, offset, offset + limit);
    var b := Bisect(PySlice(ranks, offset, offset + limit), 700);
    if b <= |ps| then Sectioned(ps[..b], ps[b..]) else Sectioned(ps, [])
  }

  /** The page in terms of the cut. */
  lemma PageParts(ranks: seq<int>, suttas: seq<Sutta>, limit: int, offset: int)
    requires |ranks| == |suttas|
    ensures var ps := PySlice(suttas, offset, offset + limit);
            var b := Bisect(PySlice(ranks, offset, offset + limit), 700);
            b <= |ps| && Page(ranks, suttas, limit, offset) == Sectioned(ps[..b], ps[b..])
  {
    SliceTogether(ranks, suttas, offset, offset + limit);
  }

  /** The sections hold the exact results, then the similar ones, and
      none of them is empty. */
  lemma SectionedCovers(exact: seq<Sutta>, similar: seq<Sutta>)
    ensures Flatten(Sectioned(exact, similar)) == exact + similar
    ensures forall k :: 0 <= k < |Sectioned(exact, similar)| ==> Sectioned(exact, similar)[k].results != []
  {
    var r := Sectioned(exact, similar);
    if exact != [] && similar != [] {
      assert r[1..] == [Section("Similiar results", similar)];
      assert r[1..][1..] == [];
      assert Flatten(r[1..]) == similar + Flatten(r[1..][1..]);
    } else if r != [] {
      assert r[1..] == [];
      assert Flatten(r) == r[0].results;
    }
  }

  /** Whatever the scores, the sections hold the page, in order, and none
      of them is empty. */
  lemma PageCovers(ranks: seq<int>, suttas: seq<Sutta>, limit: int, offset: int)
    requires |ranks| == |suttas|
    ensures Flatten(Page(ranks, suttas, limit, offset)) == PySlice(suttas, offset, offset + limit)
    ensures forall k :: 0 <= k < |Page(ranks, suttas, limit, offset)| ==>
              Page(ranks, suttas, limit, offset)[k].results != []
  {
    PageParts(ranks, suttas, limit, offset);
    var ps := PySlice(suttas, offset, offset + limit);
    var b := Bisect(PySlice(ranks, offset, offset + limit), 700);
    assert ps[..b] + ps[b..] == ps;
    SectionedCovers(ps[..b], ps[b..]);
  }

  /** On sorted scores, the exact section holds exactly the suttas of the
      page scored at most 700, in page order, and the similar section the
      ones above 700. */
  lemma PageSplit(ranks: seq<int>, suttas: seq<Sutta>, limit: int, offset: int)
    requires |ranks| == |suttas|
    requires forall i, j :: 0 <= i < j < |ranks| ==> ranks[i] <= ranks[j]
    ensures var pr := PySlice(ranks, offset, offset + limit);
            var ps := PySlice(suttas, offset, offset + limit);
            exists b :: 0 <= b <= |ps| == |pr|
              && (forall i :: 0 <= i < b ==> pr[i] <= 700)
              && (forall i :: b <= i < |pr| ==> pr[i] > 700)
              && Page(ranks, suttas, limit, offset) == Sectioned(ps[..b], ps[b..])
  {
    SliceTogether(ranks, suttas, offset, offset + limit);
    var pr := PySlice(ranks, offset, offset + limit);
    var lo := Clamp(offset, |ranks|);
    forall i, j | 0 <= i < j < |pr| ensures pr[i] <= pr[j] {
      assert pr[i] == ranks[lo + i] && pr[j] == ranks[lo + j];
    }
    BisectSorted(pr, 700);
    var ps := PySlice(suttas, offset, offset + limit);
    var b := Bisect(pr, 700);
    assert Page(ranks, suttas, limit, offset) == Sectioned(ps[..b], ps[b..]);
  }

  /** The "more results" link: the next page starts at `offset + limit`. */
  function FootUrl(q: string, limit: int, offset: int, count: int): string
  {
    var start := limit + offset;
    var href := "/search/?query=" + q + "&target=suttas&limit=" + IntToString(limit) +
                "&offset=" + IntToString(start);
    var last := if count < start + limit then count else start + limit;
    "<a href=\"" + href + "\">Results " + IntToString(start + 1) + "–" + IntToString(last) + "</a>"
  }

  /** The second half of `search`, once results were found: the link to
      the next page and the sections of this one. */
  method AddPage(out: ResultsCategory<Sutta>, q: string, ranks: seq<int>, suttas: seq<Sutta>,
                 limit: int, offset: int)
    requires |ranks| == |suttas| && out.sections == [] && out.footurl == None
    modifies out
    ensures out.sections == Page(ranks, suttas, limit, offset)
    ensures out.footurl == (if |ranks| > offset + limit then Some(FootUrl(q, limit, offset, |ranks|)) else None)
    ensures out.total == old(out.total)
  {
    var pr := PySlice(ranks, offset, offset + limit);
    var ps := PySlice(suttas, offset, offset + limit);
    var b := Bisect(pr, 700);
    PageParts(ranks, suttas, limit, offset);
    var exact, similar := ps[..b], ps[b..];
    if |ranks| > offset + limit {
      out.footurl := Some(FootUrl(q, limit, offset, |ranks|));
    }
    AddSections(out, exact, similar);
  }

  /** The exact results, then the similar ones, each only when there are
      some. */
  method AddSections(out: ResultsCategory<Sutta>, exact: seq<Sutta>, similar: seq<Sutta>)
    modifies out
    ensures out.sections == old(out.sections) + Sectioned(exact, similar)
    ensures out.total == old(out.total) && out.footurl == old(out.footurl)
  {
    if exact != [] {
      out.Add("Exact results", exact);
    }
    if similar != [] {
      out.Add("Similiar results", similar);
    }
  }

  /** `search(query, limit, offset)` past the length check: the total is
      the number of entries found; with none, a single "No results"
      section, otherwise the page of the ranked list. */
  method Found(out: ResultsCategory<Sutta>, q: string, limit: int, offset: int, entries: seq<SearchEntry>,
               simplifyPali: string -> string, bonus: Sutta -> real)
    returns (ghost ranks: seq<int>, ghost suttas: seq<Sutta>)
    requires out.sections == [] && out.footurl == None
    modifies out
    ensures Ranked(SearchDbr(q, entries, simplifyPali), MakeRanker(q, simplifyPali), bonus, ranks, suttas)
    ensures out.total == Some(|SearchDbr(q, entries, simplifyPali)|)
    ensures ranks == [] ==> out.sections == [Section("No results", [])] && out.footurl == None
    ensures ranks != [] ==>
              out.sections == Page(ranks, suttas, limit, offset) &&
              out.footurl == (if |ranks| > offset + limit then Some(FootUrl(q, limit, offset, |ranks|)) else None)
  {
    var rs, ss := GetAndRankResults(q, entries, simplifyPali, bonus);
    ranks, suttas := rs, ss;
    Report(out, q, limit, offset, rs, ss);
  }

  /** The total, then "No results" or the page of the ranked list. */
  method Report(out: ResultsCategory<Sutta>, q: string, limit: int, offset: int, ranks: seq<int>, suttas: seq<Sutta>)
    requires |ranks| == |suttas| && out.sections == [] && out.footurl == None
    modifies out
    ensures out.total == Some(|ranks|)
    ensures ranks == [] ==> out.sections == [Section("No results", [])] && out.footurl == None
    ensures ranks != [] ==>
              out.sections == Page(ranks, suttas, limit, offset) &&
              out.footurl == (if |ranks| > offset + limit then Some(FootUrl(q, limit, offset, |ranks|)) else None)
  {
    var count := |ranks|;
    out.total := Some(count);
    if count == 0 {
      out.Add("No results", []);
      return;
    }
    AddPage(out, q, ranks, suttas, limit, offset);
  }

  /** `search(query, limit, offset)`: a sutta results category. A query
      under three characters is refused; otherwise the total is the number
      of entries found, and the page of the ranked list cut out by `offset`
      and `limit` is split at the score 700; a link to the next page is set
      when there are results past this one. */
  method Search(q: string, limit: int, offset: int, entries: seq<SearchEntry>,
                simplifyPali: string -> string, bonus: Sutta -> real)
    returns (out: ResultsCategory<Sutta>, ghost ranks: seq<int>, ghost suttas: seq<Sutta>)
    ensures fresh(out) && out.kind == SuttaKind
    ensures |q| < 3 ==>
              out.total == Some(0) && out.sections == [Section("Search term too short.", [])] &&
              out.footurl == None
    ensures |q| >= 3 ==>
              Ranked(SearchDbr(q, entries, simplifyPali), MakeRanker(q, simplifyPali), bonus, ranks, suttas) &&
              out.total == Some(|SearchDbr(q, entries, simplifyPali)|)
    ensures |q| >= 3 && SearchDbr(q, entries, simplifyPali) == {} ==>
              out.sections == [Section("No results", [])] && out.footurl == None
    ensures |q| >= 3 && SearchDbr(q, entries, simplifyPali) != {} ==>
              out.sections == Page(ranks, suttas, limit, offset) &&
              out.footurl == (if |ranks| > offset + limit then Some(FootUrl(q, limit, offset, |ranks|)) else None)
  {
    out := new ResultsCategory(SuttaKind, [], None);
    ranks, suttas := [], [];
    if |q| < 3 {
      out.total := Some(0);
      out.Add("Search term too short.", []);
      return;
    }
    ranks, suttas := Found(out, q, limit, offset, entries, simplifyPali, bonus);
  }
}
