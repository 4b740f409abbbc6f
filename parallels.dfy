/** The parallel tables of `build_parallels_data` and `build_parallels` in
    src/imm.py. Correspondence rows link two sutta ids with a note; the
    rows flagged `'Y'` are partial parallels, the others full ones. The
    tables here are the `defaultdict(set)`s of the source: a map from a
    sutta id to the set of `(id, note)` pairs linked to it. */
module ParallelData {
  import opened Wrappers
  import opened Entities
  import Sorting

  type Note = Option<string>

  /** A row of the correspondence table. */
  datatype Row = Row(entryId: int, correspEntryId: int, partialInd: Option<string>, footnote: Note)

  predicate IsPartial(r: Row) { r.partialInd == Some("Y") }

  /** A directed link `(from, to, note)`. */
  type Link = (int, int, Note)

  type Table = map<int, set<(int, Note)>>

  /** The links the rows of one kind insert: each row both ways. */
  function Links(rows: seq<Row>, partial: bool): set<Link>
  {
    if rows == [] then {}
    else
      var r := rows[|rows| - 1];
      Links(rows[..|rows| - 1], partial) +
        (if IsPartial(r) == partial then {(r.entryId, r.correspEntryId, r.footnote),
                                          (r.correspEntryId, r.entryId, r.footnote)}
         else {})
  }

  /** The table holding exactly `links`: every id with an outgoing link is
      a key, and its set holds the targets and notes of those links. */
  function Adjacency(links: set<Link>): Table
  {
    map a | a in Sources(links) :: set l | l in links && l.0 == a :: (l.1, l.2)
  }

  function Sources(links: set<Link>): set<int>
  {
    set l | l in links :: l.0
  }

  /** A link is in `Links` exactly when some row of that kind joins its two
      ends, in either direction, with its note. */
  lemma {:induction false} LinksFromRows(rows: seq<Row>, partial: bool, a: int, b: int, n: Note)
    ensures (a, b, n) in Links(rows, partial) <==>
            exists i :: 0 <= i < |rows| && IsPartial(rows[i]) == partial && rows[i].footnote == n &&
              ((rows[i].entryId == a && rows[i].correspEntryId == b) ||
               (rows[i].entryId == b && rows[i].correspEntryId == a))
  {
    if rows != [] {
      var init := rows[..|rows| - 1];
      LinksFromRows(init, partial, a, b, n);
      forall i | 0 <= i < |init| ensures init[i] == rows[i] { }
    }
  }

  /** Every link of `Links` has its reverse there too. */
  lemma {:induction false} LinksSymmetric(rows: seq<Row>, partial: bool, a: int, b: int, n: Note)
    requires (a, b, n) in Links(rows, partial)
    ensures (b, a, n) in Links(rows, partial)
  {
    LinksFromRows(rows, partial, a, b, n);
    LinksFromRows(rows, partial, b, a, n);
  }

  /** The tables are symmetric: `(b, note)` in `X[a]` implies `(a, note)`
      in `X[b]`. */
  lemma TableSymmetric(rows: seq<Row>, partial: bool, a: int, b: int, n: Note)
    requires var t := Adjacency(Links(rows, partial)); a in t && (b, n) in t[a]
    ensures var t := Adjacency(Links(rows, partial)); b in t && (a, n) in t[b]
  {
    var links := Links(rows, partial);
    assert (a, b, n) in links;
    LinksSymmetric(rows, partial, a, b, n);
    assert (b, a, n).0 == b;
  }

  /** One `X[a].add((b, note))` on a `defaultdict(set)`. */
  function Put(t: Table, a: int, p: (int, Note)): Table
  {
    t[a := (if a in t then t[a] else {}) + {p}]
  }

  lemma AdjacencyPut(links: set<Link>, l: Link)
    ensures Adjacency(links + {l}) == Put(Adjacency(links), l.0, (l.1, l.2))
  {
    var x, y := Adjacency(links + {l}), Put(Adjacency(links), l.0, (l.1, l.2));
    assert x.Keys == y.Keys;
    forall a | a in x ensures x[a] == y[a] {
      if a == l.0 {
        assert (l.1, l.2) in x[a];
      }
    }
  }

  /** The first loop of `build_parallels_data`: every row is added both ways
      to `partials` when it is flagged `'Y'`, else to `fulls`. */
  method BuildTables(rows: seq<Row>) returns (fulls: Table, partials: Table)
    ensures fulls == Adjacency(Links(rows, false))
    ensures partials == Adjacency(Links(rows, true))
  {
    fulls, partials := map[], map[];
    var i := 0;
    while i < |rows|
      invariant i <= |rows|
      invariant fulls == Adjacency(Links(rows[..i], false))
      invariant partials == Adjacency(Links(rows[..i], true))
    {
      var r := rows[i];
      assert rows[..i + 1][..i] == rows[..i];
      var l1, l2 := (r.entryId, r.correspEntryId, r.footnote), (r.correspEntryId, r.entryId, r.footnote);
      if r.partialInd == Some("Y") {
        AdjacencyPut(Links(rows[..i], true), l1);
        AdjacencyPut(Links(rows[..i], true) + {l1}, l2);
        assert Links(rows[..i + 1], true) == Links(rows[..i], true) + {l1} + {l2};
        assert Links(rows[..i + 1], false) == Links(rows[..i], false);
        partials := Put(partials, r.entryId, (r.correspEntryId, r.footnote));
        partials := Put(partials, r.correspEntryId, (r.entryId, r.footnote));
      } else {
        AdjacencyPut(Links(rows[..i], false), l1);
        AdjacencyPut(Links(rows[..i], false) + {l1}, l2);
        assert Links(rows[..i + 1], false) == Links(rows[..i], false) + {l1} + {l2};
        assert Links(rows[..i + 1], true) == Links(rows[..i], true);
        fulls := Put(fulls, r.entryId, (r.correspEntryId, r.footnote));
        fulls := Put(fulls, r.correspEntryId, (r.entryId, r.footnote));
      }
      i := i + 1;
    }
    assert rows[..i] == rows;
  }

  /** Everything one full hop beyond `a`: the union of `fulls[p]` over the
      `(p, _)` in `fulls[a]` that are keys of `fulls`. */
  function Reach(fulls: Table, a: int): set<(int, Note)>
    requires a in fulls
  {
    set p, q | p in fulls[a] && p.0 in fulls && q in fulls[p.0] :: q
  }

  /** The ids the second loop gives an `indirects` entry: those with some
      parallel that is itself a key of `fulls`. */
  function IndirectKeys(fulls: Table): set<int>
  {
    set a | a in fulls && exists p :: p in fulls[a] && p.0 in fulls
  }

  /** `indirects` as `build_parallels_data` leaves it: one hop through the
      full parallels, without the pairs that point back to the sutta itself.
      Direct full parallels are not removed (that subtraction is commented
      out in the source) and partial parallels are never followed. */
  function Indirects(fulls: Table): Table
  {
    map a | a in IndirectKeys(fulls) :: set q | q in Reach(fulls, a) && q.0 != a
  }

  /** The pairs an indirect entry holds: exactly the two-hop pairs through a
      full parallel that do not lead back to the sutta. */
  lemma IndirectsMeaning(fulls: Table, a: int, q: (int, Note))
    requires a in fulls
    ensures a in Indirects(fulls) && q in Indirects(fulls)[a] <==>
            q.0 != a && exists p :: p in fulls[a] && p.0 in fulls && q in fulls[p.0]
  {
  }

  /** No sutta is its own indirect parallel. */
  lemma IndirectsNoSelf(fulls: Table, a: int, q: (int, Note))
    requires a in Indirects(fulls) && q in Indirects(fulls)[a]
    ensures q.0 != a
  {
  }

  function Both(r: Row): set<Link>
  {
    {(r.entryId, r.correspEntryId, r.footnote), (r.correspEntryId, r.entryId, r.footnote)}
  }

  lemma LinksOfThree(rows: seq<Row>)
    requires |rows| == 3 && !IsPartial(rows[0]) && !IsPartial(rows[1]) && !IsPartial(rows[2])
    ensures Links(rows, false) == Both(rows[0]) + Both(rows[1]) + Both(rows[2])
  {
    assert rows[..2][..1] == [rows[0]] && rows[..2] == [rows[0], rows[1]];
    assert [rows[0]][..0] == [];
    assert Links(rows[..1], false) == Both(rows[0]);
    assert Links(rows[..2], false) == Both(rows[0]) + Both(rows[1]);
  }

  /** A chain `a - b - c - d` of full parallels between distinct suttas gives
      `a` just `c` as indirect parallel: one hop only, and `a` itself (which
      `b` links back to) is dropped. */
  lemma ChainOneHop(a: int, b: int, c: int, d: int, n1: Note, n2: Note, n3: Note)
    requires a != b && a != c && a != d && b != c && b != d && c != d
    ensures var rows := [Row(a, b, None, n1), Row(b, c, None, n2), Row(c, d, None, n3)];
            var f := Adjacency(Links(rows, false));
            a in Indirects(f) && Indirects(f)[a] == {(c, n2)}
  {
    var rows := [Row(a, b, None, n1), Row(b, c, None, n2), Row(c, d, None, n3)];
    var links := Links(rows, false);
    LinksOfThree(rows);
    assert links == {(a, b, n1), (b, a, n1), (b, c, n2), (c, b, n2), (c, d, n3), (d, c, n3)};
    var f := Adjacency(links);
    assert f[a] == {(b, n1)};
    assert f[b] == {(a, n1), (c, n2)};
    assert Reach(f, a) == {(a, n1), (c, n2)};
  }

  /** In a full triangle `a - b - c`, `c` is both a direct and an indirect
      parallel of `a`. */
  lemma TriangleKeepsDirect(a: int, b: int, c: int, n1: Note, n2: Note, n3: Note)
    requires a != b && a != c && b != c
    ensures var rows := [Row(a, b, None, n1), Row(b, c, None, n2), Row(a, c, None, n3)];
            var f := Adjacency(Links(rows, false));
            a in f && (c, n3) in f[a] && a in Indirects(f) && (c, n2) in Indirects(f)[a]
  {
    var rows := [Row(a, b, None, n1), Row(b, c, None, n2), Row(a, c, None, n3)];
    var links := Links(rows, false);
    LinksOfThree(rows);
    assert links == {(a, b, n1), (b, a, n1), (b, c, n2), (c, b, n2), (a, c, n3), (c, a, n3)};
    var f := Adjacency(links);
    assert (b, n1) in f[a] && (c, n2) in f[b];
  }

  /** Partial rows never reach `indirects`: adding partial rows changes
      neither `fulls` nor, therefore, `indirects`. */
  lemma {:induction false} PartialsNotExpanded(rows: seq<Row>, extra: seq<Row>)
    requires forall i :: 0 <= i < |extra| ==> IsPartial(extra[i])
    ensures Links(rows + extra, false) == Links(rows, false)
    decreases |extra|
  {
    if extra == [] {
      assert rows + extra == rows;
    } else {
      var init := extra[..|extra| - 1];
      assert (rows + extra)[..|rows + extra| - 1] == rows + init;
      assert IsPartial((rows + extra)[|rows + extra| - 1]);
      PartialsNotExpanded(rows, init);
    }
  }

  /** The inner loop of the second loop for one id: the union of
      `fulls[pid]` over its parallels `pid` that are keys, and whether there
      was any (the first `update` creates the `indirects` entry). */
  method Expand(fulls: Table, id: int) returns (acc: set<(int, Note)>, hit: bool)
    requires id in fulls
    ensures hit <==> id in IndirectKeys(fulls)
    ensures acc == Reach(fulls, id)
  {
    var ps := fulls[id];
    acc, hit := {}, false;
    while ps != {}
      invariant ps <= fulls[id]
      invariant hit <==> exists p :: p in fulls[id] && p !in ps && p.0 in fulls
      invariant acc == set p, q | p in fulls[id] && p !in ps && p.0 in fulls && q in fulls[p.0] :: q
      decreases ps
    {
      var p :| p in ps;
      if p.0 in fulls {
        acc := acc + fulls[p.0];
        hit := true;
      }
      ps := ps - {p};
    }
  }

  /** A non-empty set of ids has a member (the next key a `for` loop
      visits). */
  lemma HasMember(s: set<int>)
    requires s != {}
    ensures exists x :: x in s
  {
    if forall x :: x !in s {
    }
  }

  lemma IndirectsPointwise(fulls: Table, m: Table)
    requires m.Keys == IndirectKeys(fulls)
    requires forall a :: a in m ==> a in fulls && m[a] == set q | q in Reach(fulls, a) && q.0 != a
    ensures m == Indirects(fulls)
  {
  }

  /** The second and third loops of `build_parallels_data`: for each id,
      the union of `fulls[pid]` over its parallels `pid` that are keys, then
      the pairs whose id is the sutta's own removed. */
  method BuildIndirects(fulls: Table) returns (indirects: Table)
    ensures indirects == Indirects(fulls)
  {
    indirects := map[];
    var ids := fulls.Keys;
    while ids != {}
      invariant ids <= fulls.Keys
      invariant indirects.Keys == IndirectKeys(fulls) - ids
      invariant forall a :: a in indirects ==> a in fulls && indirects[a] == Reach(fulls, a)
      decreases ids
    {
      HasMember(ids);
      var id :| id in ids;
      var acc, hit := Expand(fulls, id);
      if hit {
        indirects := indirects[id := acc];
      }
      ids := ids - {id};
    }
    ghost var expanded := indirects;
    var keys := indirects.Keys;
    while keys != {}
      invariant keys <= expanded.Keys && indirects.Keys == expanded.Keys
      invariant forall a :: a in keys ==> indirects[a] == expanded[a]
      invariant forall a :: a in expanded && a !in keys ==>
                  indirects[a] == set q | q in expanded[a] && q.0 != a
      decreases keys
    {
      HasMember(keys);
      var id :| id in keys;
      indirects := indirects[id := indirects[id] - set q | q in indirects[id] && q.0 == id];
      keys := keys - {id};
    }
    IndirectsPointwise(fulls, indirects);
  }

  /** `xs` lists the members of `s`, each once. */
  ghost predicate Lists<X>(xs: seq<X>, s: set<X>) {
    && (forall i, j :: 0 <= i < j < |xs| ==> xs[i] != xs[j])
    && (forall i :: 0 <= i < |xs| ==> xs[i] in s)
    && (forall x :: x in s ==> x in xs)
  }

  /** Iterating a set: some order of its members. */
  method SetToSeq<X>(s: set<X>) returns (xs: seq<X>)
    ensures Lists(xs, s)
  {
    xs := [];
    var rest := s;
    while rest != {}
      invariant rest <= s
      invariant forall i, j :: 0 <= i < j < |xs| ==> xs[i] != xs[j]
      invariant forall i :: 0 <= i < |xs| ==> xs[i] in s && xs[i] !in rest
      invariant forall x :: x in s ==> x in xs || x in rest
      decreases rest
    {
      var x :| x in rest;
      xs := xs + [x];
      rest := rest - {x};
    }
  }

  /** A table as `items()` yields it: each key once, with its set in some
      order. */
  ghost predicate IsListing(data: seq<(int, seq<(int, Note)>)>, t: Table) {
    && (forall i, j :: 0 <= i < j < |data| ==> data[i].0 != data[j].0)
    && (forall i :: 0 <= i < |data| ==> data[i].0 in t && Lists(data[i].1, t[data[i].0]))
    && (forall a :: a in t ==> exists i :: 0 <= i < |data| && data[i].0 == a)
  }

  method ListTable(t: Table) returns (data: seq<(int, seq<(int, Note)>)>)
    ensures IsListing(data, t)
  {
    data := [];
    var keys := t.Keys;
    while keys != {}
      invariant keys <= t.Keys
      invariant forall i, j :: 0 <= i < j < |data| ==> data[i].0 != data[j].0
      invariant forall i :: 0 <= i < |data| ==>
                  data[i].0 in t && data[i].0 !in keys && Lists(data[i].1, t[data[i].0])
      invariant forall a :: a in t && a !in keys ==> exists i :: 0 <= i < |data| && data[i].0 == a
      decreases keys
    {
      HasMember(keys);
      var a :| a in keys;
      var ps := SetToSeq(t[a]);
      ghost var before := data;
      data := data + [(a, ps)];
      forall b | b in t && b !in keys - {a} ensures exists i :: 0 <= i < |data| && data[i].0 == b {
        if b == a {
          assert data[|data| - 1].0 == b;
        } else {
          var i :| 0 <= i < |before| && before[i].0 == b;
          assert data[i].0 == b;
        }
      }
      keys := keys - {a};
    }
  }

  /** The sutta ids of a listing all name suttas of the table `uidOf`
      (`db.sutta[s_id].sutta_uid` raises `KeyError` otherwise). */
  predicate IdsKnown(data: seq<(int, seq<(int, Note)>)>, uidOf: map<int, string>) {
    forall i :: 0 <= i < |data| ==>
      (data[i].0 in uidOf && forall j :: 0 <= j < |data[i].1| ==> data[i].1[j].0 in uidOf)
  }

  type UidList = seq<(string, seq<(string, Note)>)>

  /** One entry of `parallels_data`: the list comprehension over a listing,
      with every id replaced by its sutta uid. */
  function ToUids(data: seq<(int, seq<(int, Note)>)>, uidOf: map<int, string>): (r: UidList)
    requires IdsKnown(data, uidOf)
    ensures |r| == |data|
    ensures forall i :: 0 <= i < |data| ==>
              r[i].0 == uidOf[data[i].0] && |r[i].1| == |data[i].1| &&
              forall j :: 0 <= j < |data[i].1| ==> r[i].1[j] == (uidOf[data[i].1[j].0], data[i].1[j].1)
  {
    seq(|data|, i requires 0 <= i < |data| =>
      (uidOf[data[i].0], seq(|data[i].1|, j requires 0 <= j < |data[i].1| =>
        (uidOf[data[i].1[j].0], data[i].1[j].1))))
  }

  /** Every uid of a bucket names a sutta (`self.suttas[...]` raises
      `KeyError` otherwise). */
  predicate UidsKnown(bucket: UidList, suttas: map<string, Sutta>) {
    forall i :: 0 <= i < |bucket| ==>
      (bucket[i].0 in suttas && forall j :: 0 <= j < |bucket[i].1| ==> bucket[i].1[j].0 in suttas)
  }

  /** The `Parallel` records one entry appends, in order. */
  function Flagged(ps: seq<(string, Note)>, partial: bool, indirect: bool,
                   suttas: map<string, Sutta>): (r: seq<Parallel>)
    requires forall j :: 0 <= j < |ps| ==> ps[j].0 in suttas
    ensures |r| == |ps|
    ensures forall j :: 0 <= j < |ps| ==> r[j] == Parallel(suttas[ps[j].0], partial, indirect, ps[j].1)
  {
    seq(|ps|, j requires 0 <= j < |ps| => Parallel(suttas[ps[j].0], partial, indirect, ps[j].1))
  }

  /** The lists after one loop of `build_parallels`: for each entry in turn,
      its records are appended to its sutta's `parallels`. */
  function AppendBucket(par: map<string, seq<Parallel>>, bucket: UidList, partial: bool,
                        indirect: bool, suttas: map<string, Sutta>): (r: map<string, seq<Parallel>>)
    requires UidsKnown(bucket, suttas) && suttas.Keys == par.Keys
    ensures r.Keys == par.Keys
    decreases |bucket|
  {
    if bucket == [] then par
    else
      var init := bucket[..|bucket| - 1];
      assert UidsKnown(init, suttas) by {
        forall i | 0 <= i < |init| ensures init[i] == bucket[i] { }
      }
      var p := AppendBucket(par, init, partial, indirect, suttas);
      var (u, ps) := bucket[|bucket| - 1];
      p[u := p[u] + Flagged(ps, partial, indirect, suttas)]
  }

  /** What the entries for sutta `u` contribute, in bucket order. */
  function Contributions(bucket: UidList, u: string, partial: bool, indirect: bool,
                         suttas: map<string, Sutta>): seq<Parallel>
    requires UidsKnown(bucket, suttas)
    decreases |bucket|
  {
    if bucket == [] then []
    else
      var init := bucket[..|bucket| - 1];
      assert UidsKnown(init, suttas) by {
        forall i | 0 <= i < |init| ensures init[i] == bucket[i] { }
      }
      var (v, ps) := bucket[|bucket| - 1];
      Contributions(init, u, partial, indirect, suttas) +
        (if v == u then Flagged(ps, partial, indirect, suttas) else [])
  }

  /** After a loop, each sutta's list is its old list followed by what the
      bucket's entries for it contribute. */
  lemma {:induction false} AppendBucketPerSutta(par: map<string, seq<Parallel>>, bucket: UidList,
                                                partial: bool, indirect: bool,
                                                suttas: map<string, Sutta>, u: string)
    requires UidsKnown(bucket, suttas) && suttas.Keys == par.Keys && u in par
    ensures AppendBucket(par, bucket, partial, indirect, suttas)[u] ==
            par[u] + Contributions(bucket, u, partial, indirect, suttas)
    decreases |bucket|
  {
    if bucket != [] {
      var init := bucket[..|bucket| - 1];
      assert UidsKnown(init, suttas) by {
        forall i | 0 <= i < |init| ensures init[i] == bucket[i] { }
      }
      AppendBucketPerSutta(par, init, partial, indirect, suttas, u);
    }
  }

  /** Some entry of `bucket` for `u` lists the sutta and note of `x`, which
      carries the bucket's flags. */
  ghost predicate Listed(bucket: UidList, u: string, partial: bool, indirect: bool,
                         suttas: map<string, Sutta>, x: Parallel)
    requires UidsKnown(bucket, suttas)
  {
    exists i, j :: 0 <= i < |bucket| && bucket[i].0 == u && 0 <= j < |bucket[i].1| &&
      x == Parallel(suttas[bucket[i].1[j].0], partial, indirect, bucket[i].1[j].1)
  }

  lemma UidsKnownInit(bucket: UidList, suttas: map<string, Sutta>)
    requires UidsKnown(bucket, suttas) && bucket != []
    ensures UidsKnown(bucket[..|bucket| - 1], suttas)
  {
    var init := bucket[..|bucket| - 1];
    forall i | 0 <= i < |init| ensures init[i] == bucket[i] { }
  }

  lemma ListedByLast(bucket: UidList, u: string, partial: bool, indirect: bool,
                     suttas: map<string, Sutta>, x: Parallel)
    requires UidsKnown(bucket, suttas) && bucket != []
    requires bucket[|bucket| - 1].0 == u && x in Flagged(bucket[|bucket| - 1].1, partial, indirect, suttas)
    ensures Listed(bucket, u, partial, indirect, suttas, x)
  {
    var last := |bucket| - 1;
    var fl := Flagged(bucket[last].1, partial, indirect, suttas);
    var j :| 0 <= j < |fl| && fl[j] == x;
    assert 0 <= j < |bucket[last].1|;
  }

  lemma ListedByInit(bucket: UidList, u: string, partial: bool, indirect: bool,
                     suttas: map<string, Sutta>, x: Parallel)
    requires UidsKnown(bucket, suttas) && bucket != [] && UidsKnown(bucket[..|bucket| - 1], suttas)
    requires Listed(bucket[..|bucket| - 1], u, partial, indirect, suttas, x)
    ensures Listed(bucket, u, partial, indirect, suttas, x)
  {
    var init := bucket[..|bucket| - 1];
    var i, j :| 0 <= i < |init| && init[i].0 == u && 0 <= j < |init[i].1| &&
      x == Parallel(suttas[init[i].1[j].0], partial, indirect, init[i].1[j].1);
    assert init[i] == bucket[i];
  }

  lemma ListedSplit(bucket: UidList, u: string, partial: bool, indirect: bool,
                    suttas: map<string, Sutta>, x: Parallel)
    requires UidsKnown(bucket, suttas) && bucket != [] && UidsKnown(bucket[..|bucket| - 1], suttas)
    requires Listed(bucket, u, partial, indirect, suttas, x)
    ensures Listed(bucket[..|bucket| - 1], u, partial, indirect, suttas, x) ||
            (bucket[|bucket| - 1].0 == u && x in Flagged(bucket[|bucket| - 1].1, partial, indirect, suttas))
  {
    var init, last := bucket[..|bucket| - 1], |bucket| - 1;
    var i, j :| 0 <= i < |bucket| && bucket[i].0 == u && 0 <= j < |bucket[i].1| &&
      x == Parallel(suttas[bucket[i].1[j].0], partial, indirect, bucket[i].1[j].1);
    if i < last {
      assert init[i] == bucket[i];
    } else {
      assert Flagged(bucket[last].1, partial, indirect, suttas)[j] == x;
    }
  }

  /** An entry is listed in a bucket when it is listed before the last
      entry or by the last entry. */
  lemma ListedSnoc(bucket: UidList, u: string, partial: bool, indirect: bool,
                   suttas: map<string, Sutta>, x: Parallel)
    requires UidsKnown(bucket, suttas) && bucket != [] && UidsKnown(bucket[..|bucket| - 1], suttas)
    ensures Listed(bucket, u, partial, indirect, suttas, x) <==>
            Listed(bucket[..|bucket| - 1], u, partial, indirect, suttas, x) ||
            (bucket[|bucket| - 1].0 == u && x in Flagged(bucket[|bucket| - 1].1, partial, indirect, suttas))
  {
    var last := |bucket| - 1;
    if bucket[last].0 == u && x in Flagged(bucket[last].1, partial, indirect, suttas) {
      ListedByLast(bucket, u, partial, indirect, suttas, x);
    }
    if Listed(bucket[..last], u, partial, indirect, suttas, x) {
      ListedByInit(bucket, u, partial, indirect, suttas, x);
    }
    if Listed(bucket, u, partial, indirect, suttas, x) {
      ListedSplit(bucket, u, partial, indirect, suttas, x);
    }
  }

  /** A record is contributed to `u` exactly when some entry for `u` lists
      its sutta and note, and it then carries the bucket's flags. */
  lemma {:induction false} ContributionsMember(bucket: UidList, u: string, partial: bool,
                                               indirect: bool, suttas: map<string, Sutta>, x: Parallel)
    requires UidsKnown(bucket, suttas)
    ensures x in Contributions(bucket, u, partial, indirect, suttas) <==>
            exists i, j :: 0 <= i < |bucket| && bucket[i].0 == u && 0 <= j < |bucket[i].1| &&
              x == Parallel(suttas[bucket[i].1[j].0], partial, indirect, bucket[i].1[j].1)
    decreases |bucket|
  {
    if bucket != [] {
      UidsKnownInit(bucket, suttas);
      ListedSnoc(bucket, u, partial, indirect, suttas, x);
      ContributionsMember(bucket[..|bucket| - 1], u, partial, indirect, suttas, x);
      assert Listed(bucket, u, partial, indirect, suttas, x) <==>
             x in Contributions(bucket, u, partial, indirect, suttas);
    }
  }

  /** The sutta ids the tables mention are named by distinct uids. */
  ghost predicate UidsDistinct(uidOf: map<int, string>) {
    forall a, b :: a in uidOf && b in uidOf && a != b ==> uidOf[a] != uidOf[b]
  }

  /** What `t[a]` turns into: a record per pair, with the sutta of the
      pair's id, its note and the bucket's flags. */
  ghost predicate FromTable(t: Table, a: int, uidOf: map<int, string>, suttas: map<string, Sutta>,
                            partial: bool, indirect: bool, x: Parallel) {
    a in t &&
    exists p :: p in t[a] && p.0 in uidOf && uidOf[p.0] in suttas &&
                x == Parallel(suttas[uidOf[p.0]], partial, indirect, p.1)
  }

  lemma ContributedFromTable(data: seq<(int, seq<(int, Note)>)>, t: Table, uidOf: map<int, string>,
                             suttas: map<string, Sutta>, partial: bool, indirect: bool,
                             a: int, x: Parallel)
    requires IsListing(data, t) && IdsKnown(data, uidOf) && UidsDistinct(uidOf) && a in uidOf
    requires UidsKnown(ToUids(data, uidOf), suttas)
    requires x in Contributions(ToUids(data, uidOf), uidOf[a], partial, indirect, suttas)
    ensures FromTable(t, a, uidOf, suttas, partial, indirect, x)
  {
    var b := ToUids(data, uidOf);
    ContributionsMember(b, uidOf[a], partial, indirect, suttas, x);
    var i, j :| 0 <= i < |b| && b[i].0 == uidOf[a] && 0 <= j < |b[i].1| &&
      x == Parallel(suttas[b[i].1[j].0], partial, indirect, b[i].1[j].1);
    assert data[i].0 == a;
    var p := data[i].1[j];
    assert p in t[a];
    assert b[i].1[j] == (uidOf[p.0], p.1);
  }

  lemma TableContributes(data: seq<(int, seq<(int, Note)>)>, t: Table, uidOf: map<int, string>,
                         suttas: map<string, Sutta>, partial: bool, indirect: bool,
                         a: int, x: Parallel)
    requires IsListing(data, t) && IdsKnown(data, uidOf) && a in uidOf
    requires UidsKnown(ToUids(data, uidOf), suttas)
    requires FromTable(t, a, uidOf, suttas, partial, indirect, x)
    ensures x in Contributions(ToUids(data, uidOf), uidOf[a], partial, indirect, suttas)
  {
    var b := ToUids(data, uidOf);
    var p :| p in t[a] && p.0 in uidOf && uidOf[p.0] in suttas &&
       x == Parallel(suttas[uidOf[p.0]], partial, indirect, p.1);
    var i :| 0 <= i < |data| && data[i].0 == a;
    var j :| 0 <= j < |data[i].1| && data[i].1[j] == p;
    assert b[i].0 == uidOf[a] && b[i].1[j] == (uidOf[p.0], p.1);
    ContributionsMember(b, uidOf[a], partial, indirect, suttas, x);
  }

  /** From table to records: the sutta of id `a` receives, from the bucket
      made of table `t`, a record per pair `(p, note)` of `t[a]`, carrying
      the sutta of `p`, the note and the bucket's flags, and nothing else. */
  lemma ListedContributions(data: seq<(int, seq<(int, Note)>)>, t: Table, uidOf: map<int, string>,
                            suttas: map<string, Sutta>, partial: bool, indirect: bool,
                            a: int, x: Parallel)
    requires IsListing(data, t) && IdsKnown(data, uidOf) && UidsDistinct(uidOf) && a in uidOf
    requires UidsKnown(ToUids(data, uidOf), suttas)
    ensures x in Contributions(ToUids(data, uidOf), uidOf[a], partial, indirect, suttas) <==>
            FromTable(t, a, uidOf, suttas, partial, indirect, x)
  {
    if x in Contributions(ToUids(data, uidOf), uidOf[a], partial, indirect, suttas) {
      ContributedFromTable(data, t, uidOf, suttas, partial, indirect, a, x);
    }
    if FromTable(t, a, uidOf, suttas, partial, indirect, x) {
      TableContributes(data, t, uidOf, suttas, partial, indirect, a, x);
    }
  }

  // `build_parallels_data` as a whole

  /** Every id a table mentions names a sutta of `uidOf`. */
  ghost predicate TableIdsKnown(t: Table, uidOf: map<int, string>) {
    forall a :: a in t ==> a in uidOf && forall p :: p in t[a] ==> p.0 in uidOf
  }

  /** Both ends of every correspondence row name a sutta. */
  predicate RowsKnown(rows: seq<Row>, uidOf: map<int, string>) {
    forall i :: 0 <= i < |rows| ==> rows[i].entryId in uidOf && rows[i].correspEntryId in uidOf
  }

  lemma AdjacencyKnown(rows: seq<Row>, partial: bool, uidOf: map<int, string>)
    requires RowsKnown(rows, uidOf)
    ensures TableIdsKnown(Adjacency(Links(rows, partial)), uidOf)
  {
    var links := Links(rows, partial);
    var t := Adjacency(links);
    forall a | a in t ensures a in uidOf && forall p: (int, Note) :: p in t[a] ==> p.0 in uidOf {
      var l: Link :| l in links && l.0 == a;
      LinksFromRows(rows, partial, a, l.1, l.2);
      forall p: (int, Note) | p in t[a] ensures p.0 in uidOf {
        assert (a, p.0, p.1) in links;
        LinksFromRows(rows, partial, a, p.0, p.1);
      }
    }
  }

  lemma IndirectsKnown(fulls: Table, uidOf: map<int, string>)
    requires TableIdsKnown(fulls, uidOf)
    ensures TableIdsKnown(Indirects(fulls), uidOf)
  {
    var ind := Indirects(fulls);
    forall a: int, q: (int, Note) | a in ind && q in ind[a] ensures q.0 in uidOf {
      assert q in Reach(fulls, a);
      var p: (int, Note) :| p in fulls[a] && p.0 in fulls && q in fulls[p.0];
      var b := p.0;
      assert forall y :: y in fulls[b] ==> y.0 in uidOf;
    }
  }

  lemma ListingKnown(data: seq<(int, seq<(int, Note)>)>, t: Table, uidOf: map<int, string>)
    requires IsListing(data, t) && TableIdsKnown(t, uidOf)
    ensures IdsKnown(data, uidOf)
  {
    forall i, j | 0 <= i < |data| && 0 <= j < |data[i].1| ensures data[i].1[j].0 in uidOf {
      var a := data[i].0;
      assert a in t && Lists(data[i].1, t[a]);
      assert data[i].1[j] in data[i].1;
      assert data[i].1[j] in t[a];
    }
  }

  /** A table listed with its ids turned into uids. */
  method UidListing(t: Table, uidOf: map<int, string>) returns (r: UidList, data: seq<(int, seq<(int, Note)>)>)
    requires TableIdsKnown(t, uidOf)
    ensures IsListing(data, t) && IdsKnown(data, uidOf) && r == ToUids(data, uidOf)
  {
    data := ListTable(t);
    ListingKnown(data, t, uidOf);
    r := ToUids(data, uidOf);
  }

  // `test()`

  /** The two suttas `test()` checks. */
  const CaseSuttas: seq<int> := [16, 4218]

  /** A `defaultdict(set)` after `t[a]` is read: an empty set is inserted
      under `a` when it is absent, and the table is otherwise unchanged. */
  function ReadDefault(t: Table, a: int): (r: Table)
    ensures r.Keys == t.Keys + {a}
    ensures forall b :: b in t ==> r[b] == t[b]
    ensures a !in t ==> r[a] == {}
  {
    if a in t then t else t[a := {}]
  }

  /** The table after `test()` has read it at both case suttas. */
  function CaseTouched(t: Table): (r: Table)
    ensures r.Keys == t.Keys + {16, 4218}
    ensures forall b :: b in t ==> r[b] == t[b]
    ensures forall b :: b in r && b !in t ==> r[b] == {}
  {
    ReadDefault(ReadDefault(t, 16), 4218)
  }

  /** `test()`: for each case sutta the reads `fulls[id]`, `indirects[id]`
      and `partials[id]` insert an empty set under an absent id; the
      comparison with the expected ids only logs. */
  method SelfTest(fulls: Table, indirects: Table, partials: Table) returns (f: Table, i: Table, p: Table)
    ensures f == CaseTouched(fulls) && i == CaseTouched(indirects) && p == CaseTouched(partials)
  {
    f, i, p := fulls, indirects, partials;
    for k := 0 to |CaseSuttas|
      invariant f == (if k == 0 then fulls else if k == 1 then ReadDefault(fulls, 16) else CaseTouched(fulls))
      invariant i == (if k == 0 then indirects else if k == 1 then ReadDefault(indirects, 16) else CaseTouched(indirects))
      invariant p == (if k == 0 then partials else if k == 1 then ReadDefault(partials, 16) else CaseTouched(partials))
    {
      var a := CaseSuttas[k];
      f := ReadDefault(f, a);
      i := ReadDefault(i, a);
      p := ReadDefault(p, a);
    }
  }

  /** Whatever the rows, the listing of a table `test()` has read holds an
      entry for each case sutta, and that entry is empty exactly when the
      table had no entry of its own. */
  lemma CaseSuttasListed(data: seq<(int, seq<(int, Note)>)>, t: Table, a: int)
    requires IsListing(data, CaseTouched(t)) && a in CaseSuttas
    ensures exists i :: 0 <= i < |data| && data[i].0 == a
    ensures forall i :: 0 <= i < |data| && data[i].0 == a ==> (data[i].1 == [] <==> a !in t || t[a] == {})
  {
    var r := CaseTouched(t);
    assert a in r;
    forall i | 0 <= i < |data| && data[i].0 == a
      ensures data[i].1 == [] <==> a !in t || t[a] == {}
    {
      assert Lists(data[i].1, r[a]);
      if data[i].1 != [] {
        assert data[i].1[0] in r[a];
      }
      if r[a] != {} {
        var x :| x in r[a];
        assert x in data[i].1;
      }
    }
  }

  lemma CaseTouchedKnown(t: Table, uidOf: map<int, string>)
    requires TableIdsKnown(t, uidOf) && 16 in uidOf && 4218 in uidOf
    ensures TableIdsKnown(CaseTouched(t), uidOf)
  {
  }

  /** `build_parallels_data`: the three buckets `fulls`, `indirects` and
      `partials` of `parallels_data`, each a listing of its table, as
      `test()` has left it, with sutta ids turned into uids. Listing the
      keys looks up `db.sutta` at both case suttas, so both must be
      suttas. */
  method BuildParallelsData(rows: seq<Row>, uidOf: map<int, string>)
    returns (fullsU: UidList, indirectsU: UidList, partialsU: UidList,
             ghost fd: seq<(int, seq<(int, Note)>)>, ghost id: seq<(int, seq<(int, Note)>)>,
             ghost pd: seq<(int, seq<(int, Note)>)>)
    requires RowsKnown(rows, uidOf) && 16 in uidOf && 4218 in uidOf
    ensures IsListing(fd, CaseTouched(Adjacency(Links(rows, false)))) && IdsKnown(fd, uidOf) &&
            fullsU == ToUids(fd, uidOf)
    ensures IsListing(id, CaseTouched(Indirects(Adjacency(Links(rows, false))))) && IdsKnown(id, uidOf) &&
            indirectsU == ToUids(id, uidOf)
    ensures IsListing(pd, CaseTouched(Adjacency(Links(rows, true)))) && IdsKnown(pd, uidOf) &&
            partialsU == ToUids(pd, uidOf)
  {
    var fulls, partials := BuildTables(rows);
    var indirects := BuildIndirects(fulls);
    AdjacencyKnown(rows, false, uidOf);
    AdjacencyKnown(rows, true, uidOf);
    IndirectsKnown(fulls, uidOf);
    CaseTouchedKnown(fulls, uidOf);
    CaseTouchedKnown(indirects, uidOf);
    CaseTouchedKnown(partials, uidOf);
    fulls, indirects, partials := SelfTest(fulls, indirects, partials);
    fullsU, fd := UidListing(fulls, uidOf);
    indirectsU, id := UidListing(indirects, uidOf);
    partialsU, pd := UidListing(partials, uidOf);
  }

  // `build_parallels`

  lemma FlaggedSnoc(ps: seq<(string, Note)>, j: int, partial: bool, indirect: bool, suttas: map<string, Sutta>)
    requires 0 <= j < |ps| && forall k :: 0 <= k < |ps| ==> ps[k].0 in suttas
    ensures Flagged(ps[..j + 1], partial, indirect, suttas) ==
            Flagged(ps[..j], partial, indirect, suttas) + [Parallel(suttas[ps[j].0], partial, indirect, ps[j].1)]
  {
  }

  /** The inner loop: a record per pair of `ps`, appended in order. */
  method AppendFlagged(lst: seq<Parallel>, ps: seq<(string, Note)>, partial: bool, indirect: bool,
                       suttas: map<string, Sutta>) returns (r: seq<Parallel>)
    requires forall k :: 0 <= k < |ps| ==> ps[k].0 in suttas
    ensures r == lst + Flagged(ps, partial, indirect, suttas)
  {
    r := lst;
    var j := 0;
    while j < |ps|
      invariant 0 <= j <= |ps|
      invariant r == lst + Flagged(ps[..j], partial, indirect, suttas)
    {
      FlaggedSnoc(ps, j, partial, indirect, suttas);
      r := r + [Parallel(suttas[ps[j].0], partial, indirect, ps[j].1)];
      j := j + 1;
    }
    assert ps[..|ps|] == ps;
  }

  lemma UidsKnownPrefix(bucket: UidList, suttas: map<string, Sutta>, i: int)
    requires UidsKnown(bucket, suttas) && 0 <= i <= |bucket|
    ensures UidsKnown(bucket[..i], suttas)
  {
    forall k | 0 <= k < i ensures bucket[..i][k] == bucket[k] { }
  }

  lemma AppendBucketSnoc(par: map<string, seq<Parallel>>, bucket: UidList, i: int, partial: bool,
                         indirect: bool, suttas: map<string, Sutta>)
    requires UidsKnown(bucket, suttas) && suttas.Keys == par.Keys && 0 <= i < |bucket|
    ensures UidsKnown(bucket[..i], suttas) && UidsKnown(bucket[..i + 1], suttas)
    ensures var p := AppendBucket(par, bucket[..i], partial, indirect, suttas);
            AppendBucket(par, bucket[..i + 1], partial, indirect, suttas) ==
            p[bucket[i].0 := p[bucket[i].0] + Flagged(bucket[i].1, partial, indirect, suttas)]
  {
    UidsKnownPrefix(bucket, suttas, i);
    UidsKnownPrefix(bucket, suttas, i + 1);
    assert bucket[..i + 1][..i] == bucket[..i];
  }

  /** One loop of `build_parallels`: for each entry of a bucket, its
      records are appended to its sutta's list. */
  method AppendAll(par: map<string, seq<Parallel>>, bucket: UidList, partial: bool, indirect: bool,
                   suttas: map<string, Sutta>) returns (r: map<string, seq<Parallel>>)
    requires UidsKnown(bucket, suttas) && suttas.Keys == par.Keys
    ensures r == AppendBucket(par, bucket, partial, indirect, suttas)
  {
    r := par;
    var i := 0;
    UidsKnownPrefix(bucket, suttas, 0);
    while i < |bucket|
      invariant 0 <= i <= |bucket| && UidsKnown(bucket[..i], suttas)
      invariant r == AppendBucket(par, bucket[..i], partial, indirect, suttas)
    {
      AppendBucketSnoc(par, bucket, i, partial, indirect, suttas);
      var (u, ps) := bucket[i];
      var lst := AppendFlagged(r[u], ps, partial, indirect, suttas);
      r := r[u := lst];
      i := i + 1;
    }
    assert bucket[..|bucket|] == bucket;
  }
}
