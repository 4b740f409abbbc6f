/** `TextCollection` of src/classes.py: a dict from an internally hosted
    path (such as `dn1/en`) to the list of suttas or translations hosted
    there. `SuttaTextCollection` and `TranslationTextCollection` differ only
    in how they sort each list; here they are the two instances of
    `TextCollection<T>` that `SuttaTexts` and `TranslationTexts` describe.
    URLs are assumed to hold no newline, before which `$` would also match. */
module TextCollections {
  import opened Wrappers
  import opened Strings
  import opened PyValue
  import opened Entities
  import Sorting

  /** Index of the first `c` in `s`, or `|s|`. */
  function FirstIndex(s: string, c: char): (i: nat)
    ensures i <= |s|
    ensures forall j :: 0 <= j < i ==> s[j] != c
    ensures i < |s| ==> s[i] == c
  {
    if s == [] || s[0] == c then 0 else 1 + FirstIndex(s[1..], c)
  }

  /** Index of the last `c` in `s`, or -1. */
  function LastIndex(s: string, c: char): (i: int)
    ensures -1 <= i < |s|
    ensures forall j :: i < j < |s| ==> s[j] != c
    ensures i >= 0 ==> s[i] == c
  {
    if s == [] then -1
    else if s[|s| - 1] == c then |s| - 1
    else LastIndex(s[..|s| - 1], c)
  }

  /** `path[1:]` */
  function DropFirst(s: string): string
  {
    if s == [] then [] else s[1..]
  }

  /** `_normalize_path(path)`, that is `regex.sub(r'/?(#.+)?$', '', path[1:])`:
      the first `#` that has something after it starts the part to remove,
      together with a `/` just before it; with no such `#` a trailing `/`
      is removed. */
  function NormalizePath(path: string): string
  {
    var s := DropFirst(path);
    var h := FirstIndex(s, '#');
    if h + 1 < |s| then
      if h > 0 && s[h - 1] == '/' then s[..h - 1] else s[..h]
    else if s != [] && s[|s| - 1] == '/' then s[..|s| - 1]
    else s
  }

  /** `t` matches `/?(#.+)?$` from its start, for newline-free text. */
  predicate MatchesTail(t: string) {
    || t == ""
    || t == "/"
    || (|t| >= 2 && t[0] == '#')
    || (|t| >= 3 && t[0] == '/' && t[1] == '#')
  }

  /** `NormalizePath` cuts `path[1:]` exactly at the leftmost position where
      the pattern matches, which is what `regex.sub` removes (the empty match
      at the very end removes nothing). */
  lemma NormalizePathIsLeftmostMatch(path: string)
    ensures var s, r := DropFirst(path), NormalizePath(path);
            |r| <= |s| && r == s[..|r|] && MatchesTail(s[|r|..]) &&
            forall i :: 0 <= i < |r| ==> !MatchesTail(s[i..])
  {
    var s, r := DropFirst(path), NormalizePath(path);
    var h := FirstIndex(s, '#');
    assert r == s[..|r|];
    if h + 1 < |s| {
      if h > 0 && s[h - 1] == '/' {
        assert s[h - 1..][0] == '/' && s[h - 1..][1] == '#';
      } else {
        assert s[h..][0] == '#';
      }
    } else if s != [] && s[|s| - 1] == '/' {
      assert s[|s| - 1..] == "/";
    } else {
      assert s[|s|..] == "";
    }
  }

  lemma {:induction false} FirstIndexAfter(a: string, c: char, b: string)
    requires forall i :: 0 <= i < |a| ==> a[i] != c
    ensures FirstIndex(a + [c] + b, c) == |a|
  {
    if a != [] {
      assert (a + [c] + b)[1..] == a[1..] + [c] + b;
      FirstIndexAfter(a[1..], c, b);
    }
  }

  lemma {:induction false} FirstIndexNone(a: string, c: char)
    requires forall i :: 0 <= i < |a| ==> a[i] != c
    ensures FirstIndex(a, c) == |a|
  {
    if a != [] { FirstIndexNone(a[1..], c); }
  }

  lemma NoHashSlash(base: string)
    requires forall i :: 0 <= i < |base| ==> base[i] != '#'
    ensures forall i :: 0 <= i < |base + "/"| ==> (base + "/")[i] != '#'
  {
    var s1 := base + "/";
    forall i | 0 <= i < |s1| ensures s1[i] != '#' { if i < |base| { assert s1[i] == base[i]; } }
  }

  /** `/<base>/` normalises to `<base>`. */
  lemma NormalizeTrailingSlash(base: string)
    requires forall i :: 0 <= i < |base| ==> base[i] != '#'
    ensures NormalizePath("/" + base + "/") == base
  {
    var s1 := base + "/";
    assert DropFirst("/" + base + "/") == s1;
    NoHashSlash(base);
    FirstIndexNone(s1, '#');
    assert s1[..|s1| - 1] == base;
  }

  /** `/<base>#<anchor>` normalises to `<base>`. */
  lemma NormalizeAnchor(base: string, anchor: string)
    requires forall i :: 0 <= i < |base| ==> base[i] != '#'
    requires base == [] || base[|base| - 1] != '/'
    requires anchor != []
    ensures NormalizePath("/" + base + "#" + anchor) == base
  {
    var s2 := base + "#" + anchor;
    assert DropFirst("/" + base + "#" + anchor) == s2;
    FirstIndexAfter(base, '#', anchor);
    assert s2[..|base|] == base;
  }

  /** `/<base>/#<anchor>` normalises to `<base>`. */
  lemma NormalizeSlashAnchor(base: string, anchor: string)
    requires forall i :: 0 <= i < |base| ==> base[i] != '#'
    requires anchor != []
    ensures NormalizePath("/" + base + "/#" + anchor) == base
  {
    var s1 := base + "/";
    var s3 := s1 + "#" + anchor;
    assert "/" + base + "/#" + anchor == "/" + s3;
    assert DropFirst("/" + s3) == s3;
    NoHashSlash(base);
    FirstIndexAfter(s1, '#', anchor);
    assert s3[|s1| - 1] == '/';
    assert s3[..|s1| - 1] == base;
  }

  predicate PathChar(c: char) { c == '-' || c == '.' || IsLowerAscii(c) || IsDigit(c) }

  /** `_valid_path(path)`: `regex.match(r'^[-.a-z0-9]+/[a-z]+$', path)`. The
      first part holds no `/`, so it ends at the first `/`. */
  predicate ValidPath(p: string) {
    var i := FirstIndex(p, '/');
    && 0 < i && i + 1 < |p|
    && (forall j :: 0 <= j < i ==> PathChar(p[j]))
    && (forall j :: i < j < |p| ==> IsLowerAscii(p[j]))
  }

  /** The grammar the pattern denotes: `<[-.a-z0-9]+>/<[a-z]+>`. */
  ghost predicate PathGrammar(p: string) {
    exists i :: 0 < i < |p| - 1 && p[i] == '/' &&
      (forall j :: 0 <= j < i ==> PathChar(p[j])) &&
      (forall j :: i < j < |p| ==> IsLowerAscii(p[j]))
  }

  /** The scan agrees with the grammar in both directions. */
  lemma ValidPathIsGrammar(p: string)
    ensures ValidPath(p) <==> PathGrammar(p)
  {
    var i := FirstIndex(p, '/');
    if PathGrammar(p) {
      var k :| 0 < k < |p| - 1 && p[k] == '/' &&
        (forall j :: 0 <= j < k ==> PathChar(p[j])) &&
        (forall j :: k < j < |p| ==> IsLowerAscii(p[j]));
      assert !PathChar('/');
      assert i == k;
    }
  }

  /** `dn1/en` is a valid path; `dn/1` (digits in the language part) and
      `dn1` (no language part) are not. */
  lemma ValidPathExamples()
    ensures ValidPath("dn1/en")
    ensures !ValidPath("dn/1")
    ensures !ValidPath("dn1")
  {
    ValidPathAccepts();
    ValidPathRejectsDigits();
    ValidPathRejectsNoSlash();
  }

  lemma ValidPathAccepts()
    ensures ValidPath("dn1/en")
  {
    var p := "dn1/en";
    assert p[3] == '/' && p[0] != '/' && p[1] != '/' && p[2] != '/';
    assert FirstIndex(p, '/') == 3;
  }

  lemma ValidPathRejectsDigits()
    ensures !ValidPath("dn/1")
  {
    var p := "dn/1";
    assert p[2] == '/' && p[0] != '/' && p[1] != '/';
    assert FirstIndex(p, '/') == 2;
    assert !IsLowerAscii(p[3]);
  }

  lemma ValidPathRejectsNoSlash()
    ensures !ValidPath("dn1")
  {
    var p := "dn1";
    assert p[0] != '/' && p[1] != '/' && p[2] != '/';
    assert FirstIndex(p, '/') == 3;
  }

  /** `SuttaTextCollection.list_sort_key`: the sutta number. */
  function SuttaListKey(s: Sutta): Value { Int(s.number) }

  /** The numbers `TranslationTextCollection.list_sort_key` reads from the url:
      `regex.match(r'^.+#([0-9]+)(?:-([0-9]+))?$', url)` succeeds only on
      the last `#`, which must not be the first character. */
  function FragmentNumbers(url: string): seq<int>
  {
    var j := LastIndex(url, '#');
    if j < 1 then [0, 0] else FragmentDigits(url[j + 1..])
  }

  /** The numbers of the fragment `f` after the last `#`: `N` or `N-M`. */
  function FragmentDigits(f: string): seq<int>
  {
    var d := DigitPrefix(f);
    if d == 0 then [0, 0]
    else if d == |f| then [ParseNat(f), 0]
    else if f[d] == '-' && d + 1 < |f| && AllDigits(f[d + 1..]) then
      [ParseNat(f[..d]), ParseNat(f[d + 1..])]
    else [0, 0]
  }

  /** Length of the run of digits `s` starts with. */
  function DigitPrefix(s: string): (n: nat)
    ensures n <= |s| && AllDigits(s[..n])
    ensures n < |s| ==> !IsDigit(s[n])
  {
    if s != [] && IsDigit(s[0]) then
      var n := 1 + DigitPrefix(s[1..]);
      assert s[..n] == [s[0]] + s[1..][..n - 1];
      n
    else 0
  }

  /** `TranslationTextCollection.list_sort_key(translation)`. */
  function TranslationListKey(t: Translation): Value
  {
    Ints(FragmentNumbers(t.url))
  }

  lemma {:induction false} DigitPrefixAll(s: string)
    requires AllDigits(s)
    ensures DigitPrefix(s) == |s|
  {
    if s != [] { DigitPrefixAll(s[1..]); }
  }

  lemma {:induction false} DigitPrefixOf(a: string, b: string)
    requires AllDigits(a) && b != [] && !IsDigit(b[0])
    ensures DigitPrefix(a + b) == |a|
  {
    if a != [] {
      assert (a + b)[1..] == a[1..] + b;
      DigitPrefixOf(a[1..], b);
    }
  }

  lemma LastHashOf(prefix: string, rest: string)
    requires forall i :: 0 <= i < |rest| ==> rest[i] != '#'
    ensures LastIndex(prefix + "#" + rest, '#') == |prefix|
    ensures (prefix + "#" + rest)[|prefix| + 1..] == rest
  {
    var u := prefix + "#" + rest;
    var j := LastIndex(u, '#');
    assert u[|prefix|] == '#';
  }

  lemma NoHashIn(s: string)
    requires AllDigits(s)
    ensures forall i :: 0 <= i < |s| ==> s[i] != '#'
  {
  }

  /** `list_sort_key` reads back the number of a `#N` fragment after a
      non-empty prefix. */
  lemma FragmentNumberRoundTrip(prefix: string, n: nat)
    requires prefix != []
    ensures FragmentNumbers(prefix + "#" + NatToString(n)) == [n, 0]
  {
    var a := NatToString(n);
    NoHashIn(a);
    LastHashOf(prefix, a);
    DigitPrefixAll(a);
  }

  /** `N-M` holds no `#`, and its first digit run is `N`. */
  lemma RangeShape(a: string, b: string)
    requires a != [] && AllDigits(a) && b != [] && AllDigits(b)
    ensures var r := a + "-" + b;
            (forall i :: 0 <= i < |r| ==> r[i] != '#') &&
            DigitPrefix(r) == |a| && r[|a|] == '-' && |a| + 1 < |r| &&
            r[..|a|] == a && r[|a| + 1..] == b
  {
    var r := a + "-" + b;
    forall i | 0 <= i < |r| ensures r[i] != '#' {
      if i < |a| { assert r[i] == a[i]; }
      else if i > |a| { assert r[i] == b[i - |a| - 1]; }
    }
    assert r == a + ("-" + b);
    DigitPrefixOf(a, "-" + b);
  }

  lemma Associate(prefix: string, a: string, b: string)
    ensures prefix + "#" + a + "-" + b == prefix + "#" + (a + "-" + b)
  {
  }

  /** `list_sort_key` reads back both numbers of a `#N-M` fragment after a
      non-empty prefix. */
  lemma FragmentRangeRoundTrip(prefix: string, n: nat, m: nat)
    requires prefix != []
    ensures FragmentNumbers(prefix + "#" + NatToString(n) + "-" + NatToString(m)) == [n, m]
  {
    var a, b := NatToString(n), NatToString(m);
    RangeShape(a, b);
    Associate(prefix, a, b);
    LastHashOf(prefix, a + "-" + b);
  }

  lemma NoFragmentKey(url: string)
    requires forall i :: 0 <= i < |url| ==> url[i] != '#'
    ensures FragmentNumbers(url) == [0, 0]
  {
  }

  /** `url` is hosted here: truthy and starting with `/`. */
  predicate Hosted(url: Option<string>) { Truthy(url) && StartsWith(url.value, "/") }

  function ListAt<T>(lists: map<string, seq<T>>, p: string): seq<T>
  {
    if p in lists then lists[p] else []
  }

  /** `TextCollection.add(obj)` for an object whose url is `url`: the new
      table, or the path of `InvalidTextCollectionPathException`. */
  function AddResult<T>(lists: map<string, seq<T>>, url: Option<string>, obj: T)
    : (r: Result<map<string, seq<T>>, string>)
    ensures !Hosted(url) ==> r == Ok(lists)
    ensures Hosted(url) && !ValidPath(NormalizePath(url.value)) ==>
              r == Err(NormalizePath(url.value))
    ensures Hosted(url) && ValidPath(NormalizePath(url.value)) ==>
              var p := NormalizePath(url.value);
              r.Ok? && r.value.Keys == lists.Keys + {p} &&
              |r.value[p]| == |ListAt(lists, p)| + 1 &&
              r.value[p][..|ListAt(lists, p)|] == ListAt(lists, p) &&
              r.value[p][|ListAt(lists, p)|] == obj &&
              (forall q :: q in lists && q != p ==> r.value[q] == lists[q])
  {
    if !Hosted(url) then Ok(lists)
    else
      var p := NormalizePath(url.value);
      if ValidPath(p) then Ok(lists[p := ListAt(lists, p) + [obj]])
      else Err(p)
  }

  /** The table after `add` is called for each of `objs` in turn; an object
      whose `add` raises leaves it as it was. */
  function AddAll<T>(lists: map<string, seq<T>>, objs: seq<T>, urlOf: T -> Option<string>): map<string, seq<T>>
    decreases |objs|
  {
    if objs == [] then lists
    else
      var prev := AddAll(lists, objs[..|objs| - 1], urlOf);
      var last := objs[|objs| - 1];
      match AddResult(prev, urlOf(last), last)
      case Ok(m) => m
      case Err(_) => prev
  }

  /** `obj` is filed under `p`: hosted, with `p` its valid normalised path. */
  predicate FiledUnder<T>(obj: T, urlOf: T -> Option<string>, p: string) {
    Hosted(urlOf(obj)) && NormalizePath(urlOf(obj).value) == p && ValidPath(p)
  }

  /** The objects of `objs` filed under `p`, in order. */
  function FiledAt<T>(objs: seq<T>, urlOf: T -> Option<string>, p: string): seq<T>
    decreases |objs|
  {
    if objs == [] then []
    else
      var last := objs[|objs| - 1];
      FiledAt(objs[..|objs| - 1], urlOf, p) + (if FiledUnder(last, urlOf, p) then [last] else [])
  }

  /** One more `add`: the list at `p` grows by the object exactly when it
      is filed under `p`. */
  lemma AddOneAt<T>(prev: map<string, seq<T>>, obj: T, urlOf: T -> Option<string>, p: string)
    ensures var next := match AddResult(prev, urlOf(obj), obj) case Ok(m) => m case Err(_) => prev;
            ListAt(next, p) == ListAt(prev, p) + (if FiledUnder(obj, urlOf, p) then [obj] else []) &&
            (p in next <==> p in prev || FiledUnder(obj, urlOf, p))
  {
  }

  lemma ConcatAssoc<X>(a: seq<X>, b: seq<X>, c: seq<X>)
    ensures (a + b) + c == a + (b + c)
  {
  }

  /** After adding `objs`, the list at each path is the old one followed
      by the objects filed under that path, in order; a path is present
      iff it was, or some object is filed under it. */
  lemma {:induction false} AddAllAt<T>(lists: map<string, seq<T>>, objs: seq<T>, urlOf: T -> Option<string>, p: string)
    ensures ListAt(AddAll(lists, objs, urlOf), p) == ListAt(lists, p) + FiledAt(objs, urlOf, p)
    ensures p in AddAll(lists, objs, urlOf) <==> p in lists || FiledAt(objs, urlOf, p) != []
    decreases |objs|
  {
    if objs != [] {
      var init := objs[..|objs| - 1];
      var last := objs[|objs| - 1];
      AddAllAt(lists, init, urlOf, p);
      AddOneAt(AddAll(lists, init, urlOf), last, urlOf, p);
      ConcatAssoc(ListAt(lists, p), FiledAt(init, urlOf, p), if FiledUnder(last, urlOf, p) then [last] else []);
    }
  }

  /** One more object, without an exception escaping: the table `add`
      leaves, or the old one when it raises. */
  lemma AddAllSnoc<T>(lists: map<string, seq<T>>, objs: seq<T>, x: T, urlOf: T -> Option<string>)
    ensures AddAll(lists, objs + [x], urlOf) ==
            match AddResult(AddAll(lists, objs, urlOf), urlOf(x), x)
            case Ok(m) => m
            case Err(_) => AddAll(lists, objs, urlOf)
  {
    assert (objs + [x])[..|objs|] == objs;
  }

  /** Sutta numbers are ints, so suttas always compare. */
  lemma SuttaKeysComparable(s: seq<Sutta>)
    ensures Sorting.KeysComparable(s, SuttaListKey)
  {
  }

  /** Fragment keys are int pairs, so translations always compare. */
  lemma TranslationKeysComparable(s: seq<Translation>)
    ensures Sorting.KeysComparable(s, TranslationListKey)
  {
    forall x, y | x in s && y in s ensures Comparable(TranslationListKey(x), TranslationListKey(y)) {
      IntsLess(FragmentNumbers(x.url), FragmentNumbers(y.url));
    }
  }

  class TextCollection<T> {
    /** The `url` attribute of a stored object. */
    const urlOf: T -> Option<string>
    /** The subclass's `list_sort_key`. */
    const listKey: T -> Value
    var lists: map<string, seq<T>>

    constructor(urlOf: T -> Option<string>, listKey: T -> Value)
      ensures this.urlOf == urlOf && this.listKey == listKey && lists == map[]
    {
      this.urlOf := urlOf;
      this.listKey := listKey;
      lists := map[];
    }

    /** `add(obj)`: an object whose url is not hosted here is ignored; one
        with a valid path is appended to that path's list; otherwise
        `InvalidTextCollectionPathException` is raised (`Err` with the path)
        and nothing changes. */
    method Add(obj: T) returns (r: Result<(), string>)
      modifies this
      ensures var res := AddResult(old(lists), urlOf(obj), obj);
              (res.Ok? ==> lists == res.value && r == Ok(())) &&
              (res.Err? ==> lists == old(lists) && r == Err(res.error))
    {
      var url := urlOf(obj);
      if url.Some? && url.value != "" && StartsWith(url.value, "/") {
        var path := NormalizePath(url.value);
        if ValidPath(path) {
          var lst := if path in lists then lists[path] else [];
          lists := lists[path := lst + [obj]];
          r := Ok(());
        } else {
          r := Err(path);
        }
      } else {
        r := Ok(());
      }
    }

    /** `sort_lists()`: sorts every list by `list_sort_key`. */
    method SortLists()
      modifies this
      ensures lists == Sorting.SortValues(old(lists), listKey)
    {
      lists := Sorting.SortEach(lists, listKey);
    }
  }

  /** A new `SuttaTextCollection`. */
  method SuttaTexts() returns (c: TextCollection<Sutta>)
    ensures fresh(c) && c.lists == map[]
    ensures c.listKey == SuttaListKey
    ensures forall s :: c.urlOf(s) == s.url
  {
    c := new TextCollection((s: Sutta) => s.url, SuttaListKey);
  }

  /** A new `TranslationTextCollection`. */
  method TranslationTexts() returns (c: TextCollection<Translation>)
    ensures fresh(c) && c.lists == map[]
    ensures c.listKey == TranslationListKey
    ensures forall t :: c.urlOf(t) == Some(t.url)
  {
    c := new TextCollection((t: Translation) => Some(t.url), TranslationListKey);
  }

  /** `for obj in objs: try: c.add(obj) except InvalidTextCollectionPathException: log`:
      each object is added in turn, and one whose path is invalid is left
      out. */
  method AddEach<T>(c: TextCollection<T>, objs: seq<T>)
    modifies c
    ensures c.lists == AddAll(old(c.lists), objs, c.urlOf)
  {
    ghost var start := c.lists;
    var i := 0;
    while i < |objs|
      invariant 0 <= i <= |objs|
      invariant c.lists == AddAll(start, objs[..i], c.urlOf)
    {
      AddAllSnoc(start, objs[..i], objs[i], c.urlOf);
      assert objs[..i + 1] == objs[..i] + [objs[i]];
      var _ := c.Add(objs[i]);
      i := i + 1;
    }
    assert objs[..|objs|] == objs;
  }
}
