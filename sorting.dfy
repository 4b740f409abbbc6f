/** Python's `sorted(s, key=k)` and `list.sort(key=k)`. The library sort is
    stable and uses only `<` on the keys; for keys that are pairwise
    comparable this determines a unique result, the one the stable insertion
    sort below computes. */
module Sorting {
  import opened PyValue

  /** Puts `x` after every element whose key is strictly smaller, and before
      the rest. */
  function Insert<T>(x: T, r: seq<T>, key: T -> Value): (out: seq<T>)
    ensures multiset(out) == multiset(r) + multiset{x}
  {
    if r == [] then [x]
    else if Lt(key(r[0]), key(x)) then
      assert r == [r[0]] + r[1..];
      [r[0]] + Insert(x, r[1..], key)
    else [x] + r
  }

  function SortBy<T>(s: seq<T>, key: T -> Value): (r: seq<T>)
    ensures multiset(r) == multiset(s)
  {
    if s == [] then [] else
      assert s == [s[0]] + s[1..];
      Insert(s[0], SortBy(s[1..], key), key)
  }

  lemma SortByThree<T>(a: T, b: T, c: T, key: T -> Value)
    ensures SortBy([a, b, c], key) == Insert(a, Insert(b, [c], key), key)
  {
    var s := [a, b, c];
    assert s[1..] == [b, c] && s[1..][1..] == [c];
    assert SortBy([c], key) == [c] by { assert [c][1..] == []; }
  }

  /** Three elements already in key order stay put. */
  lemma SortThreeKept<T>(a: T, b: T, c: T, key: T -> Value)
    requires !Lt(key(c), key(b)) && !Lt(key(b), key(a))
    ensures SortBy([a, b, c], key) == [a, b, c]
  {
    SortByThree(a, b, c, key);
    Displays(a, b, c);
    InsertFront(b, [c], key);
    InsertFront(a, [b, c], key);
  }

  lemma InsertFront<T>(x: T, r: seq<T>, key: T -> Value)
    requires r == [] || !Lt(key(r[0]), key(x))
    ensures Insert(x, r, key) == [x] + r
  {
  }

  lemma InsertAfterOne<T>(x: T, y: T, key: T -> Value)
    requires Lt(key(y), key(x))
    ensures Insert(x, [y], key) == [y, x]
  {
    assert [y][1..] == [];
  }

  lemma InsertPast<T>(x: T, y: T, t: seq<T>, key: T -> Value)
    requires Lt(key(y), key(x))
    ensures Insert(x, [y] + t, key) == [y] + Insert(x, t, key)
  {
    assert ([y] + t)[0] == y && ([y] + t)[1..] == t;
  }

  /** Three elements in strictly decreasing key order are reversed. */
  lemma SortThreeReversed<T>(a: T, b: T, c: T, key: T -> Value)
    requires Lt(key(c), key(b)) && Lt(key(c), key(a)) && Lt(key(b), key(a))
    ensures SortBy([a, b, c], key) == [c, b, a]
  {
    SortByThree(a, b, c, key);
    InsertAfterOne(b, c, key);
    InsertAfterOne(a, b, key);
    Displays(c, b, a);
    InsertPast(a, c, [b], key);
  }

  lemma Displays<T>(x: T, y: T, z: T)
    ensures [x] + [y] == [x, y] && [x] + [y, z] == [x, y, z]
  {
  }

  /** No pair of keys raises `TypeError` when compared. */
  ghost predicate KeysComparable<T>(s: seq<T>, key: T -> Value) {
    forall x, y :: x in s && y in s ==> Comparable(key(x), key(y))
  }

  /** No later element has a key strictly below an earlier one. */
  ghost predicate SortedBy<T>(s: seq<T>, key: T -> Value) {
    forall i, j :: 0 <= i < j < |s| ==> !Lt(key(s[j]), key(s[i]))
  }

  /** The key `(k1(x), k2(x))`. */
  function Compound<T>(k1: T -> Value, k2: T -> Value): T -> Value {
    x => List([k1(x), k2(x)])
  }

  lemma SortedCons<T>(a: T, t: seq<T>, key: T -> Value)
    requires SortedBy(t, key)
    requires forall e :: e in t ==> !Lt(key(e), key(a))
    ensures SortedBy([a] + t, key)
  {
    var s := [a] + t;
    forall i, j | 0 <= i < j < |s| ensures !Lt(key(s[j]), key(s[i])) {
      if i > 0 { assert s[i] == t[i - 1] && s[j] == t[j - 1]; }
      else { assert s[j] in t; }
    }
  }

  lemma SortedTail<T>(s: seq<T>, key: T -> Value)
    requires SortedBy(s, key) && s != []
    ensures SortedBy(s[1..], key)
    ensures forall e :: e in s[1..] ==> !Lt(key(e), key(s[0]))
  {
    forall e | e in s[1..] ensures !Lt(key(e), key(s[0])) {
      var j :| 0 <= j < |s[1..]| && s[1..][j] == e;
      assert s[j + 1] == e;
    }
  }

  lemma KeysComparableSub<T>(s: seq<T>, t: seq<T>, key: T -> Value)
    requires KeysComparable(s, key)
    requires forall e :: e in t ==> e in s
    ensures KeysComparable(t, key)
  {
  }

  lemma {:induction false} InsertSorted<T>(x: T, r: seq<T>, key: T -> Value)
    requires SortedBy(r, key)
    requires KeysComparable([x] + r, key)
    ensures SortedBy(Insert(x, r, key), key)
  {
    if r == [] {
    } else if Lt(key(r[0]), key(x)) {
      SortedTail(r, key);
      KeysComparableSub([x] + r, [x] + r[1..], key);
      InsertSorted(x, r[1..], key);
      var rest := Insert(x, r[1..], key);
      forall e | e in rest ensures !Lt(key(e), key(r[0])) {
        assert e in multiset(rest);
        if e == x { LessAsymmetric(key(r[0]), key(x)); }
      }
      SortedCons(r[0], rest, key);
    } else {
      forall e | e in r ensures !Lt(key(e), key(x)) {
        if e != r[0] {
          var j :| 0 <= j < |r| && r[j] == e;
          assert r[0] in [x] + r && e in [x] + r;
          NotLtTrans(key(x), key(r[0]), key(e));
        }
      }
      SortedCons(x, r, key);
    }
  }

  /** The result of a sort is ordered by the key. */
  lemma {:induction false} SortBySorted<T>(s: seq<T>, key: T -> Value)
    requires KeysComparable(s, key)
    ensures SortedBy(SortBy(s, key), key)
  {
    if s != [] {
      KeysComparableSub(s, s[1..], key);
      SortBySorted(s[1..], key);
      var r := SortBy(s[1..], key);
      forall e | e in [s[0]] + r ensures e in s {
        if e != s[0] { assert e in multiset(r); }
      }
      InsertSorted(s[0], r, key);
    }
  }

  lemma CompoundLt<T>(k1: T -> Value, k2: T -> Value, a: T, b: T)
    ensures Lt(Compound(k1, k2)(a), Compound(k1, k2)(b)) <==>
            Lt(k1(a), k1(b)) || (k1(a) == k1(b) && Lt(k2(a), k2(b)))
  {
    assert Compound(k1, k2)(a) == List([k1(a), k2(a)]);
    assert Compound(k1, k2)(b) == List([k1(b), k2(b)]);
    PairLess(k1(a), k2(a), k1(b), k2(b));
    if k1(a) == k1(b) { LessIrreflexive(k1(a)); }
    if k2(a) == k2(b) { LessIrreflexive(k2(a)); }
  }

  lemma {:induction false} InsertCompound<T>(x: T, r: seq<T>, k1: T -> Value, k2: T -> Value)
    requires SortedBy(r, Compound(k2, k1))
    requires KeysComparable([x] + r, k2)
    requires forall e :: e in r ==> !Lt(k1(e), k1(x))
    ensures SortedBy(Insert(x, r, k2), Compound(k2, k1))
  {
    var c := Compound(k2, k1);
    if r == [] {
    } else if Lt(k2(r[0]), k2(x)) {
      SortedTail(r, c);
      KeysComparableSub([x] + r, [x] + r[1..], k2);
      InsertCompound(x, r[1..], k1, k2);
      var rest := Insert(x, r[1..], k2);
      forall e | e in rest ensures !Lt(c(e), c(r[0])) {
        assert e in multiset(rest);
        if e == x {
          LessAsymmetric(k2(r[0]), k2(x));
          LessIrreflexive(k2(x));
          CompoundLt(k2, k1, x, r[0]);
        }
      }
      SortedCons(r[0], rest, c);
    } else {
      forall e | e in r ensures !Lt(c(e), c(x)) {
        CompoundLt(k2, k1, e, x);
        if e != r[0] {
          CompoundLt(k2, k1, e, r[0]);
          var j :| 0 <= j < |r| && r[j] == e;
          assert r[0] in [x] + r && e in [x] + r;
          NotLtTrans(k2(x), k2(r[0]), k2(e));
        }
      }
      SortedCons(x, r, c);
    }
  }

  /** Stability: sorting a sequence already ordered by `k1` again by `k2`
      orders it by `k2` first and, among equal `k2` keys, by `k1`. */
  lemma {:induction false} StableResort<T>(s: seq<T>, k1: T -> Value, k2: T -> Value)
    requires SortedBy(s, k1)
    requires KeysComparable(s, k2)
    ensures SortedBy(SortBy(s, k2), Compound(k2, k1))
  {
    if s != [] {
      SortedTail(s, k1);
      KeysComparableSub(s, s[1..], k2);
      StableResort(s[1..], k1, k2);
      var r := SortBy(s[1..], k2);
      forall e | e in [s[0]] + r ensures e in s {
        if e != s[0] { assert e in multiset(r); }
      }
      forall e | e in r ensures !Lt(k1(e), k1(s[0])) {
        assert e in multiset(r);
      }
      InsertCompound(s[0], r, k1, k2);
    }
  }

  /** `sorted(sorted(s, key=k1), key=k2)` is ordered by `(k2, k1)`. */
  lemma SortTwice<T>(s: seq<T>, k1: T -> Value, k2: T -> Value)
    requires KeysComparable(s, k1) && KeysComparable(s, k2)
    ensures SortedBy(SortBy(SortBy(s, k1), k2), Compound(k2, k1))
  {
    SortBySorted(s, k1);
    var r := SortBy(s, k1);
    forall e | e in r ensures e in s { assert e in multiset(r); }
    KeysComparableSub(s, r, k2);
    StableResort(r, k1, k2);
  }

  /** A table of lists after each list is sorted in place by `key`. */
  function SortValues<T>(lists: map<string, seq<T>>, key: T -> Value): map<string, seq<T>>
  {
    map p | p in lists :: SortBy(lists[p], key)
  }

  /** After sorting, each list holds the same objects, in key order. */
  lemma SortValuesSorted<T>(lists: map<string, seq<T>>, key: T -> Value)
    requires forall p :: p in lists ==> KeysComparable(lists[p], key)
    ensures SortValues(lists, key).Keys == lists.Keys
    ensures forall p :: p in lists ==>
              multiset(SortValues(lists, key)[p]) == multiset(lists[p]) &&
              SortedBy(SortValues(lists, key)[p], key)
  {
    forall p | p in lists ensures SortedBy(SortValues(lists, key)[p], key) {
      SortBySorted(lists[p], key);
    }
  }

  /** A table whose every list is its sorted counterpart is `SortValues`. */
  lemma SortValuesExt<T>(lists: map<string, seq<T>>, sorted: map<string, seq<T>>, key: T -> Value)
    requires sorted.Keys == lists.Keys
    requires forall p :: p in lists ==> sorted[p] == SortBy(lists[p], key)
    ensures sorted == SortValues(lists, key)
  {
  }

  /** `lst.sort(key=key)` for every list of a table, one list at a time. */
  method SortEach<T>(lists: map<string, seq<T>>, key: T -> Value) returns (sorted: map<string, seq<T>>)
    ensures sorted == SortValues(lists, key)
  {
    sorted := lists;
    var todo := lists.Keys;
    while todo != {}
      invariant todo <= lists.Keys && sorted.Keys == lists.Keys
      invariant forall p :: p in lists ==> sorted[p] == if p in todo then lists[p] else SortBy(lists[p], key)
      decreases todo
    {
      var p :| p in todo;
      sorted := sorted[p := SortBy(lists[p], key)];
      todo := todo - {p};
    }
    SortValuesExt(lists, sorted, key);
  }
}
