/** The values Python sort keys are made of, and Python's `<` on them.
    Tuples and lists compare alike, so both are `List`; `bool` is an `int`
    subclass, so `False`/`True` are `Int(0)`/`Int(1)`. Comparing an `int`
    with a `str`, or a sequence with a non-sequence, raises `TypeError`,
    which `Less` reports as `None`. */
module PyValue {
  import opened Wrappers

  datatype Value = Int(i: int) | Str(s: string) | List(items: seq<Value>)

  function Bool(b: bool): Value { Int(if b then 1 else 0) }

  /** Python's `<` on `str`: the first differing code point decides, and a
      proper prefix is smaller. */
  function StrLess(a: string, b: string): bool
  {
    if a == [] then b != []
    else if b == [] then false
    else if a[0] == b[0] then StrLess(a[1..], b[1..])
    else a[0] < b[0]
  }

  /** Python's `a < b`, or `None` where it raises `TypeError`. */
  function Less(a: Value, b: Value): Option<bool>
    decreases a
  {
    match a
    case Int(x) => if b.Int? then Some(x < b.i) else None
    case Str(x) => if b.Str? then Some(StrLess(x, b.s)) else None
    case List(xs) => if b.List? then ListLess(xs, b.items) else None
  }

  /** Sequence comparison: skip the common equal prefix (`==` never raises),
      then compare the first differing items, or the lengths. */
  function ListLess(xs: seq<Value>, ys: seq<Value>): Option<bool>
    decreases xs
  {
    if xs == [] then Some(ys != [])
    else if ys == [] then Some(false)
    else if xs[0] == ys[0] then ListLess(xs[1..], ys[1..])
    else Less(xs[0], ys[0])
  }

  predicate Lt(a: Value, b: Value) { Less(a, b) == Some(true) }

  predicate Comparable(a: Value, b: Value) { Less(a, b).Some? }

  lemma {:induction false} StrLessIrreflexive(a: string)
    ensures !StrLess(a, a)
  {
    if a != [] { StrLessIrreflexive(a[1..]); }
  }

  lemma {:induction false} StrLessTrans(a: string, b: string, c: string)
    requires StrLess(a, b) && StrLess(b, c)
    ensures StrLess(a, c)
  {
    if a != [] && b != [] && c != [] && a[0] == b[0] && b[0] == c[0] {
      StrLessTrans(a[1..], b[1..], c[1..]);
    }
  }

  lemma {:induction false} StrLessTotal(a: string, b: string)
    ensures a == b || StrLess(a, b) || StrLess(b, a)
    ensures !(StrLess(a, b) && StrLess(b, a))
  {
    if a != [] && b != [] && a[0] == b[0] {
      StrLessTotal(a[1..], b[1..]);
      if a[1..] == b[1..] { assert a == [a[0]] + a[1..] && b == [b[0]] + b[1..]; }
    }
  }

  lemma {:induction false} ListLessSelf(xs: seq<Value>)
    ensures ListLess(xs, xs) == Some(false)
  {
    if xs != [] { ListLessSelf(xs[1..]); }
  }

  lemma LessIrreflexive(a: Value)
    ensures Less(a, a) == Some(false)
  {
    match a
    case Int(_) =>
    case Str(s) => StrLessIrreflexive(s);
    case List(xs) => ListLessSelf(xs);
  }

  lemma {:induction false} LessSymmetricDefined(a: Value, b: Value)
    ensures Comparable(a, b) <==> Comparable(b, a)
    decreases a
  {
    if a.List? && b.List? { ListLessSymmetricDefined(a.items, b.items); }
  }

  lemma {:induction false} ListLessSymmetricDefined(xs: seq<Value>, ys: seq<Value>)
    ensures ListLess(xs, ys).Some? <==> ListLess(ys, xs).Some?
    decreases xs
  {
    if xs != [] && ys != [] {
      if xs[0] == ys[0] { ListLessSymmetricDefined(xs[1..], ys[1..]); }
      else { LessSymmetricDefined(xs[0], ys[0]); }
    }
  }

  lemma {:induction false} LessAsymmetric(a: Value, b: Value)
    requires Lt(a, b)
    ensures Less(b, a) == Some(false)
    decreases a
  {
    match a
    case Int(_) =>
    case Str(s) => StrLessTotal(s, b.s);
    case List(xs) => ListLessAsymmetric(xs, b.items);
  }

  lemma {:induction false} ListLessAsymmetric(xs: seq<Value>, ys: seq<Value>)
    requires ListLess(xs, ys) == Some(true)
    ensures ListLess(ys, xs) == Some(false)
    decreases xs
  {
    if xs != [] && ys != [] {
      if xs[0] == ys[0] { ListLessAsymmetric(xs[1..], ys[1..]); }
      else { LessAsymmetric(xs[0], ys[0]); }
    }
  }

  lemma {:induction false} LessTrans(a: Value, b: Value, c: Value)
    requires Lt(a, b) && Lt(b, c)
    ensures Lt(a, c)
    decreases a
  {
    match a
    case Int(_) =>
    case Str(s) => StrLessTrans(s, b.s, c.s);
    case List(xs) => ListLessTrans(xs, b.items, c.items);
  }

  lemma {:induction false} ListLessTrans(xs: seq<Value>, ys: seq<Value>, zs: seq<Value>)
    requires ListLess(xs, ys) == Some(true) && ListLess(ys, zs) == Some(true)
    ensures ListLess(xs, zs) == Some(true)
    decreases xs
  {
    if xs != [] && ys != [] && zs != [] {
      if xs[0] == ys[0] && ys[0] == zs[0] {
        ListLessTrans(xs[1..], ys[1..], zs[1..]);
      } else if xs[0] != ys[0] && ys[0] != zs[0] {
        LessTrans(xs[0], ys[0], zs[0]);
        if xs[0] == zs[0] { LessAsymmetric(xs[0], ys[0]); }
      }
    }
  }

  lemma {:induction false} LessTotal(a: Value, b: Value)
    requires Comparable(a, b) && a != b
    ensures Lt(a, b) || Lt(b, a)
    decreases a
  {
    match a
    case Int(_) =>
    case Str(s) => StrLessTotal(s, b.s);
    case List(xs) =>
      ListLessTotal(xs, b.items);
  }

  lemma {:induction false} ListLessTotal(xs: seq<Value>, ys: seq<Value>)
    requires ListLess(xs, ys).Some? && xs != ys
    ensures ListLess(xs, ys) == Some(true) || ListLess(ys, xs) == Some(true)
    decreases xs
  {
    if xs != [] && ys != [] {
      if xs[0] == ys[0] {
        assert xs == [xs[0]] + xs[1..] && ys == [ys[0]] + ys[1..];
        ListLessTotal(xs[1..], ys[1..]);
      } else {
        LessTotal(xs[0], ys[0]);
      }
    }
  }

  /** "Not greater" is transitive along comparable pairs: with `Lt` this makes
      `<` a strict weak order wherever the keys are pairwise comparable, which
      is what Python's sort needs. */
  lemma NotLtTrans(a: Value, b: Value, c: Value)
    requires Comparable(a, b) && Comparable(b, c)
    requires !Lt(b, a) && !Lt(c, b)
    ensures !Lt(c, a)
  {
    LessSymmetricDefined(a, b);
    LessSymmetricDefined(b, c);
    if a != b { LessTotal(a, b); }
    if b != c { LessTotal(b, c); }
    if a == c { LessIrreflexive(a); }
    else if a == b || b == c {
      if Lt(c, a) { LessAsymmetric(c, a); }
    } else {
      LessTrans(a, b, c);
      LessAsymmetric(a, c);
    }
  }

  /** A list compares without error when every pair of items at a common
      position does. */
  lemma {:induction false} ListComparableWhenItemsAre(xs: seq<Value>, ys: seq<Value>)
    requires forall k :: 0 <= k < |xs| && k < |ys| ==> Comparable(xs[k], ys[k])
    ensures ListLess(xs, ys).Some?
  {
    if xs != [] && ys != [] && xs[0] == ys[0] {
      forall k | 0 <= k < |xs[1..]| && k < |ys[1..]|
        ensures Comparable(xs[1..][k], ys[1..][k])
      {
        assert xs[1..][k] == xs[k + 1] && ys[1..][k] == ys[k + 1];
      }
      ListComparableWhenItemsAre(xs[1..], ys[1..]);
    }
  }

  /** A common prefix does not change how two sequences compare. */
  lemma {:induction false} ListLessCommonPrefix(p: seq<Value>, xs: seq<Value>, ys: seq<Value>)
    ensures ListLess(p + xs, p + ys) == ListLess(xs, ys)
  {
    if p != [] {
      assert (p + xs)[1..] == p[1..] + xs && (p + ys)[1..] == p[1..] + ys;
      ListLessCommonPrefix(p[1..], xs, ys);
    } else {
      assert p + xs == xs && p + ys == ys;
    }
  }

  /** The two-item comparison behind a compound `(k1, k2)` key. */
  lemma PairLess(a1: Value, a2: Value, b1: Value, b2: Value)
    ensures Less(List([a1, a2]), List([b1, b2])) ==
            if a1 != b1 then Less(a1, b1)
            else if a2 != b2 then Less(a2, b2)
            else Some(false)
  {
    assert [a1, a2][1..] == [a2] && [b1, b2][1..] == [b2];
    assert [a2][1..] == [] && [b2][1..] == [];
    assert ListLess([a2], [b2]) == if a2 != b2 then Less(a2, b2) else ListLess([], []);
    if a1 == b1 {
      assert ListLess([a1, a2], [b1, b2]) == ListLess([a2], [b2]);
    }
  }

  /** A tuple of ints, such as `(langhack(lang.id), partial, subdivision.id,
      number)`. */
  function Ints(xs: seq<int>): Value
  {
    List(seq(|xs|, i requires 0 <= i < |xs| => Int(xs[i])))
  }

  /** Lexicographic order on int tuples, stated directly: at the first
      position where they differ the first is smaller, or the first is a
      proper prefix of the second. */
  ghost predicate LexLess(xs: seq<int>, ys: seq<int>) {
    exists k :: 0 <= k <= |xs| && k <= |ys| && xs[..k] == ys[..k] &&
      ((k < |xs| && k < |ys| && xs[k] < ys[k]) || (k == |xs| && k < |ys|))
  }

  lemma IntsTail(xs: seq<int>)
    requires xs != []
    ensures Ints(xs).items[0] == Int(xs[0]) && Ints(xs).items[1..] == Ints(xs[1..]).items
  {
  }

  /** Equal first items: the rest decides. */
  lemma LexLessTie(xs: seq<int>, ys: seq<int>)
    requires xs != [] && ys != [] && xs[0] == ys[0]
    ensures LexLess(xs, ys) <==> LexLess(xs[1..], ys[1..])
  {
    if LexLess(xs[1..], ys[1..]) {
      var k :| 0 <= k <= |xs[1..]| && k <= |ys[1..]| && xs[1..][..k] == ys[1..][..k] &&
        ((k < |xs[1..]| && k < |ys[1..]| && xs[1..][k] < ys[1..][k]) || (k == |xs[1..]| && k < |ys[1..]|));
      assert xs[..k + 1] == [xs[0]] + xs[1..][..k] && ys[..k + 1] == [ys[0]] + ys[1..][..k];
    }
    if LexLess(xs, ys) {
      var k :| 0 <= k <= |xs| && k <= |ys| && xs[..k] == ys[..k] &&
        ((k < |xs| && k < |ys| && xs[k] < ys[k]) || (k == |xs| && k < |ys|));
      assert k > 0;
      assert xs[1..][..k - 1] == xs[..k][1..] && ys[1..][..k - 1] == ys[..k][1..];
    }
  }

  /** Different first items decide. */
  lemma LexLessDiffer(xs: seq<int>, ys: seq<int>)
    requires xs != [] && ys != [] && xs[0] != ys[0]
    ensures LexLess(xs, ys) <==> xs[0] < ys[0]
  {
    assert xs[..0] == ys[..0];
    if LexLess(xs, ys) {
      var k :| 0 <= k <= |xs| && k <= |ys| && xs[..k] == ys[..k] &&
        ((k < |xs| && k < |ys| && xs[k] < ys[k]) || (k == |xs| && k < |ys|));
    }
  }

  /** Python's `<` on int tuples is the lexicographic order, and never
      raises. */
  lemma {:induction false} IntsLess(xs: seq<int>, ys: seq<int>)
    ensures Less(Ints(xs), Ints(ys)) == Some(LexLess(xs, ys))
    decreases |xs|
  {
    var a, b := Ints(xs).items, Ints(ys).items;
    if xs == [] {
      if ys != [] { assert xs[..0] == ys[..0]; }
    } else if ys != [] {
      IntsTail(xs);
      IntsTail(ys);
      if xs[0] == ys[0] {
        IntsLess(xs[1..], ys[1..]);
        LexLessTie(xs, ys);
        assert ListLess(a, b) == ListLess(a[1..], b[1..]);
      } else {
        LexLessDiffer(xs, ys);
        assert ListLess(a, b) == Less(a[0], b[0]);
      }
    }
  }

  /** The first position decides, unless it ties. */
  lemma LexLessCons(xs: seq<int>, ys: seq<int>)
    requires xs != [] && ys != []
    ensures LexLess(xs, ys) <==> xs[0] < ys[0] || (xs[0] == ys[0] && LexLess(xs[1..], ys[1..]))
  {
    if xs[0] == ys[0] { LexLessTie(xs, ys); } else { LexLessDiffer(xs, ys); }
  }

  /** The empty tuple is below every other tuple, and nothing is below it. */
  lemma LexLessEmpty(ys: seq<int>)
    ensures LexLess([], ys) <==> ys != []
    ensures !LexLess(ys, [])
  {
    IntsLess([], ys);
    IntsLess(ys, []);
  }
}
