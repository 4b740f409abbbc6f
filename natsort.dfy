/** The natural sort keys of sc/util.py: `numericsortkey` splits a string
    into alternating non-digit and digit runs and turns each digit run into
    an `int`; `humansortkey` does the same with dotted or dashed number runs
    such as `1.1.2`, which become `numericsortkey` lists themselves. */
module NaturalSort {
  import opened Strings
  import opened PyValue
  import opened Wrappers
  import Sorting

  /** Index of the first digit of `s`, or `|s|`. */
  function FirstDigit(s: string): (i: nat)
    ensures i <= |s| && NoDigits(s[..i])
    ensures i < |s| ==> IsDigit(s[i])
  {
    if s == [] || IsDigit(s[0]) then 0 else
      var i := 1 + FirstDigit(s[1..]);
      assert s[..i] == [s[0]] + s[1..][..i - 1];
      i
  }

  /** Length of the run of digits `s` starts with. */
  function DigitRun(s: string): (n: nat)
    ensures n <= |s| && AllDigits(s[..n])
    ensures n < |s| ==> !IsDigit(s[n])
  {
    if s != [] && IsDigit(s[0]) then
      var n := 1 + DigitRun(s[1..]);
      assert s[..n] == [s[0]] + s[1..][..n - 1];
      n
    else 0
  }

  /** The shape `regex.split(r'(\d+)', s)` gives: odd length, digit runs at
      the odd positions, digit-free text at the even positions, which is
      empty only at either end. */
  ghost predicate DigitSplit(parts: seq<string>) {
    && |parts| % 2 == 1
    && (forall k :: 0 <= k < |parts| && k % 2 == 0 ==> NoDigits(parts[k]))
    && (forall k :: 0 <= k < |parts| && k % 2 == 1 ==> parts[k] != [] && AllDigits(parts[k]))
    && (forall k :: 0 < k < |parts| - 1 && k % 2 == 0 ==> parts[k] != [])
  }

  lemma DigitSplitCons(a: string, b: string, rest: seq<string>)
    requires NoDigits(a) && b != [] && AllDigits(b)
    requires DigitSplit(rest) && (|rest| > 1 ==> rest[0] != [])
    ensures DigitSplit([a, b] + rest)
  {
    var parts := [a, b] + rest;
    forall k | 2 <= k < |parts| ensures parts[k] == rest[k - 2] { }
  }

  lemma DigitSplitTail(parts: seq<string>)
    requires DigitSplit(parts) && |parts| > 1
    ensures DigitSplit(parts[2..])
    ensures |parts| > 3 ==> parts[2] != []
  {
    var rest := parts[2..];
    forall k | 0 <= k < |rest| ensures rest[k] == parts[k + 2] { }
  }

  lemma ConcatCons2(a: string, b: string, rest: seq<string>)
    ensures Concat([a, b] + rest) == a + b + Concat(rest)
  {
    assert ([a, b] + rest)[1..] == [b] + rest;
    assert ([b] + rest)[1..] == rest;
  }

  /** After a digit run, the text up to the next digit is not empty. */
  lemma TextAfterRun(s: string, i: nat, j: nat, rest: seq<string>)
    requires i == FirstDigit(s) < |s| && j == i + DigitRun(s[i..]) <= |s|
    requires DigitSplit(rest) && rest[0] == s[j..][..FirstDigit(s[j..])]
    requires |rest| > 1 ==> FirstDigit(s[j..]) < |s[j..]|
    ensures |rest| > 1 ==> rest[0] != []
  {
    if |rest| > 1 {
      assert !IsDigit(s[i..][j - i]) && s[j..][0] == s[i..][j - i];
      assert FirstDigit(s[j..]) > 0;
    }
  }

  /** The first digit run of `s`, between `i` and `j`, is all digits. */
  lemma FirstRun(s: string, i: nat, j: nat)
    requires i == FirstDigit(s) < |s| && j == i + DigitRun(s[i..]) <= |s|
    ensures NoDigits(s[..i]) && s[i..j] != [] && AllDigits(s[i..j])
  {
    var t := s[i..];
    assert t != [] && t[0] == s[i] && IsDigit(t[0]);
    assert DigitRun(t) == 1 + DigitRun(t[1..]);
    assert s[i..j] == t[..j - i];
  }

  lemma ThreeParts(s: string, a: string, b: string, c: string, rest: seq<string>, i: nat, j: nat)
    requires i <= j <= |s| && a == s[..i] && b == s[i..j] && c == s[j..] && Concat(rest) == c
    ensures Concat([a, b] + rest) == s
  {
    ConcatCons2(a, b, rest);
    assert s == s[..i] + s[i..j] + s[j..];
  }

  /** The split of `s` from the split of what follows its first digit run. */
  lemma SplitDigitsCons(s: string, i: nat, j: nat, rest: seq<string>)
    requires i == FirstDigit(s) < |s| && j == i + DigitRun(s[i..]) <= |s|
    requires DigitSplit(rest) && Concat(rest) == s[j..] && rest[0] == s[j..][..FirstDigit(s[j..])]
    requires |rest| > 1 ==> FirstDigit(s[j..]) < |s[j..]|
    ensures DigitSplit([s[..i], s[i..j]] + rest)
    ensures Concat([s[..i], s[i..j]] + rest) == s
  {
    FirstRun(s, i, j);
    ThreeParts(s, s[..i], s[i..j], s[j..], rest, i, j);
    TextAfterRun(s, i, j, rest);
    DigitSplitCons(s[..i], s[i..j], rest);
  }

  /** `regex.split(r'(\d+)', s)`. */
  function SplitDigits(s: string): (parts: seq<string>)
    ensures DigitSplit(parts)
    ensures Concat(parts) == s
    ensures parts[0] == s[..FirstDigit(s)]
    ensures |parts| > 1 ==> FirstDigit(s) < |s|
    decreases |s|
  {
    var i := FirstDigit(s);
    if i == |s| then
      assert s[..i] == s;
      [s]
    else
      var j := i + DigitRun(s[i..]);
      var rest := SplitDigits(s[j..]);
      SplitDigitsCons(s, i, j, rest);
      [s[..i], s[i..j]] + rest
  }

  lemma {:induction false} FirstDigitOf(a: string, b: string)
    requires NoDigits(a) && (b == [] || IsDigit(b[0]))
    ensures FirstDigit(a + b) == |a|
  {
    if a != [] {
      assert (a + b)[1..] == a[1..] + b;
      FirstDigitOf(a[1..], b);
    }
  }

  lemma {:induction false} DigitRunOf(a: string, b: string)
    requires AllDigits(a) && (b == [] || !IsDigit(b[0]))
    ensures DigitRun(a + b) == |a|
  {
    if a != [] {
      assert (a + b)[1..] == a[1..] + b;
      DigitRunOf(a[1..], b);
    }
  }

  /** The split is the only sequence of that shape that concatenates to `s`. */
  lemma {:induction false} SplitDigitsUnique(s: string, parts: seq<string>)
    requires DigitSplit(parts)
    requires Concat(parts) == s
    ensures parts == SplitDigits(s)
    decreases |parts|
  {
    if |parts| == 1 {
      assert s == parts[0];
      FirstDigitOf(s, "");
      assert s + "" == s;
    } else {
      var p0, p1, rest := parts[0], parts[1], parts[2..];
      assert parts == [p0, p1] + rest;
      ConcatCons2(p0, p1, rest);
      DigitSplitTail(parts);
      var t := Concat(rest);
      assert s == p0 + (p1 + t);
      FirstDigitOf(p0, p1 + t);
      assert t == [] || !IsDigit(t[0]) by {
        if |rest| > 1 { assert t == rest[0] + Concat(rest[1..]); }
        else { assert t == rest[0]; }
      }
      DigitRunOf(p1, t);
      var i := |p0|;
      assert s[i..] == p1 + t;
      assert s[i..i + |p1|] == p1;
      assert s[..i] == p0;
      assert s[i + |p1|..] == t;
      SplitDigitsUnique(t, rest);
    }
  }

  /** `numericsortkey(s)`: digit runs become ints at the odd positions. */
  function NumericSortKey(s: string): Value
  {
    var parts := SplitDigits(s);
    List(seq(|parts|, k requires 0 <= k < |parts| =>
                        if k % 2 == 1 then Int(ParseNat(parts[k])) else Str(parts[k])))
  }

  /** Even positions hold strings, odd positions ints, and there is an odd
      number of them. */
  lemma NumericSortKeyShape(s: string)
    ensures NumericSortKey(s).List?
    ensures |NumericSortKey(s).items| % 2 == 1
    ensures forall k :: 0 <= k < |NumericSortKey(s).items| ==>
              (NumericSortKey(s).items[k].Int? <==> k % 2 == 1) &&
              (NumericSortKey(s).items[k].Str? <==> k % 2 == 0)
  {
  }

  /** Two `numericsortkey` lists always compare without `TypeError`. */
  lemma NumericKeysComparable(a: string, b: string)
    ensures Comparable(NumericSortKey(a), NumericSortKey(b))
  {
    var xs, ys := NumericSortKey(a).items, NumericSortKey(b).items;
    ListComparableWhenItemsAre(xs, ys);
  }

  /** Length of the number run `\d+(?:[.-]\d+)*` that `s` starts with. */
  function NumberRun(s: string): (n: nat)
    requires s != [] && IsDigit(s[0])
    ensures 0 < n <= |s|
    decreases |s|
  {
    var d := DigitRun(s);
    if d + 1 < |s| && (s[d] == '.' || s[d] == '-') && IsDigit(s[d + 1]) then
      d + 1 + NumberRun(s[d + 1..])
    else d
  }

  predicate IsNumberChar(c: char) { IsDigit(c) || c == '.' || c == '-' }

  /** A dotted or dashed number: digits, separators, starting with a digit. */
  predicate IsNumberRun(s: string) {
    s != [] && IsDigit(s[0]) && forall i :: 0 <= i < |s| ==> IsNumberChar(s[i])
  }

  lemma {:induction false} NumberRunShape(s: string)
    requires s != [] && IsDigit(s[0])
    ensures IsNumberRun(s[..NumberRun(s)])
    ensures IsDigit(s[NumberRun(s) - 1])
    decreases |s|
  {
    var d := DigitRun(s);
    if d + 1 < |s| && (s[d] == '.' || s[d] == '-') && IsDigit(s[d + 1]) {
      NumberRunShape(s[d + 1..]);
      NumberRunJoin(s, d, NumberRun(s[d + 1..]));
    } else {
      assert s[..d][d - 1] == s[d - 1];
    }
  }

  /** A digit run, a separator and a number run make a number run. */
  lemma NumberRunJoin(s: string, d: nat, m: nat)
    requires 0 < d && d + 1 + m <= |s| && 0 < m && AllDigits(s[..d]) && IsNumberChar(s[d])
    requires IsNumberRun(s[d + 1..][..m]) && IsDigit(s[d + 1..][m - 1])
    ensures IsNumberRun(s[..d + 1 + m]) && IsDigit(s[d + m])
  {
    var t := s[..d + 1 + m];
    forall i | 0 <= i < |t| ensures IsNumberChar(t[i]) {
      if i < d { assert t[i] == s[..d][i]; }
      else if i > d { assert t[i] == s[d + 1..][..m][i - d - 1]; }
    }
    assert t[0] == s[..d][0];
  }

  /** The shape of `regex.split(r'(\d+(?:[.-]\d+)*)', s)`. */
  ghost predicate NumberSplit(parts: seq<string>) {
    && |parts| % 2 == 1
    && (forall k :: 0 <= k < |parts| && k % 2 == 0 ==> NoDigits(parts[k]))
    && (forall k :: 0 <= k < |parts| && k % 2 == 1 ==> IsNumberRun(parts[k]))
  }

  lemma NumberSplitCons(a: string, b: string, rest: seq<string>)
    requires NoDigits(a) && IsNumberRun(b) && NumberSplit(rest)
    ensures NumberSplit([a, b] + rest)
  {
    var parts := [a, b] + rest;
    forall k | 2 <= k < |parts| ensures parts[k] == rest[k - 2] { }
  }

  /** The split of `s` from the split of what follows its first number run. */
  lemma SplitNumbersCons(s: string, i: nat, j: nat, rest: seq<string>)
    requires i == FirstDigit(s) < |s| && j == i + NumberRun(s[i..])
    requires NumberSplit(rest) && Concat(rest) == s[j..]
    ensures NumberSplit([s[..i], s[i..j]] + rest)
    ensures Concat([s[..i], s[i..j]] + rest) == s
  {
    NumberRunShape(s[i..]);
    assert s[i..j] == s[i..][..j - i];
    ThreeParts(s, s[..i], s[i..j], s[j..], rest, i, j);
    NumberSplitCons(s[..i], s[i..j], rest);
  }

  /** `regex.split(r'(\d+(?:[.-]\d+)*)', s)`. */
  function SplitNumbers(s: string): (parts: seq<string>)
    ensures NumberSplit(parts)
    ensures Concat(parts) == s
    decreases |s|
  {
    var i := FirstDigit(s);
    if i == |s| then
      assert s[..i] == s;
      [s]
    else
      var j := i + NumberRun(s[i..]);
      var rest := SplitNumbers(s[j..]);
      SplitNumbersCons(s, i, j, rest);
      [s[..i], s[i..j]] + rest
  }

  /** `humansortkey(s)`: number runs become `numericsortkey` lists at the odd
      positions. */
  function HumanSortKey(s: string): Value
  {
    HumanKeyOfParts(SplitNumbers(s))
  }

  function HumanKeyOfParts(parts: seq<string>): Value
  {
    List(seq(|parts|, k requires 0 <= k < |parts| =>
                        if k % 2 == 1 then NumericSortKey(parts[k]) else Str(parts[k])))
  }

  /** Two `humansortkey` lists always compare without `TypeError`. */
  lemma HumanKeysComparable(a: string, b: string)
    ensures Comparable(HumanSortKey(a), HumanSortKey(b))
  {
    var pa, pb := SplitNumbers(a), SplitNumbers(b);
    var xs, ys := HumanSortKey(a).items, HumanSortKey(b).items;
    forall k | 0 <= k < |xs| && k < |ys| ensures Comparable(xs[k], ys[k]) {
      if k % 2 == 1 { NumericKeysComparable(pa[k], pb[k]); }
    }
    ListComparableWhenItemsAre(xs, ys);
  }

  /** The key of `s`, read off any split of `s` of the right shape. */
  lemma KeyFromParts(s: string, parts: seq<string>)
    requires DigitSplit(parts) && Concat(parts) == s
    ensures NumericSortKey(s) ==
            List(seq(|parts|, k requires 0 <= k < |parts| =>
                                if k % 2 == 1 then Int(ParseNat(parts[k])) else Str(parts[k])))
  {
    SplitDigitsUnique(s, parts);
  }

  lemma ParseOne()
    ensures ParseNat("1") == 1
  {
    assert "1"[..0] == "";
  }

  lemma NoDigitsText()
    ensures NoDigits("") && NoDigits(".") && NoDigits(".txt")
  {
  }

  /** `"1"`, `"1.1"`, `"1.1.1"`, ... for n = 0, 1, 2, ...: the file names of
      the `numericsortkey` and `humansortkey` examples in sc/util.py are
      `Dotted(n)` and `Dotted(n) + ".txt"`. */
  function Dotted(n: nat): string
  {
    if n == 0 then "1" else "1." + Dotted(n - 1)
  }

  lemma DottedExamples()
    ensures Dotted(0) == "1" && Dotted(1) == "1.1" && Dotted(2) == "1.1.1"
  {
  }

  lemma {:induction false} DottedSnoc(n: nat)
    requires n > 0
    ensures Dotted(n) == Dotted(n - 1) + ".1"
  {
    if n > 1 {
      DottedSnoc(n - 1);
      assert Dotted(n) == "1." + (Dotted(n - 2) + ".1");
    }
  }

  /** The split of `Dotted(n)` without its final empty text part. */
  function DottedParts(n: nat): seq<string>
  {
    if n == 0 then ["", "1"] else DottedParts(n - 1) + [".", "1"]
  }

  /** The key of `Dotted(n)` without its final text part. */
  function DottedKey(n: nat): seq<Value>
  {
    if n == 0 then [Str(""), Int(1)] else DottedKey(n - 1) + [Str("."), Int(1)]
  }

  lemma {:induction false} DottedPartsAt(n: nat)
    ensures |DottedParts(n)| == 2 * n + 2
    ensures forall k :: 0 <= k < |DottedParts(n)| ==>
              DottedParts(n)[k] == (if k == 0 then "" else if k % 2 == 1 then "1" else ".")
  {
    if n > 0 { DottedPartsAt(n - 1); }
  }

  lemma {:induction false} DottedKeyAt(n: nat)
    ensures |DottedKey(n)| == 2 * n + 2
    ensures forall k :: 0 <= k < |DottedKey(n)| ==>
              DottedKey(n)[k] == (if k == 0 then Str("") else if k % 2 == 1 then Int(1) else Str("."))
  {
    if n > 0 { DottedKeyAt(n - 1); }
  }

  lemma DottedPartsIndex(n: nat)
    ensures |DottedParts(n)| == 2 * n + 2 == |DottedKey(n)|
    ensures forall k :: 0 <= k < |DottedParts(n)| ==>
              DottedParts(n)[k] == (if k == 0 then "" else if k % 2 == 1 then "1" else ".")
    ensures forall k :: 0 <= k < |DottedKey(n)| ==>
              DottedKey(n)[k] == (if k == 0 then Str("") else if k % 2 == 1 then Int(1) else Str("."))
  {
    DottedPartsAt(n);
    DottedKeyAt(n);
  }

  lemma DottedPartsSplit(n: nat, tail: string)
    requires NoDigits(tail)
    ensures DigitSplit(DottedParts(n) + [tail])
  {
    var parts := DottedParts(n) + [tail];
    DottedPartsIndex(n);
    NoDigitsText();
    assert forall k :: 0 <= k < |parts| - 1 ==> parts[k] == DottedParts(n)[k];
  }

  lemma {:induction false} DottedPartsConcat(n: nat)
    ensures Concat(DottedParts(n)) == Dotted(n)
  {
    assert Concat([".", "1"]) == ".1" by { ConcatCons2(".", "1", []); }
    if n == 0 {
      ConcatCons2("", "1", []);
    } else {
      ConcatAppend(DottedParts(n - 1), [".", "1"]);
      DottedPartsConcat(n - 1);
      DottedSnoc(n);
    }
  }

  /** The items `numericsortkey` makes of the split of `Dotted(n) + tail`. */
  lemma DottedKeyItems(n: nat, tail: string, parts: seq<string>)
    requires NoDigits(tail) && parts == DottedParts(n) + [tail]
    ensures seq(|parts|, k requires 0 <= k < |parts| =>
                          if k % 2 == 1 then Int(ParseNat(parts[k])) else Str(parts[k])) ==
            DottedKey(n) + [Str(tail)]
  {
    ParseOne();
    DottedPartsIndex(n);
    var key := seq(|parts|, k requires 0 <= k < |parts| =>
                              if k % 2 == 1 then Int(ParseNat(parts[k])) else Str(parts[k]));
    var want := DottedKey(n) + [Str(tail)];
    forall k | 0 <= k < |key| ensures key[k] == want[k] {
      if k < 2 * n + 2 {
        assert parts[k] == DottedParts(n)[k] && want[k] == DottedKey(n)[k];
      } else {
        assert parts[k] == tail && want[k] == Str(tail);
      }
    }
  }

  lemma ConcatOne(t: string)
    ensures Concat([t]) == t
  {
    assert [t][1..] == [];
  }

  lemma KeyOfDotted(n: nat, tail: string)
    requires tail == "" || tail == ".txt"
    ensures NumericSortKey(Dotted(n) + tail) == List(DottedKey(n) + [Str(tail)])
  {
    NoDigitsText();
    var parts := DottedParts(n) + [tail];
    DottedPartsSplit(n, tail);
    DottedPartsConcat(n);
    ConcatAppend(DottedParts(n), [tail]);
    ConcatOne(tail);
    KeyFromParts(Dotted(n) + tail, parts);
    DottedKeyItems(n, tail, parts);
  }

  /** The key of a shorter dotted number is a prefix of a longer one's,
      followed there by `"."`. */
  lemma DottedKeyPrefix(m: nat, n: nat)
    requires m < n
    ensures |DottedKey(n)| > 2 * m + 2
    ensures DottedKey(n) == DottedKey(m) + DottedKey(n)[2 * m + 2..]
    ensures DottedKey(n)[2 * m + 2] == Str(".")
  {
    DottedPartsIndex(m);
    DottedPartsIndex(n);
    assert DottedKey(n)[..2 * m + 2] == DottedKey(m);
    assert DottedKey(n) == DottedKey(n)[..2 * m + 2] + DottedKey(n)[2 * m + 2..];
  }

  /** After a common prefix, a final text part meets the `"."` of a longer
      number. */
  lemma PrefixThenDot(p: seq<Value>, r: seq<Value>, t: string)
    requires r != [] && r[0] == Str(".")
    ensures t == "" ==> Lt(List(p + [Str(t)]), List((p + r) + [Str(t)]))
    ensures t == ".txt" ==> Lt(List((p + r) + [Str(t)]), List(p + [Str(t)]))
  {
    assert (p + r) + [Str(t)] == p + (r + [Str(t)]);
    ListLessCommonPrefix(p, [Str(t)], r + [Str(t)]);
    ListLessCommonPrefix(p, r + [Str(t)], [Str(t)]);
    assert (r + [Str(t)])[0] == Str(".");
    assert StrLess("", ".");
    assert StrLess(".", ".txt");
  }

  /** Under `numericsortkey`, `1 < 1.1 < 1.1.1 < ...` but
      `1.txt > 1.1.txt > 1.1.1.txt > ...`: the end of the name compares
      against the `.` of the longer number. */
  lemma DottedNumericOrder(m: nat, n: nat)
    requires m < n
    ensures Lt(NumericSortKey(Dotted(m)), NumericSortKey(Dotted(n)))
    ensures Lt(NumericSortKey(Dotted(n) + ".txt"), NumericSortKey(Dotted(m) + ".txt"))
  {
    DottedNumericOrderPlain(m, n);
    DottedNumericOrderTxt(m, n);
  }

  lemma DottedNumericOrderPlain(m: nat, n: nat)
    requires m < n
    ensures Lt(NumericSortKey(Dotted(m)), NumericSortKey(Dotted(n)))
  {
    KeyOfDotted(m, ""); KeyOfDotted(n, "");
    assert Dotted(m) + "" == Dotted(m) && Dotted(n) + "" == Dotted(n);
    DottedKeyPrefix(m, n);
    PrefixThenDot(DottedKey(m), DottedKey(n)[2 * m + 2..], "");
  }

  lemma DottedNumericOrderTxt(m: nat, n: nat)
    requires m < n
    ensures Lt(NumericSortKey(Dotted(n) + ".txt"), NumericSortKey(Dotted(m) + ".txt"))
  {
    KeyOfDotted(m, ".txt"); KeyOfDotted(n, ".txt");
    DottedKeyPrefix(m, n);
    PrefixThenDot(DottedKey(m), DottedKey(n)[2 * m + 2..], ".txt");
  }

  lemma DottedStart(n: nat)
    ensures |Dotted(n)| > 0 && Dotted(n)[0] == '1'
  {
  }

  /** A digit, a dot and a digit: the run goes on past the dot. */
  lemma NumberRunDot(s: string)
    requires |s| > 2 && IsDigit(s[0]) && s[1] == '.' && IsDigit(s[2])
    ensures NumberRun(s) == 2 + NumberRun(s[2..])
  {
    assert s == [s[0]] + s[1..];
    DigitRunOf([s[0]], s[1..]);
  }

  lemma NumberRunOne(tail: string)
    requires tail == "" || tail == ".txt"
    ensures NumberRun(Dotted(0) + tail) == 1
  {
    assert Dotted(0) == "1";
    DigitRunOf("1", tail);
  }

  lemma NumberRunDottedStep(n: nat, tail: string)
    requires n > 0
    ensures NumberRun(Dotted(n) + tail) == 2 + NumberRun(Dotted(n - 1) + tail)
    ensures |Dotted(n)| == 2 + |Dotted(n - 1)|
  {
    var s := Dotted(n) + tail;
    DottedStart(n - 1);
    assert s == "1." + (Dotted(n - 1) + tail);
    NumberRunDot(s);
    assert s[2..] == Dotted(n - 1) + tail;
  }

  lemma {:induction false} NumberRunDotted(n: nat, tail: string)
    requires tail == "" || tail == ".txt"
    ensures NumberRun(Dotted(n) + tail) == |Dotted(n)|
  {
    if n > 0 {
      NumberRunDottedStep(n, tail);
      NumberRunDotted(n - 1, tail);
    } else {
      NumberRunOne(tail);
    }
  }

  lemma SplitNumbersTxt()
    ensures SplitNumbers(".txt") == [".txt"]
  {
    FirstDigitOf(".txt", "");
    assert ".txt" + "" == ".txt";
    assert ".txt"[..4] == ".txt";
  }

  lemma SplitNumbersDotted(n: nat)
    ensures SplitNumbers(Dotted(n) + ".txt") == ["", Dotted(n), ".txt"]
  {
    var s := Dotted(n) + ".txt";
    NumberRunDotted(n, ".txt");
    SplitNumbersTxt();
    assert FirstDigit(s) == 0;
    assert s[..0] == "" && s[0..|Dotted(n)|] == Dotted(n) && s[|Dotted(n)|..] == ".txt";
  }

  lemma HumanKeyOfThree(a: string, b: string, c: string)
    ensures HumanKeyOfParts([a, b, c]) == List([Str(a), NumericSortKey(b), Str(c)])
  {
    var key := HumanKeyOfParts([a, b, c]).items;
    assert key[0] == Str(a) && key[1] == NumericSortKey(b) && key[2] == Str(c);
  }

  lemma HumanKeyOfDotted(n: nat)
    ensures HumanSortKey(Dotted(n) + ".txt") ==
            List([Str(""), NumericSortKey(Dotted(n)), Str(".txt")])
  {
    SplitNumbersDotted(n);
    HumanKeyOfThree("", Dotted(n), ".txt");
  }

  /** Keys that differ only in their middle item compare as those items. */
  lemma MiddleDecides(a: Value, b: Value, t: string)
    requires Lt(a, b)
    ensures Lt(List([Str(""), a, Str(t)]), List([Str(""), b, Str(t)]))
  {
    LessIrreflexive(a);
    var xs, ys := [Str(""), a, Str(t)], [Str(""), b, Str(t)];
    assert xs[1..] == [a, Str(t)] && ys[1..] == [b, Str(t)];
    assert ListLess([a, Str(t)], [b, Str(t)]) == Less(a, b);
    assert ListLess(xs, ys) == ListLess(xs[1..], ys[1..]);
  }

  /** Under `humansortkey`, `1.txt < 1.1.txt < 1.1.1.txt < ...`. */
  lemma DottedHumanOrder(m: nat, n: nat)
    requires m < n
    ensures Lt(HumanSortKey(Dotted(m) + ".txt"), HumanSortKey(Dotted(n) + ".txt"))
  {
    HumanKeyOfDotted(m); HumanKeyOfDotted(n);
    DottedNumericOrderPlain(m, n);
    MiddleDecides(NumericSortKey(Dotted(m)), NumericSortKey(Dotted(n)), ".txt");
  }

  /** `sorted(['1', '1.1', '1.1.1'], key=numericsortkey)` keeps the order. */
  lemma NumericSortDottedExample()
    ensures Sorting.SortBy([Dotted(0), Dotted(1), Dotted(2)], NumericSortKey) ==
            [Dotted(0), Dotted(1), Dotted(2)]
  {
    DottedNumericOrder(0, 1); DottedNumericOrder(1, 2);
    NumericKeysComparable(Dotted(0), Dotted(1));
    NumericKeysComparable(Dotted(1), Dotted(2));
    LessAsymmetric(NumericSortKey(Dotted(0)), NumericSortKey(Dotted(1)));
    LessAsymmetric(NumericSortKey(Dotted(1)), NumericSortKey(Dotted(2)));
    Sorting.SortThreeKept(Dotted(0), Dotted(1), Dotted(2), NumericSortKey);
  }

  /** `sorted(['1.txt', '1.1.txt', '1.1.1.txt'], key=numericsortkey)` is the
      reverse order. */
  lemma NumericSortTxtExample()
    ensures Sorting.SortBy([Dotted(0) + ".txt", Dotted(1) + ".txt", Dotted(2) + ".txt"],
                           NumericSortKey) ==
            [Dotted(2) + ".txt", Dotted(1) + ".txt", Dotted(0) + ".txt"]
  {
    DottedNumericOrder(0, 1); DottedNumericOrder(1, 2); DottedNumericOrder(0, 2);
    Sorting.SortThreeReversed(Dotted(0) + ".txt", Dotted(1) + ".txt", Dotted(2) + ".txt", NumericSortKey);
  }

  /** `sorted(['1.txt', '1.1.txt', '1.1.1.txt'], key=humansortkey)` keeps
      the order. */
  lemma HumanSortTxtExample()
    ensures Sorting.SortBy([Dotted(0) + ".txt", Dotted(1) + ".txt", Dotted(2) + ".txt"],
                           HumanSortKey) ==
            [Dotted(0) + ".txt", Dotted(1) + ".txt", Dotted(2) + ".txt"]
  {
    DottedHumanOrder(0, 1); DottedHumanOrder(1, 2);
    HumanKeysComparable(Dotted(0) + ".txt", Dotted(1) + ".txt");
    HumanKeysComparable(Dotted(1) + ".txt", Dotted(2) + ".txt");
    LessAsymmetric(HumanSortKey(Dotted(0) + ".txt"), HumanSortKey(Dotted(1) + ".txt"));
    LessAsymmetric(HumanSortKey(Dotted(1) + ".txt"), HumanSortKey(Dotted(2) + ".txt"));
    Sorting.SortThreeKept(Dotted(0) + ".txt", Dotted(1) + ".txt", Dotted(2) + ".txt", HumanSortKey);
  }

  /** `a.isnumeric()` on the pieces of the split, for ASCII text. */
  predicate IsNumeric(a: string) { a != [] && AllDigits(a) }

  /** `numsortkey(input, index)` of src/imm.py: the split pieces that are
      numeric become ints. `field` is the string itself, or the indexed
      field of a row, which may be `None`. */
  function NumSortKey(field: Option<string>): Value
  {
    match field
    case None => List([])
    case Some(s) =>
      var parts := SplitDigits(s);
      List(seq(|parts|, k requires 0 <= k < |parts| =>
                          if IsNumeric(parts[k]) then Int(ParseNat(parts[k])) else Str(parts[k])))
  }

  /** The numeric pieces of a digit split are its digit runs. */
  lemma DigitPiecesNumeric(parts: seq<string>)
    requires DigitSplit(parts)
    ensures forall k :: 0 <= k < |parts| ==> (IsNumeric(parts[k]) <==> k % 2 == 1)
  {
    forall k | 0 <= k < |parts| ensures IsNumeric(parts[k]) <==> k % 2 == 1 {
      if k % 2 == 0 && parts[k] != [] {
        assert !IsDigit(parts[k][0]);
      }
    }
  }

  /** On a string, `numsortkey` and `numericsortkey` agree: the digit runs
      are exactly the odd pieces of the split. A `None` field gives `[]`. */
  lemma NumSortKeyIsNumericSortKey(s: string)
    ensures NumSortKey(Some(s)) == NumericSortKey(s)
    ensures NumSortKey(None) == List([])
  {
    var parts := SplitDigits(s);
    DigitPiecesNumeric(parts);
    var x := seq(|parts|, k requires 0 <= k < |parts| =>
                            if IsNumeric(parts[k]) then Int(ParseNat(parts[k])) else Str(parts[k]));
    var y := seq(|parts|, k requires 0 <= k < |parts| =>
                            if k % 2 == 1 then Int(ParseNat(parts[k])) else Str(parts[k]));
    assert x == y;
  }
}
