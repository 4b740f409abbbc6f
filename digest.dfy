/** `atomicfy` and `deep_md5` of src/imm.py. The object graph under
    `self.collections` is a heap of nodes addressed by handles, which stand
    for `id()`; `atomicfy` walks it from a start object and yields one byte
    fragment per object it has not seen before. MD5 is a parameter. */
module Digest {
  import opened Strings

  type Byte = x: int | 0 <= x < 256

  /** `id(obj)` */
  type Handle = int

  /** What `atomicfy` can tell about an object. `typeName` is
      `str(type(obj))`. `Seq` is any other sized iterable without `items`
      (a list, tuple, namedtuple or set, in its iteration order); `Dict`
      anything with `items()`, as its pairs in order; `Atom` anything
      neither sized nor convertible by `int()`, such as `None`. */
  datatype Node =
    | Text(typeName: string, text: string)
    | Bytes(typeName: string, bytes: seq<Byte>)
    | Seq(typeName: string, items: seq<Handle>)
    | Dict(typeName: string, pairs: seq<(Handle, Handle)>)
    | IntNode(typeName: string, n: int)
    | BoolNode(typeName: string, b: bool)
    | Atom(typeName: string)

  type Heap = map<Handle, Node>

  /** `str.encode()`: UTF-8. */
  function Utf8Char(c: char): (r: seq<Byte>)
    ensures 1 <= |r| <= 4
  {
    var n := c as int;
    if n < 0x80 then [n]
    else if n < 0x800 then [0xC0 + n / 64, 0x80 + n % 64]
    else if n < 0x10000 then [0xE0 + n / 4096, 0x80 + (n / 64) % 64, 0x80 + n % 64]
    else [0xF0 + n / 262144, 0x80 + (n / 4096) % 64, 0x80 + (n / 64) % 64, 0x80 + n % 64]
  }

  function Utf8(s: string): seq<Byte>
  {
    if s == [] then [] else Utf8Char(s[0]) + Utf8(s[1..])
  }

  /** Reads back one UTF-8 sequence. */
  function DecodeChar(b: seq<Byte>): int
  {
    if |b| == 1 then b[0]
    else if |b| == 2 then (b[0] as int - 0xC0) * 64 + (b[1] as int - 0x80)
    else if |b| == 3 then (b[0] as int - 0xE0) * 4096 + (b[1] as int - 0x80) * 64 + (b[2] as int - 0x80)
    else if |b| == 4 then
      (b[0] as int - 0xF0) * 262144 + (b[1] as int - 0x80) * 4096 + (b[2] as int - 0x80) * 64 + (b[3] as int - 0x80)
    else -1
  }

  /** Each character's encoding decodes back to its code point, so the
      encoding of a string loses nothing. ASCII characters encode as their
      own code. */
  lemma Utf8CharRoundTrip(c: char)
    ensures DecodeChar(Utf8Char(c)) == c as int
    ensures c as int < 0x80 <==> Utf8Char(c) == [c as int]
  {
    var n := c as int;
    if 0x80 <= n < 0x800 {
      DecodeTwo(n);
    } else if 0x800 <= n < 0x10000 {
      DecodeThree(n);
    } else if n >= 0x10000 {
      DecodeFour(n);
    }
  }

  lemma DecodeTwo(n: int)
    requires 0x80 <= n < 0x800
    ensures (0xC0 + n / 64 - 0xC0) * 64 + (0x80 + n % 64 - 0x80) == n
  {
  }

  /** `n` split into 6-bit groups: `n == hi * 64 + (n % 64)` with
      `hi == n / 64`. */
  lemma Split64(n: int, hi: int, lo: int)
    requires n >= 0 && hi == n / 64 && lo == n % 64
    ensures n == hi * 64 + lo && 0 <= lo < 64
  {
  }

  lemma DecodeThree(n: int)
    requires 0x800 <= n < 0x10000
    ensures (0xE0 + n / 4096 - 0xE0) * 4096 + (0x80 + (n / 64) % 64 - 0x80) * 64 + (0x80 + n % 64 - 0x80) == n
  {
    var q := n / 64;
    Split64(n, q, n % 64);
    Split64(q, q / 64, q % 64);
    assert n / 4096 == q / 64;
  }

  lemma DecodeFour(n: int)
    requires 0x10000 <= n < 0x110000
    ensures (0xF0 + n / 262144 - 0xF0) * 262144 + (0x80 + (n / 4096) % 64 - 0x80) * 4096 +
            (0x80 + (n / 64) % 64 - 0x80) * 64 + (0x80 + n % 64 - 0x80) == n
  {
    var q := n / 64;
    var q2 := q / 64;
    Split64(n, q, n % 64);
    Split64(q, q2, q % 64);
    Split64(q2, q2 / 64, q2 % 64);
    assert n / 4096 == q2;
    assert n / 262144 == q2 / 64;
  }

  lemma {:induction false} Utf8Concat(a: string, b: string)
    ensures Utf8(a + b) == Utf8(a) + Utf8(b)
  {
    if a == [] {
      assert a + b == b;
    } else {
      assert (a + b)[0] == a[0] && (a + b)[1..] == a[1..] + b;
      Utf8Concat(a[1..], b);
    }
  }

  /** The bytes of an ASCII text. */
  function Ascii(s: string): seq<Byte>
    requires forall i :: 0 <= i < |s| ==> s[i] as int < 0x80
  {
    seq(|s|, i requires 0 <= i < |s| => s[i] as int)
  }

  lemma {:induction false} Utf8OfAscii(s: string)
    requires forall i :: 0 <= i < |s| ==> s[i] as int < 0x80
    ensures Utf8(s) == Ascii(s)
  {
    if s != [] {
      Utf8OfAscii(s[1..]);
      Utf8CharRoundTrip(s[0]);
    }
  }

  /** `b't' + str(type(obj)).encode()`: the marker of an empty container or
      an atom. */
  function TypeMarker(typeName: string): seq<Byte>
  {
    [0x74] + Utf8(typeName)
  }

  /** The fragment `atomicfy` yields for an object it meets for the first
      time. */
  function Fragment(n: Node): seq<Byte>
  {
    match n
    case Text(t, s) => if s == [] then TypeMarker(t) else Utf8(s)
    case Bytes(t, b) => if b == [] then TypeMarker(t) else [0x62] + b
    case Seq(t, items) => if items == [] then TypeMarker(t) else [0x6C] + Utf8(NatToString(|items|))
    case Dict(t, pairs) => if pairs == [] then TypeMarker(t) else [0x6C] + Utf8(NatToString(|pairs|))
    case IntNode(_, i) => [0x6E] + Utf8(IntToString(i))
    case BoolNode(_, b) => [0x6E] + Utf8(if b then "True" else "False")
    case Atom(t) => TypeMarker(t)
  }

  /** The objects `atomicfy` pushes after an object: a container's elements,
      a mapping's keys and values pair by pair. */
  function Children(n: Node): seq<Handle>
  {
    match n
    case Seq(_, items) => items
    case Dict(_, pairs) => Pairs(pairs)
    case _ => []
  }

  function Pairs(pairs: seq<(Handle, Handle)>): seq<Handle>
  {
    if pairs == [] then [] else [pairs[0].0, pairs[0].1] + Pairs(pairs[1..])
  }

  /** What `atomicfy` emits per kind of object, as the source promises it:
      an empty container only its type marker, a non-empty string its
      encoding, a non-empty container `l` and its length, an int `n` and its
      digits, and anything else its type marker. Only containers push
      children. */
  lemma FragmentKinds(n: Node)
    ensures n.Text? && n.text != [] ==> Fragment(n) == Utf8(n.text)
    ensures n.Seq? && n.items != [] ==>
              Fragment(n) == Ascii("l" + NatToString(|n.items|)) && Children(n) == n.items
    ensures n.Dict? && n.pairs != [] ==>
              Fragment(n) == Ascii("l" + NatToString(|n.pairs|)) && |Children(n)| == 2 * |n.pairs|
    ensures n.IntNode? && n.n >= 0 ==> Fragment(n) == Ascii("n" + NatToString(n.n))
    ensures (n.Text? && n.text == []) || (n.Seq? && n.items == []) || n.Atom? ==>
              Fragment(n) == TypeMarker(n.typeName) && Children(n) == []
    ensures !n.Seq? && !n.Dict? ==> Children(n) == []
  {
    match n
    case Seq(t, items) =>
      var d := NatToString(|items|);
      assert forall i :: 0 <= i < |d| ==> d[i] as int < 0x80;
      Utf8OfAscii(d);
      Utf8OfAscii("l" + d);
      Utf8Concat("l", d);
      assert Utf8("l") == [0x6C];
    case Dict(t, pairs) =>
      var d := NatToString(|pairs|);
      assert forall i :: 0 <= i < |d| ==> d[i] as int < 0x80;
      Utf8OfAscii(d);
      Utf8OfAscii("l" + d);
      Utf8Concat("l", d);
      assert Utf8("l") == [0x6C];
      PairsLength(pairs);
    case IntNode(_, i) =>
      if i >= 0 {
        var d := NatToString(i);
        assert forall j :: 0 <= j < |d| ==> d[j] as int < 0x80;
        Utf8OfAscii(d);
        Utf8OfAscii("n" + d);
        Utf8Concat("n", d);
        assert Utf8("n") == [0x6E];
      }
    case _ =>
  }

  lemma {:induction false} PairsLength(pairs: seq<(Handle, Handle)>)
    ensures |Pairs(pairs)| == 2 * |pairs|
  {
    if pairs != [] { PairsLength(pairs[1..]); }
  }

  /** Every child of every object is in the heap. */
  ghost predicate Closed(heap: Heap) {
    forall h, c :: h in heap && c in Children(heap[h]) ==> c in heap
  }

  ghost predicate AllIn(heap: Heap, hs: seq<Handle>) {
    forall i :: 0 <= i < |hs| ==> hs[i] in heap
  }

  /** The children pushed for `hs`, in order. */
  function PushedFor(heap: Heap, hs: seq<Handle>): seq<Handle>
    requires AllIn(heap, hs)
  {
    if hs == [] then [] else PushedFor(heap, hs[..|hs| - 1]) + Children(heap[hs[|hs| - 1]])
  }

  lemma {:induction false} PushedForMember(heap: Heap, hs: seq<Handle>, x: Handle)
    requires AllIn(heap, hs)
    ensures x in PushedFor(heap, hs) <==> exists m :: 0 <= m < |hs| && x in Children(heap[hs[m]])
  {
    if hs != [] {
      PushedForMember(heap, hs[..|hs| - 1], x);
      assert forall m :: 0 <= m < |hs| - 1 ==> hs[..|hs| - 1][m] == hs[m];
    }
  }

  lemma ChildIn(heap: Heap, h: Handle, c: Handle)
    requires Closed(heap) && h in heap && c in Children(heap[h])
    ensures c in heap
  {
  }

  lemma PushedForClosed(heap: Heap, hs: seq<Handle>)
    requires Closed(heap) && AllIn(heap, hs)
    ensures AllIn(heap, PushedFor(heap, hs))
  {
    forall i | 0 <= i < |PushedFor(heap, hs)| ensures PushedFor(heap, hs)[i] in heap {
      var x := PushedFor(heap, hs)[i];
      PushedForMember(heap, hs, x);
      var m :| 0 <= m < |hs| && x in Children(heap[hs[m]]);
      ChildIn(heap, hs[m], x);
    }
  }

  /** What a run of `atomicfy` from `start` visited: `order` lists the
      objects it emitted a fragment for, each once, starting with `start`,
      each later one a child of an earlier one; every child of a visited
      object is visited; `stack` is `start` followed by what each visited
      object pushed, in visiting order; and `order` is the stack read front
      to back with the objects met again left out. */
  ghost predicate Traversal(heap: Heap, start: Handle, order: seq<Handle>, stack: seq<Handle>) {
    && AllIn(heap, order)
    && |order| >= 1 && order[0] == start
    && (forall j, k :: 0 <= j < k < |order| ==> order[j] != order[k])
    && (forall k :: 0 < k < |order| ==> HasParent(heap, order, k))
    && (forall k, c :: 0 <= k < |order| && c in Children(heap[order[k]]) ==> c in order)
    && stack == [start] + PushedFor(heap, order)
    && order == FirstOccurrences(stack)
  }

  /** The handles of `s` at their first position only. */
  function FirstOccurrences(s: seq<Handle>): seq<Handle>
    decreases |s|
  {
    if s == [] then []
    else
      var f := FirstOccurrences(s[..|s| - 1]);
      if s[|s| - 1] in f then f else f + [s[|s| - 1]]
  }

  /** Reading one more handle of a stack that may have grown meanwhile. */
  lemma FirstOccurrencesStep(stack: seq<Handle>, cs: seq<Handle>, i: int)
    requires 0 <= i < |stack|
    ensures var f := FirstOccurrences(stack[..i]);
            FirstOccurrences((stack + cs)[..i + 1]) == if stack[i] in f then f else f + [stack[i]]
  {
    var t := (stack + cs)[..i + 1];
    assert t[..|t| - 1] == stack[..i];
  }

  function Fragments(heap: Heap, order: seq<Handle>): (r: seq<seq<Byte>>)
    requires AllIn(heap, order)
    ensures |r| == |order|
    ensures forall k :: 0 <= k < |order| ==> r[k] == Fragment(heap[order[k]])
  {
    seq(|order|, k requires 0 <= k < |order| => Fragment(heap[order[k]]))
  }

  /** The state of `atomicfy` before it reads `stack[i]`: what it has
      touched, the order it emitted in, and what it has emitted and pushed. */
  ghost predicate Scanning(heap: Heap, start: Handle, stack: seq<Handle>, i: int, touched: set<Handle>,
                           order: seq<Handle>, frags: seq<seq<Byte>>) {
    && ScanTouched(heap, stack, i, touched, order)
    && ScanOrder(heap, start, i, order)
    && ScanOutput(heap, start, stack, order, frags)
    && ScanFirst(stack, i, order)
  }

  ghost predicate ScanFirst(stack: seq<Handle>, i: int, order: seq<Handle>) {
    0 <= i <= |stack| && order == FirstOccurrences(stack[..i])
  }

  ghost predicate ScanTouched(heap: Heap, stack: seq<Handle>, i: int, touched: set<Handle>, order: seq<Handle>) {
    && 0 <= i <= |stack|
    && AllIn(heap, order) && AllIn(heap, stack)
    && (forall j :: 0 <= j < i ==> stack[j] in touched)
    && (forall x :: x in touched <==> x in order)
    && touched <= heap.Keys
  }

  ghost predicate ScanOrder(heap: Heap, start: Handle, i: int, order: seq<Handle>) {
    && AllIn(heap, order)
    && (i > 0 ==> |order| >= 1 && order[0] == start)
    && (i == 0 ==> order == [])
    && (forall j, k :: 0 <= j < k < |order| ==> order[j] != order[k])
    && (forall k :: 0 < k < |order| ==> HasParent(heap, order, k))
  }

  ghost predicate ScanOutput(heap: Heap, start: Handle, stack: seq<Handle>, order: seq<Handle>, frags: seq<seq<Byte>>) {
    && AllIn(heap, order)
    && stack == [start] + PushedFor(heap, order)
    && frags == Fragments(heap, order)
  }

  /** An object met again is skipped. */
  lemma SkipTouched(heap: Heap, start: Handle, stack: seq<Handle>, i: int, touched: set<Handle>,
                    order: seq<Handle>, frags: seq<seq<Byte>>)
    requires Scanning(heap, start, stack, i, touched, order, frags)
    requires i < |stack| && stack[i] in touched
    ensures Scanning(heap, start, stack, i + 1, touched, order, frags)
  {
    assert i > 0 by {
      if i == 0 { assert false; }
    }
    assert ScanTouched(heap, stack, i, touched, order);
    assert forall x :: x in touched <==> x in order;
    assert stack[i] in touched <==> stack[i] in order;
    assert stack[i] in order;
    ScanFirstSkip(stack, i, order);
  }

  lemma ScanFirstSkip(stack: seq<Handle>, i: int, order: seq<Handle>)
    requires ScanFirst(stack, i, order) && i < |stack| && stack[i] in order
    ensures ScanFirst(stack, i + 1, order)
  {
    FirstOccurrencesStep(stack, [], i);
    assert stack + [] == stack;
  }

  lemma ScanFirstVisit(stack: seq<Handle>, cs: seq<Handle>, i: int, order: seq<Handle>)
    requires ScanFirst(stack, i, order) && i < |stack| && stack[i] !in order
    ensures ScanFirst(stack + cs, i + 1, order + [stack[i]])
  {
    FirstOccurrencesStep(stack, cs, i);
  }

  /** A child pushed after an object earlier in `order`. */
  ghost predicate HasParent(heap: Heap, order: seq<Handle>, k: int)
    requires AllIn(heap, order) && 0 <= k < |order|
  {
    exists m :: 0 <= m < k && order[k] in Children(heap[order[m]])
  }

  lemma ParentsExtend(heap: Heap, order: seq<Handle>, h: Handle)
    requires h in heap && AllIn(heap, order) && |order| >= 1
    requires forall k :: 0 < k < |order| ==> HasParent(heap, order, k)
    requires exists m :: 0 <= m < |order| && h in Children(heap[order[m]])
    ensures forall k :: 0 < k < |order + [h]| ==> HasParent(heap, order + [h], k)
  {
    var o := order + [h];
    forall k | 0 < k < |o| ensures HasParent(heap, o, k) {
      if k < |order| {
        assert HasParent(heap, order, k);
        var m :| 0 <= m < k && order[k] in Children(heap[order[m]]);
        assert o[m] == order[m] && o[k] == order[k];
      } else {
        var m :| 0 <= m < |order| && h in Children(heap[order[m]]);
        assert o[m] == order[m];
      }
    }
  }

  lemma VisitOrder(heap: Heap, start: Handle, stack: seq<Handle>, i: int, touched: set<Handle>,
                   order: seq<Handle>, frags: seq<seq<Byte>>)
    requires ScanTouched(heap, stack, i, touched, order) && ScanOrder(heap, start, i, order)
    requires ScanOutput(heap, start, stack, order, frags)
    requires i < |stack| && stack[i] !in touched
    ensures var o := order + [stack[i]];
            (i == 0 ==> o == [start]) &&
            (forall j, k :: 0 <= j < k < |o| ==> o[j] != o[k]) &&
            (forall k :: 0 < k < |o| ==> HasParent(heap, o, k))
  {
    var h := stack[i];
    assert h !in order;
    if i > 0 {
      assert stack[i] in PushedFor(heap, order);
      PushedForMember(heap, order, h);
      ParentsExtend(heap, order, h);
    }
  }

  lemma OutputExtend(heap: Heap, start: Handle, stack: seq<Handle>, order: seq<Handle>,
                     frags: seq<seq<Byte>>, h: Handle)
    requires ScanOutput(heap, start, stack, order, frags) && h in heap
    ensures ScanOutput(heap, start, stack + Children(heap[h]), order + [h], frags + [Fragment(heap[h])])
  {
    var cs := Children(heap[h]);
    PushedForSnoc(heap, order, h);
    FragmentsSnoc(heap, order, h);
    StackSnoc(start, PushedFor(heap, order), cs);
  }

  lemma StackSnoc(start: Handle, pushed: seq<Handle>, cs: seq<Handle>)
    ensures [start] + pushed + cs == [start] + (pushed + cs)
  {
  }

  lemma PushedForSnoc(heap: Heap, order: seq<Handle>, h: Handle)
    requires AllIn(heap, order) && h in heap
    ensures AllIn(heap, order + [h])
    ensures PushedFor(heap, order + [h]) == PushedFor(heap, order) + Children(heap[h])
  {
    var o := order + [h];
    assert o[..|o| - 1] == order;
  }

  lemma FragmentsSnoc(heap: Heap, order: seq<Handle>, h: Handle)
    requires AllIn(heap, order) && h in heap
    ensures AllIn(heap, order + [h])
    ensures Fragments(heap, order + [h]) == Fragments(heap, order) + [Fragment(heap[h])]
  {
    var o := order + [h];
    var a, b := Fragments(heap, o), Fragments(heap, order) + [Fragment(heap[h])];
    assert |a| == |b|;
    forall k | 0 <= k < |a| ensures a[k] == b[k] {
      if k < |order| { assert o[k] == order[k]; } else { assert o[k] == h; }
    }
  }

  lemma TouchedExtend(heap: Heap, stack: seq<Handle>, i: int, touched: set<Handle>, order: seq<Handle>)
    requires Closed(heap) && ScanTouched(heap, stack, i, touched, order) && i < |stack|
    ensures var h := stack[i];
            ScanTouched(heap, stack + Children(heap[h]), i + 1, touched + {h}, order + [h])
  {
    var h := stack[i];
    forall c | c in Children(heap[h]) ensures c in heap { ChildIn(heap, h, c); }
  }

  /** An object met for the first time is emitted and its children pushed. */
  lemma VisitNew(heap: Heap, start: Handle, stack: seq<Handle>, i: int, touched: set<Handle>,
                 order: seq<Handle>, frags: seq<seq<Byte>>)
    requires Closed(heap)
    requires Scanning(heap, start, stack, i, touched, order, frags)
    requires i < |stack| && stack[i] !in touched
    ensures var h := stack[i];
            Scanning(heap, start, stack + Children(heap[h]), i + 1, touched + {h},
                     order + [h], frags + [Fragment(heap[h])])
  {
    var h := stack[i];
    VisitOrder(heap, start, stack, i, touched, order, frags);
    TouchedExtend(heap, stack, i, touched, order);
    OutputExtend(heap, start, stack, order, frags, h);
    ScanFirstVisit(stack, Children(heap[h]), i, order);
  }

  /** One pass of the loop of `atomicfy`: the object at `stack[i]` is
      skipped if it was `touched`, and otherwise emitted with its children
      pushed. */
  method ScanStep(heap: Heap, start: Handle, stack: seq<Handle>, i: int, touched: set<Handle>,
                  ghost order: seq<Handle>, frags: seq<seq<Byte>>)
    returns (stack': seq<Handle>, touched': set<Handle>, ghost order': seq<Handle>, frags': seq<seq<Byte>>)
    requires Closed(heap) && Scanning(heap, start, stack, i, touched, order, frags) && i < |stack|
    ensures Scanning(heap, start, stack', i + 1, touched', order', frags')
    ensures (touched' == touched && stack' == stack) || |heap.Keys - touched'| < |heap.Keys - touched|
  {
    var h := stack[i];
    if h !in touched {
      VisitNew(heap, start, stack, i, touched, order, frags);
      assert heap.Keys - (touched + {h}) < heap.Keys - touched;
      touched' := touched + {h};
      order' := order + [h];
      frags' := frags + [Fragment(heap[h])];
      stack' := stack + Children(heap[h]);
    } else {
      SkipTouched(heap, start, stack, i, touched, order, frags);
      stack', touched', order', frags' := stack, touched, order, frags;
    }
  }

  /** Before the loop: only `start` on the stack, nothing read. */
  lemma ScanStart(heap: Heap, start: Handle)
    requires start in heap
    ensures Scanning(heap, start, [start], 0, {}, [], [])
  {
    assert [start][..0] == [];
  }

  /** `atomicfy(start, stack=[])`: the loop over a stack that grows while it
      is read, skipping objects already `touched`. The fragments are those
      of the visited objects, in visiting order. */
  method Atomicfy(heap: Heap, start: Handle) returns (frags: seq<seq<Byte>>, stack: seq<Handle>, ghost order: seq<Handle>)
    requires Closed(heap) && start in heap
    ensures Traversal(heap, start, order, stack)
    ensures frags == Fragments(heap, order)
  {
    stack := [start];
    var touched: set<Handle> := {};
    frags := [];
    order := [];
    var i := 0;
    ScanStart(heap, start);
    while i < |stack|
      invariant Scanning(heap, start, stack, i, touched, order, frags)
      decreases |heap.Keys - touched|, |stack| - i
    {
      stack, touched, order, frags := ScanStep(heap, start, stack, i, touched, order, frags);
      i := i + 1;
    }
    VisitedClosed(heap, start, stack, touched, order, frags);
  }

  /** Once the whole stack is read, every child of a visited object was
      visited. */
  lemma VisitedClosed(heap: Heap, start: Handle, stack: seq<Handle>, touched: set<Handle>,
                      order: seq<Handle>, frags: seq<seq<Byte>>)
    requires Scanning(heap, start, stack, |stack|, touched, order, frags)
    ensures Traversal(heap, start, order, stack)
  {
    ChildrenVisited(heap, start, stack, touched, order, frags);
    ScanFirstAll(stack, order);
  }

  lemma ChildrenVisited(heap: Heap, start: Handle, stack: seq<Handle>, touched: set<Handle>,
                        order: seq<Handle>, frags: seq<seq<Byte>>)
    requires ScanTouched(heap, stack, |stack|, touched, order) && ScanOutput(heap, start, stack, order, frags)
    ensures forall k, c :: 0 <= k < |order| && c in Children(heap[order[k]]) ==> c in order
  {
    forall k, c | 0 <= k < |order| && c in Children(heap[order[k]]) ensures c in order {
      PushedForMember(heap, order, c);
      var j :| 0 <= j < |PushedFor(heap, order)| && PushedFor(heap, order)[j] == c;
      assert stack[j + 1] == c;
      assert c in touched;
    }
  }

  lemma ScanFirstAll(stack: seq<Handle>, order: seq<Handle>)
    requires ScanFirst(stack, |stack|, order)
    ensures order == FirstOccurrences(stack)
  {
    assert stack[..|stack|] == stack;
  }

  function Flatten(parts: seq<seq<Byte>>): seq<Byte>
  {
    if parts == [] then [] else parts[0] + Flatten(parts[1..])
  }

  /** `str(id(a)).encode()` for every object on the final stack. */
  function IdBytes(stack: seq<Handle>): seq<seq<Byte>>
  {
    seq(|stack|, i requires 0 <= i < |stack| => Utf8(IntToString(stack[i])))
  }

  // One traversal only

  /** `FirstOccurrences` keeps exactly the handles of `s`. */
  lemma {:induction false} FirstOccurrencesMembers(s: seq<Handle>, x: Handle)
    ensures x in FirstOccurrences(s) <==> x in s
    decreases |s|
  {
    if s != [] {
      FirstOccurrencesMembers(s[..|s| - 1], x);
      assert s == s[..|s| - 1] + [s[|s| - 1]];
    }
  }

  /** Reading further along a stack only adds first occurrences at the end. */
  lemma {:induction false} FirstOccurrencesPrefix(a: seq<Handle>, r: seq<Handle>)
    ensures |FirstOccurrences(a)| <= |FirstOccurrences(a + r)|
    ensures FirstOccurrences(a + r)[..|FirstOccurrences(a)|] == FirstOccurrences(a)
    decreases |r|
  {
    if r == [] {
      assert a + r == a;
    } else {
      var r' := r[..|r| - 1];
      FirstOccurrencesPrefix(a, r');
      assert (a + r)[..|a + r| - 1] == a + r';
    }
  }

  lemma {:induction false} PushedForConcat(heap: Heap, p: seq<Handle>, q: seq<Handle>)
    requires AllIn(heap, p) && AllIn(heap, q)
    ensures AllIn(heap, p + q)
    ensures PushedFor(heap, p + q) == PushedFor(heap, p) + PushedFor(heap, q)
    decreases |q|
  {
    AllInConcat(heap, p, q);
    if q == [] {
      assert p + q == p;
    } else {
      var q', x := q[..|q| - 1], q[|q| - 1];
      AllInInit(heap, q);
      PushedForConcat(heap, p, q');
      PushedForLast(heap, p + q', x);
      PushedForLast(heap, q', x);
      ConcatSnoc(p, q', x);
      SnocAssoc3(PushedFor(heap, p), PushedFor(heap, q'), Children(heap[x]));
    }
  }

  lemma AllInConcat(heap: Heap, p: seq<Handle>, q: seq<Handle>)
    requires AllIn(heap, p) && AllIn(heap, q)
    ensures AllIn(heap, p + q)
  {
    forall i | 0 <= i < |p + q| ensures (p + q)[i] in heap {
      if i < |p| { assert (p + q)[i] == p[i]; } else { assert (p + q)[i] == q[i - |p|]; }
    }
  }

  lemma AllInInit(heap: Heap, q: seq<Handle>)
    requires AllIn(heap, q) && q != []
    ensures AllIn(heap, q[..|q| - 1]) && q[|q| - 1] in heap && q == q[..|q| - 1] + [q[|q| - 1]]
  {
    var q' := q[..|q| - 1];
    forall i | 0 <= i < |q'| ensures q'[i] in heap { assert q'[i] == q[i]; }
  }

  lemma ConcatSnoc(p: seq<Handle>, q': seq<Handle>, x: Handle)
    ensures p + (q' + [x]) == (p + q') + [x]
  {
  }

  lemma PushedForLast(heap: Heap, hs: seq<Handle>, x: Handle)
    requires AllIn(heap, hs) && x in heap
    ensures AllIn(heap, hs + [x]) && PushedFor(heap, hs + [x]) == PushedFor(heap, hs) + Children(heap[x])
  {
    var o := hs + [x];
    assert o[..|o| - 1] == hs;
  }

  lemma SnocAssoc3(a: seq<Handle>, b: seq<Handle>, c: seq<Handle>)
    ensures (a + b) + c == a + (b + c)
  {
  }

  /** What the first `n` visits put on the stack is read first. */
  lemma StackHead(heap: Heap, start: Handle, order: seq<Handle>, stack: seq<Handle>, n: int)
    requires Traversal(heap, start, order, stack) && 0 <= n <= |order|
    ensures var f := FirstOccurrences([start] + PushedFor(heap, order[..n]));
            |f| <= |order| && order[..|f|] == f
  {
    var p, q := order[..n], order[n..];
    assert order == p + q;
    assert AllIn(heap, p) by { forall i | 0 <= i < |p| ensures p[i] in heap { assert p[i] == order[i]; } }
    assert AllIn(heap, q) by { forall i | 0 <= i < |q| ensures q[i] in heap { assert q[i] == order[n + i]; } }
    PushedForConcat(heap, p, q);
    var a := [start] + PushedFor(heap, p);
    StackSnoc(start, PushedFor(heap, p), PushedFor(heap, q));
    FirstOccurrencesPrefix(a, PushedFor(heap, q));
  }

  /** The object visited `n`th is already on that part of the stack. */
  lemma NextPushed(heap: Heap, start: Handle, order: seq<Handle>, stack: seq<Handle>, n: int)
    requires Traversal(heap, start, order, stack) && 0 <= n < |order|
    ensures order[n] in FirstOccurrences([start] + PushedFor(heap, order[..n]))
  {
    var p := order[..n];
    var a := [start] + PushedFor(heap, p);
    assert order[n] in a by {
      if n > 0 {
        assert HasParent(heap, order, n);
        var m :| 0 <= m < n && order[n] in Children(heap[order[m]]);
        assert p[m] == order[m];
        PushedForMember(heap, p, order[n]);
      }
    }
    FirstOccurrencesMembers(a, order[n]);
  }

  /** In a traversal, the object visited `n`th is the `n`th first
      occurrence of what the first `n` visits put on the stack. */
  lemma NextVisit(heap: Heap, start: Handle, order: seq<Handle>, stack: seq<Handle>, n: int)
    requires Traversal(heap, start, order, stack) && 0 <= n < |order|
    ensures var f := FirstOccurrences([start] + PushedFor(heap, order[..n]));
            |f| > n && order[n] == f[n]
  {
    var f := FirstOccurrences([start] + PushedFor(heap, order[..n]));
    StackHead(heap, start, order, stack, n);
    NextPushed(heap, start, order, stack, n);
    var k :| 0 <= k < |f| && f[k] == order[n];
    assert order[k] == order[n];
  }

  /** Two traversals from the same start agree on their first `n` visits. */
  lemma {:induction false} TraversalsAgree(heap: Heap, start: Handle, o1: seq<Handle>, s1: seq<Handle>,
                                           o2: seq<Handle>, s2: seq<Handle>, n: int)
    requires Traversal(heap, start, o1, s1) && Traversal(heap, start, o2, s2)
    requires 0 <= n <= |o1| && n <= |o2|
    ensures o1[..n] == o2[..n]
  {
    if n > 0 {
      TraversalsAgree(heap, start, o1, s1, o2, s2, n - 1);
      NextVisit(heap, start, o1, s1, n - 1);
      NextVisit(heap, start, o2, s2, n - 1);
      assert o1[..n] == o1[..n - 1] + [o1[n - 1]];
      assert o2[..n] == o2[..n - 1] + [o2[n - 1]];
    }
  }

  /** A traversal does not stop where a longer one goes on: it differs
      from that one's first visits. */
  lemma NotShorter(heap: Heap, start: Handle, o1: seq<Handle>, s1: seq<Handle>, o2: seq<Handle>, s2: seq<Handle>)
    requires Traversal(heap, start, o1, s1) && Traversal(heap, start, o2, s2) && |o1| < |o2|
    ensures o1 != o2[..|o1|]
  {
    NextVisit(heap, start, o2, s2, |o1|);
    if o1 == o2[..|o1|] {
      assert false;
    }
  }

  /** The traversal description fixes the visit order and the stack, so
      the contract of `Atomicfy` determines its results. */
  lemma TraversalUnique(heap: Heap, start: Handle, o1: seq<Handle>, s1: seq<Handle>,
                        o2: seq<Handle>, s2: seq<Handle>)
    requires Traversal(heap, start, o1, s1) && Traversal(heap, start, o2, s2)
    ensures o1 == o2 && s1 == s2
  {
    if |o1| < |o2| {
      TraversalsAgree(heap, start, o1, s1, o2, s2, |o1|);
      NotShorter(heap, start, o1, s1, o2, s2);
      assert false;
    } else if |o2| < |o1| {
      TraversalsAgree(heap, start, o1, s1, o2, s2, |o2|);
      NotShorter(heap, start, o2, s2, o1, s1);
      assert false;
    } else {
      TraversalsAgree(heap, start, o1, s1, o2, s2, |o1|);
      assert o1[..|o1|] == o1 && o2[..|o2|] == o2;
    }
  }

  /** `deep_md5(ids=True)`: the digest of the joined fragments and the
      digest of the joined ids of the final stack. */
  method DeepMd5<D>(heap: Heap, start: Handle, md5: seq<Byte> -> D) returns (r: (D, D), ghost order: seq<Handle>, ghost stack: seq<Handle>)
    requires Closed(heap) && start in heap
    ensures Traversal(heap, start, order, stack)
    ensures r == (md5(Flatten(Fragments(heap, order))), md5(Flatten(IdBytes(stack))))
  {
    var frags, st, ord := Atomicfy(heap, start);
    order, stack := ord, st;
    r := (md5(Flatten(frags)), md5(Flatten(IdBytes(st))));
  }
}
