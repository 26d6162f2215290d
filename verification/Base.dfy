/** Vocabulary shared by every module: options, results, sums, and sorting by a comparator. */
module Base {

  datatype Option<+T> = None | Some(value: T)

  datatype Result<+T, +E> = Ok(value: T) | Err(error: E)

  /** The total of a sequence of integers. */
  function Sum(s: seq<int>): int {
    if s == [] then 0 else s[0] + Sum(s[1..])
  }

  /** All parts, one after the other. */
  function Flatten<T>(parts: seq<seq<T>>): seq<T> {
    if parts == [] then [] else parts[0] + Flatten(parts[1..])
  }

  function Map<T, U>(f: T -> U, s: seq<T>): (r: seq<U>)
    ensures |r| == |s|
    ensures forall i | 0 <= i < |s| :: r[i] == f(s[i])
  {
    seq(|s|, i requires 0 <= i < |s| => f(s[i]))
  }

  /** The total of f over s. */
  function SumBy<T>(f: T -> int, s: seq<T>): int {
    if s == [] then 0 else f(s[0]) + SumBy(f, s[1..])
  }

  lemma SumByConcat<T>(f: T -> int, a: seq<T>, b: seq<T>)
    ensures SumBy(f, a + b) == SumBy(f, a) + SumBy(f, b)
  {
    if a == [] {
      assert a + b == b;
    } else {
      assert (a + b)[1..] == a[1..] + b;
      SumByConcat(f, a[1..], b);
    }
  }

  /** Removing the element at i removes one occurrence of it. */
  lemma MultisetWithout<T>(s: seq<T>, i: nat)
    requires i < |s|
    ensures multiset(s[..i] + s[i + 1..]) == multiset(s) - multiset{s[i]}
  {
    assert s == s[..i] + [s[i]] + s[i + 1..];
  }

  lemma MultisetTail<T>(s: seq<T>)
    requires s != []
    ensures multiset(s[1..]) == multiset(s) - multiset{s[0]}
  {
    assert s == [s[0]] + s[1..];
  }

  /** A total depends on which elements there are, not on their order. */
  lemma {:induction false} SumByPermutation<T>(f: T -> int, a: seq<T>, b: seq<T>)
    requires multiset(a) == multiset(b)
    ensures SumBy(f, a) == SumBy(f, b)
    decreases |a|
  {
    if a == [] {
      assert |multiset(b)| == 0;
    } else {
      var i := MatchHead(a, b);
      SumByPermutation(f, a[1..], b[..i] + b[i + 1..]);
      SumByConcat(f, b[..i], b[i + 1..]);
      SumByConcat(f, b[..i], b[i..]);
      assert b == b[..i] + b[i..];
    }
  }

  lemma MapConcat<T, U>(f: T -> U, a: seq<T>, b: seq<T>)
    ensures Map(f, a + b) == Map(f, a) + Map(f, b)
  {
  }

  lemma MapWithout<T, U>(f: T -> U, s: seq<T>, i: nat)
    requires i < |s|
    ensures multiset(Map(f, s[..i] + s[i + 1..])) == multiset(Map(f, s)) - multiset{f(s[i])}
  {
    var image := Map(f, s);
    assert Map(f, s[..i] + s[i + 1..]) == image[..i] + image[i + 1..];
    MultisetWithout(image, i);
  }

  lemma MapMatch<T, U>(f: T -> U, a: seq<T>, b: seq<T>, i: nat)
    requires a != [] && i < |b| && b[i] == a[0]
    requires multiset(Map(f, a[1..])) == multiset(Map(f, b[..i] + b[i + 1..]))
    ensures multiset(Map(f, a)) == multiset(Map(f, b))
  {
    var x := f(a[0]);
    MapWithout(f, b, i);
    assert x in multiset(Map(f, b)) by {
      assert Map(f, b)[i] == x;
    }
    assert multiset(Map(f, a)) == multiset{x} + multiset(Map(f, a[1..])) by {
      assert Map(f, a) == [x] + Map(f, a[1..]);
    }
    CancelOne(x, multiset(Map(f, a)), multiset(Map(f, b)));
  }

  /** Mapping commutes with reordering. */
  lemma {:induction false} MapPermutation<T, U>(f: T -> U, a: seq<T>, b: seq<T>)
    requires multiset(a) == multiset(b)
    ensures multiset(Map(f, a)) == multiset(Map(f, b))
    decreases |a|
  {
    if a == [] {
      assert |multiset(b)| == 0;
    } else {
      var i := MatchHead(a, b);
      MapPermutation(f, a[1..], b[..i] + b[i + 1..]);
      MapMatch(f, a, b, i);
    }
  }

  /** Where the head of a occurs in a reordering of it; the rests are reorderings too. */
  lemma MatchHead<T>(a: seq<T>, b: seq<T>) returns (i: nat)
    requires a != [] && multiset(a) == multiset(b)
    ensures i < |b| && b[i] == a[0]
    ensures multiset(a[1..]) == multiset(b[..i] + b[i + 1..])
  {
    assert a[0] in multiset(b);
    i :| 0 <= i < |b| && b[i] == a[0];
    MultisetWithout(b, i);
    MultisetTail(a);
  }

  lemma CancelOne<T>(x: T, a: multiset<T>, b: multiset<T>)
    requires x in a && x in b && a - multiset{x} == b - multiset{x}
    ensures a == b
  {
    assert a == (a - multiset{x}) + multiset{x};
    assert b == (b - multiset{x}) + multiset{x};
  }

  lemma MapFlatten<T, U>(f: T -> U, parts: seq<seq<T>>)
    ensures Map(f, Flatten(parts)) == Flatten(Map(p => Map(f, p), parts))
  {
    var mapped := Map(p => Map(f, p), parts);
    if parts != [] {
      MapFlatten(f, parts[1..]);
      assert mapped[1..] == Map(p => Map(f, p), parts[1..]);
      assert Map(f, Flatten(parts)) == Map(f, parts[0]) + Map(f, Flatten(parts[1..]));
    }
  }

  /** The total over the flattened parts is the total of the parts' totals. */
  lemma SumByFlatten<T>(f: T -> int, parts: seq<seq<T>>)
    ensures SumBy(f, Flatten(parts)) == Sum(Map(p => SumBy(f, p), parts))
  {
    var totals := Map(p => SumBy(f, p), parts);
    if parts != [] {
      SumByFlatten(f, parts[1..]);
      SumByConcat(f, parts[0], Flatten(parts[1..]));
      assert totals[1..] == Map(p => SumBy(f, p), parts[1..]);
    }
  }

  lemma FlattenMember<T>(parts: seq<seq<T>>, x: T)
    ensures x in Flatten(parts) <==> exists k :: 0 <= k < |parts| && x in parts[k]
  {
    if parts != [] {
      FlattenMember(parts[1..], x);
      if x in parts[0] {
        assert parts[0] == parts[0];
      }
      if k :| 0 <= k < |parts[1..]| && x in parts[1..][k] {
        assert parts[k + 1] == parts[1..][k];
      }
      if k :| 0 < k < |parts| && x in parts[k] {
        assert parts[k] == parts[1..][k - 1];
      }
    }
  }

  /** Appending x to one part adds x to the flattened multiset. */
  lemma FlattenUpdate<T>(parts: seq<seq<T>>, k: nat, x: T)
    requires k < |parts|
    ensures multiset(Flatten(parts[k := parts[k] + [x]])) == multiset(Flatten(parts)) + multiset{x}
  {
    var after := parts[k := parts[k] + [x]];
    if k == 0 {
      assert after[1..] == parts[1..];
    } else {
      assert after[1..] == parts[1..][k - 1 := parts[1..][k - 1] + [x]];
      FlattenUpdate(parts[1..], k - 1, x);
    }
  }

  // ---- comparator sorting -------------------------------------------------------------------

  /** No later element belongs before an earlier one. */
  ghost predicate SortedBy<T>(less: (T, T) -> bool, s: seq<T>) {
    forall i, j | 0 <= i < j < |s| :: !less(s[j], s[i])
  }

  /** A strict weak order, as sort.Slice and sort.SliceStable demand of their comparator. */
  ghost predicate WeakOrder<T(!new)>(less: (T, T) -> bool) {
    && (forall x, y :: less(x, y) ==> !less(y, x))
    && (forall x, y, z :: less(x, z) ==> less(x, y) || less(y, z))
  }

  /** A strict weak order in which only equal elements tie. */
  ghost predicate StrictTotal<T(!new)>(less: (T, T) -> bool) {
    && WeakOrder(less)
    && (forall x, y :: x == y || less(x, y) || less(y, x))
  }

  /** x placed before the first element that does not precede it. */
  function Insert<T>(less: (T, T) -> bool, x: T, s: seq<T>): seq<T> {
    if s == [] || !less(s[0], x) then [x] + s else [s[0]] + Insert(less, x, s[1..])
  }

  /** s sorted, keeping the order of elements that tie. */
  function Sort<T>(less: (T, T) -> bool, s: seq<T>): seq<T> {
    if s == [] then [] else Insert(less, s[0], Sort(less, s[1..]))
  }

  lemma InsertPermutes<T>(less: (T, T) -> bool, x: T, s: seq<T>)
    ensures multiset(Insert(less, x, s)) == multiset(s) + multiset{x}
  {
    if s == [] || !less(s[0], x) {
    } else {
      InsertPermutes(less, x, s[1..]);
      assert s == [s[0]] + s[1..];
    }
  }

  lemma {:induction false} SortPermutes<T>(less: (T, T) -> bool, s: seq<T>)
    ensures multiset(Sort(less, s)) == multiset(s)
    ensures |Sort(less, s)| == |s|
  {
    if s != [] {
      SortPermutes(less, s[1..]);
      InsertPermutes(less, s[0], Sort(less, s[1..]));
      assert s == [s[0]] + s[1..];
    }
    assert |multiset(Sort(less, s))| == |multiset(s)|;
  }

  lemma {:induction false} InsertSorts<T(!new)>(less: (T, T) -> bool, x: T, s: seq<T>)
    requires WeakOrder(less) && SortedBy(less, s)
    ensures SortedBy(less, Insert(less, x, s))
  {
    if s == [] {
    } else if !less(s[0], x) {
      var r := [x] + s;
      forall i, j | 0 <= i < j < |r| ensures !less(r[j], r[i]) {
        if i == 0 {
          assert !less(s[j - 1], s[0]);
        }
      }
    } else {
      var t := Insert(less, x, s[1..]);
      InsertSorts(less, x, s[1..]);
      InsertPermutes(less, x, s[1..]);
      var r := [s[0]] + t;
      forall i, j | 0 <= i < j < |r| ensures !less(r[j], r[i]) {
        if i == 0 {
          assert t[j - 1] in multiset(t);
          assert t[j - 1] == x || t[j - 1] in s[1..];
        }
      }
    }
  }

  lemma {:induction false} SortSorts<T(!new)>(less: (T, T) -> bool, s: seq<T>)
    requires WeakOrder(less)
    ensures SortedBy(less, Sort(less, s))
  {
    if s != [] {
      SortSorts(less, s[1..]);
      InsertSorts(less, s[0], Sort(less, s[1..]));
    }
  }

  lemma SameLeast<T(!new)>(less: (T, T) -> bool, a: seq<T>, b: seq<T>)
    requires StrictTotal(less) && SortedBy(less, a) && SortedBy(less, b)
    requires a != [] && multiset(a) == multiset(b)
    ensures b != [] && a[0] == b[0]
  {
    assert |multiset(a)| == |multiset(b)|;
    assert a[0] in multiset(b) && b[0] in multiset(a);
    var i :| 0 <= i < |b| && b[i] == a[0];
    var j :| 0 <= j < |a| && a[j] == b[0];
    assert !less(b[i], b[0]) || i == 0;
    assert !less(a[j], a[0]) || j == 0;
  }

  /** Under a strict total order there is exactly one way to sort a multiset, so it does not
      matter which sorting algorithm is used, nor in which order its input came. */
  lemma {:induction false} SortedUnique<T(!new)>(less: (T, T) -> bool, a: seq<T>, b: seq<T>)
    requires StrictTotal(less) && SortedBy(less, a) && SortedBy(less, b)
    requires multiset(a) == multiset(b)
    ensures a == b
  {
    if a == [] {
      assert |multiset(b)| == 0;
    } else {
      SameLeast(less, a, b);
      MultisetTail(a);
      MultisetTail(b);
      SortedUnique(less, a[1..], b[1..]);
    }
  }

  // ---- Go's string order --------------------------------------------------------------------

  /** a < b in Go's lexicographic string order. */
  predicate StringLess(a: string, b: string) {
    b != [] && (a == [] || a[0] < b[0] || (a[0] == b[0] && StringLess(a[1..], b[1..])))
  }

  /** Go's order on strings: a runs out, or has the smaller character, where they first differ. */
  lemma {:induction false} StringLessExactly(a: string, b: string)
    ensures StringLess(a, b) <==>
            exists k | 0 <= k <= |a| && k < |b| :: a[..k] == b[..k] && (k == |a| || a[k] < b[k])
  {
    if a != [] && b != [] && a[0] == b[0] {
      StringLessExactly(a[1..], b[1..]);
      if StringLess(a, b) {
        var k :| 0 <= k <= |a[1..]| && k < |b[1..]| && a[1..][..k] == b[1..][..k] && (k == |a[1..]| || a[1..][k] < b[1..][k]);
        assert a[..k + 1] == [a[0]] + a[1..][..k] && b[..k + 1] == [b[0]] + b[1..][..k];
      }
      if k :| 0 <= k <= |a| && k < |b| && a[..k] == b[..k] && (k == |a| || a[k] < b[k]) {
        assert k > 0;
        assert a[1..][..k - 1] == a[..k][1..] && b[1..][..k - 1] == b[..k][1..];
      }
    } else if StringLess(a, b) {
      assert a[..0] == b[..0];
    } else if a != [] && b != [] {
      forall k | 0 < k <= |a| && k < |b| ensures a[..k] != b[..k] {
        assert a[..k][0] == a[0] && b[..k][0] == b[0];
      }
    }
  }

  lemma StringLessAsymmetric(a: string, b: string)
    requires StringLess(a, b)
    ensures !StringLess(b, a)
  {
  }

  lemma StringLessNegativelyTransitive(a: string, b: string, c: string)
    requires StringLess(a, c)
    ensures StringLess(a, b) || StringLess(b, c)
  {
  }

  lemma StringLessTotal(a: string, b: string)
    ensures a == b || StringLess(a, b) || StringLess(b, a)
  {
    if a != [] && b != [] && a[0] == b[0] {
      StringLessTotal(a[1..], b[1..]);
      assert a == [a[0]] + a[1..] && b == [b[0]] + b[1..];
    }
  }

  lemma StringLessStrictTotal()
    ensures StrictTotal(StringLess)
  {
    forall a, b | StringLess(a, b) ensures !StringLess(b, a) {
      StringLessAsymmetric(a, b);
    }
    forall a, b, c | StringLess(a, c) ensures StringLess(a, b) || StringLess(b, c) {
      StringLessNegativelyTransitive(a, b, c);
    }
    forall a, b ensures a == b || StringLess(a, b) || StringLess(b, a) {
      StringLessTotal(a, b);
    }
  }

  // ---- Go's strings package ------------------------------------------------------------------

  /** strings.Split of s at every c. */
  function SplitOn(c: char, s: string): (parts: seq<string>)
    ensures parts != []
  {
    if s == "" then [""]
    else
      var rest := SplitOn(c, s[1..]);
      if s[0] == c then [""] + rest else [[s[0]] + rest[0]] + rest[1..]
  }

  /** strings.Join. */
  function Join(sep: string, parts: seq<string>): string {
    if parts == [] then ""
    else if |parts| == 1 then parts[0]
    else parts[0] + sep + Join(sep, parts[1..])
  }

  lemma {:induction false} SplitNone(c: char, s: string)
    requires c !in s
    ensures SplitOn(c, s) == [s]
  {
    if s != "" {
      assert s[0] in s && forall x | x in s[1..] :: x in s;
      SplitNone(c, s[1..]);
      assert s == [s[0]] + s[1..];
    }
  }

  lemma {:induction false} SplitFirst(c: char, a: string, b: string)
    requires c !in a
    ensures SplitOn(c, a + [c] + b) == [a] + SplitOn(c, b)
  {
    var s := a + [c] + b;
    if a == "" {
      assert s[1..] == b;
    } else {
      assert a[0] in a && forall x | x in a[1..] :: x in a;
      assert s[1..] == a[1..] + [c] + b;
      SplitFirst(c, a[1..], b);
      assert a == [a[0]] + a[1..];
    }
  }

  /** A separator splits, whatever stands on either side of it. */
  lemma {:induction false} SplitConcat(c: char, a: string, b: string)
    ensures SplitOn(c, a + [c] + b) == SplitOn(c, a) + SplitOn(c, b)
  {
    var s := a + [c] + b;
    if a == "" {
      assert s[1..] == b;
    } else {
      var front, back := SplitOn(c, a[1..]), SplitOn(c, b);
      assert SplitOn(c, s[1..]) == front + back by {
        assert s[1..] == a[1..] + [c] + b;
        SplitConcat(c, a[1..], b);
      }
      if a[0] == c {
        assert SplitOn(c, s) == [""] + (front + back) == ([""] + front) + back;
      } else {
        var first := [[a[0]] + front[0]];
        assert SplitOn(c, s) == first + (front[1..] + back) == (first + front[1..]) + back;
      }
    }
  }

  lemma {:induction false} SplitJoin(c: char, parts: seq<string>)
    requires parts != [] && forall p | p in parts :: c !in p
    ensures SplitOn(c, Join([c], parts)) == parts
  {
    assert parts[0] in parts;
    if |parts| == 1 {
      SplitNone(c, parts[0]);
    } else {
      assert forall p | p in parts[1..] :: p in parts;
      SplitJoin(c, parts[1..]);
      SplitFirst(c, parts[0], Join([c], parts[1..]));
    }
  }

  lemma {:induction false} JoinSplit(c: char, s: string)
    ensures Join([c], SplitOn(c, s)) == s
    ensures forall p | p in SplitOn(c, s) :: c !in p
  {
    if s != "" {
      JoinSplit(c, s[1..]);
      var rest := SplitOn(c, s[1..]);
      assert s == [s[0]] + s[1..];
      if s[0] == c {
        assert ([""] + rest)[1..] == rest;
      } else {
        var parts := [[s[0]] + rest[0]] + rest[1..];
        assert parts[1..] == rest[1..];
        assert rest[0] in rest && forall p | p in rest[1..] :: p in rest;
        if |rest| > 1 {
          assert parts[0] + [c] + Join([c], parts[1..]) == [s[0]] + (rest[0] + [c] + Join([c], rest[1..]));
        }
      }
    }
  }

  function Filter<T>(keep: T -> bool, s: seq<T>): seq<T> {
    if s == [] then [] else (if keep(s[0]) then [s[0]] else []) + Filter(keep, s[1..])
  }

  lemma {:induction false} FilterConcat<T>(keep: T -> bool, a: seq<T>, b: seq<T>)
    ensures Filter(keep, a + b) == Filter(keep, a) + Filter(keep, b)
  {
    if a == [] {
      assert a + b == b;
    } else {
      assert (a + b)[1..] == a[1..] + b;
      FilterConcat(keep, a[1..], b);
      assert [a[0]] + (Filter(keep, a[1..]) + Filter(keep, b)) == ([a[0]] + Filter(keep, a[1..])) + Filter(keep, b);
    }
  }

  lemma {:induction false} FilterAppend<T>(keep: T -> bool, s: seq<T>, x: T)
    ensures Filter(keep, s + [x]) == Filter(keep, s) + if keep(x) then [x] else []
  {
    FilterConcat(keep, s, [x]);
    assert [x][1..] == [];
    assert Filter(keep, [x]) == if keep(x) then [x] else [];
  }

  lemma {:induction false} FilterKeeps<T>(keep: T -> bool, s: seq<T>, i: nat)
    requires i < |Filter(keep, s)|
    ensures keep(Filter(keep, s)[i])
  {
    if keep(s[0]) {
      if i > 0 {
        FilterKeeps(keep, s[1..], i - 1);
      }
    } else {
      FilterKeeps(keep, s[1..], i);
    }
  }

  lemma {:induction false} FilterAll<T>(keep: T -> bool, s: seq<T>, all: bool)
    requires forall x | x in s :: keep(x) == all
    ensures Filter(keep, s) == if all then s else []
  {
    if s != [] {
      FilterAll(keep, s[1..], all);
    }
  }

  lemma {:induction false} FilterCount<T>(keep: T -> bool, s: seq<T>, x: T)
    ensures multiset(Filter(keep, s))[x] == if keep(x) then multiset(s)[x] else 0
  {
    if s != [] {
      FilterCount(keep, s[1..], x);
      assert s == [s[0]] + s[1..];
    }
  }

  // ---- decimal numbers -------------------------------------------------------------------------

  function Digit(n: nat): (c: char)
    requires n < 10
    ensures '0' <= c <= '9'
  {
    "0123456789"[n]
  }

  predicate AllDigits(s: string) {
    forall i | 0 <= i < |s| :: '0' <= s[i] <= '9'
  }

  /** n in decimal, without leading zeros. */
  function Decimal(n: nat): (s: string)
    ensures s != "" && AllDigits(s)
  {
    if n < 10 then [Digit(n)] else Decimal(n / 10) + [Digit(n % 10)]
  }

  /** The number a run of digits denotes. */
  function Number(s: string): nat
    requires AllDigits(s)
  {
    if s == "" then 0 else 10 * Number(s[..|s| - 1]) + (s[|s| - 1] as int - '0' as int)
  }

  lemma {:induction false} NumberOfDecimal(n: nat)
    ensures Number(Decimal(n)) == n
  {
    if n < 10 {
      assert [Digit(n)][..0] == "";
    } else {
      NumberOfDecimal(n / 10);
      assert (Decimal(n / 10) + [Digit(n % 10)])[..|Decimal(n / 10)|] == Decimal(n / 10);
    }
  }

  lemma {:induction false} NumberPositive(s: string)
    requires AllDigits(s) && s != "" && s[0] != '0'
    ensures Number(s) > 0
  {
    if |s| > 1 {
      NumberPositive(s[..|s| - 1]);
    }
  }

  lemma DigitOfChar(c: char)
    requires '0' <= c <= '9'
    ensures Digit(c as int - '0' as int) == c
  {
    assert "0123456789"[c as int - '0' as int] == c;
  }

  lemma DecimalGrows(n: nat, d: nat)
    requires n > 0 && d < 10
    ensures Decimal(10 * n + d) == Decimal(n) + [Digit(d)]
  {
    assert (10 * n + d) / 10 == n && (10 * n + d) % 10 == d;
  }

  lemma NumberSnoc(front: string, last: char)
    requires AllDigits(front) && '0' <= last <= '9'
    ensures AllDigits(front + [last]) && Number(front + [last]) == 10 * Number(front) + (last as int - '0' as int)
  {
    assert (front + [last])[..|front|] == front;
  }

  lemma DecimalSnoc(front: string, last: char)
    requires AllDigits(front) && '0' <= last <= '9' && Number(front) > 0 && Decimal(Number(front)) == front
    ensures AllDigits(front + [last]) && Decimal(Number(front + [last])) == front + [last]
  {
    NumberSnoc(front, last);
    DigitOfChar(last);
    DecimalGrows(Number(front), last as int - '0' as int);
  }

  lemma DecimalOfDigit(last: char)
    requires '0' <= last <= '9'
    ensures Number([last]) == last as int - '0' as int && Decimal(Number([last])) == [last]
  {
    DigitOfChar(last);
    assert [last][..0] == "";
  }

  /** Without leading zeros, digits are the decimal of their number. */
  lemma {:induction false} DecimalOfNumber(s: string)
    requires AllDigits(s) && s != "" && (|s| > 1 ==> s[0] != '0')
    ensures Decimal(Number(s)) == s
  {
    var front, last := s[..|s| - 1], s[|s| - 1];
    assert s == front + [last];
    if |s| == 1 {
      assert s == [last];
      DecimalOfDigit(last);
    } else {
      DecimalOfNumber(front);
      NumberPositive(front);
      DecimalSnoc(front, last);
    }
  }

  // ---- strconv's 64-bit integers ---------------------------------------------------------------

  const TWO63 := 0x8000_0000_0000_0000
  const TWO64 := 0x1_0000_0000_0000_0000

  /** strconv.ParseInt of s in base 10 at 64 bits: an optional sign, digits, no overflow. */
  function ParseInt(s: string): (r: Option<int>)
    ensures r.Some? ==> -TWO63 <= r.value < TWO63
  {
    var digits := if s != "" && (s[0] == '-' || s[0] == '+') then s[1..] else s;
    if digits == "" || !AllDigits(digits) then None
    else
      var i: int := if s[0] == '-' then 0 - Number(digits) else Number(digits);
      if -TWO63 <= i < TWO63 then Some(i) else None
  }

  /** strconv.ParseUint of s in base 10 at 64 bits. */
  function ParseUint(s: string): (r: Option<int>)
    ensures r.Some? ==> 0 <= r.value < TWO64
  {
    if s == "" || !AllDigits(s) || Number(s) >= TWO64 then None else Some(Number(s))
  }

  /** Digits, with leading zeros or without, and at most one sign before them: their number if it fits. */
  lemma ParseIntSigned(digits: string)
    requires digits != "" && AllDigits(digits)
    ensures var n := Number(digits);
      && ParseInt(digits) == ParseInt("+" + digits) == (if n < TWO63 then Some(n) else None)
      && ParseInt("-" + digits) == if n <= TWO63 then Some(0 - n) else None
  {
    assert '0' <= digits[0] <= '9';
    assert ("+" + digits)[1..] == digits && ("-" + digits)[1..] == digits;
  }

  /** Anything else is no number. */
  lemma ParseIntElse(s: string)
    requires s == "" || !AllDigits(if s[0] == '+' || s[0] == '-' then s[1..] else s) || s == "+" || s == "-"
    ensures ParseInt(s).None?
  {
  }

  lemma ParseIntDecimal(n: nat)
    ensures ParseInt(Decimal(n)) == if n < TWO63 then Some(n) else None
  {
    NumberOfDecimal(n);
    assert '0' <= Decimal(n)[0] <= '9';
  }

  lemma ParseIntNegative(n: nat)
    ensures ParseInt("-" + Decimal(n)) == if n <= TWO63 then Some(0 - n) else None
  {
    NumberOfDecimal(n);
    assert ("-" + Decimal(n))[1..] == Decimal(n);
  }

  lemma ParseUintDecimal(n: nat)
    ensures ParseUint(Decimal(n)) == if n < TWO64 then Some(n) else None
  {
    NumberOfDecimal(n);
  }
}
