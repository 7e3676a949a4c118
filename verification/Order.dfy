/** Three-way comparisons, the lexicographic order they induce on sequences, and sorting. */
module Order {

  /** A comparison whose sign is that of a total order: negative, zero, positive. */
  ghost predicate TotalOrder<T(!new)>(cmp: (T, T) -> int) {
    && (forall a, b :: cmp(a, b) == 0 <==> a == b)
    && (forall a, b :: cmp(a, b) < 0 <==> cmp(b, a) > 0)
    && (forall a, b, c :: cmp(a, b) <= 0 && cmp(b, c) <= 0 ==> cmp(a, c) <= 0)
  }

  lemma SameRank<T(!new)>(cmp: (T, T) -> int, a: T, b: T)
    requires TotalOrder(cmp) && cmp(a, b) <= 0 && cmp(b, a) <= 0
    ensures a == b
  {
  }

  lemma RankSelf<T(!new)>(cmp: (T, T) -> int, a: T)
    requires TotalOrder(cmp)
    ensures cmp(a, a) == 0
  {
  }

  /** Element by element, a proper prefix first. */
  function Lex<T>(cmp: (T, T) -> int, a: seq<T>, b: seq<T>): int {
    if a == [] || b == [] then |a| - |b|
    else if cmp(a[0], b[0]) != 0 then cmp(a[0], b[0])
    else Lex(cmp, a[1..], b[1..])
  }

  function CompareChars(a: char, b: char): int {
    a as int - b as int
  }

  function CompareStrings(a: string, b: string): int {
    Lex(CompareChars, a, b)
  }

  /** The strings agree up to `i`, and there the first one ends or has the smaller character. */
  predicate ComesFirst(a: string, b: string, i: nat) {
    i <= |a| && i < |b| && a[..i] == b[..i] && (i < |a| ==> a[i] < b[i])
  }

  /** Strings are compared by their first difference. */
  lemma {:induction false} StringsExactly(a: string, b: string)
    ensures CompareStrings(a, b) < 0 <==> exists i: nat :: ComesFirst(a, b, i)
  {
    if a == [] || b == [] || a[0] != b[0] {
      if CompareStrings(a, b) < 0 { assert ComesFirst(a, b, 0); }
      forall i: nat | ComesFirst(a, b, i) ensures CompareStrings(a, b) < 0 {
        if i > 0 { assert a[..i][0] == b[..i][0]; }
      }
    } else {
      StringsExactly(a[1..], b[1..]);
      forall i: nat | ComesFirst(a[1..], b[1..], i) ensures ComesFirst(a, b, i + 1) {
        assert a[..i + 1] == [a[0]] + a[1..][..i] && b[..i + 1] == [b[0]] + b[1..][..i];
      }
      forall i: nat | ComesFirst(a, b, i) ensures i > 0 && ComesFirst(a[1..], b[1..], i - 1) {
        assert a[1..][..i - 1] == a[..i][1..] && b[1..][..i - 1] == b[..i][1..];
      }
    }
  }

  /** Cycles, sort keys: sequences of strings. */
  function CompareLists(a: seq<string>, b: seq<string>): int {
    Lex(CompareStrings, a, b)
  }

  lemma {:induction false} LexZero<T(!new)>(cmp: (T, T) -> int, a: seq<T>, b: seq<T>)
    requires TotalOrder(cmp)
    ensures Lex(cmp, a, b) == 0 <==> a == b
  {
    if a == [] || b == [] {
    } else {
      LexZero(cmp, a[1..], b[1..]);
      assert a == [a[0]] + a[1..] && b == [b[0]] + b[1..];
    }
  }

  lemma {:induction false} LexFlip<T(!new)>(cmp: (T, T) -> int, a: seq<T>, b: seq<T>)
    requires TotalOrder(cmp)
    ensures Lex(cmp, a, b) < 0 <==> Lex(cmp, b, a) > 0
  {
    if a == [] || b == [] {
    } else {
      assert cmp(a[0], b[0]) < 0 <==> cmp(b[0], a[0]) > 0;
      assert cmp(b[0], a[0]) < 0 <==> cmp(a[0], b[0]) > 0;
      LexFlip(cmp, a[1..], b[1..]);
    }
  }

  lemma {:induction false} LexTrans<T(!new)>(cmp: (T, T) -> int, a: seq<T>, b: seq<T>, c: seq<T>)
    requires TotalOrder(cmp)
    requires Lex(cmp, a, b) <= 0 && Lex(cmp, b, c) <= 0
    ensures Lex(cmp, a, c) <= 0
  {
    if a == [] || b == [] || c == [] {
    } else {
      assert cmp(a[0], c[0]) <= 0;
      if cmp(a[0], b[0]) == 0 && cmp(b[0], c[0]) == 0 {
        LexTrans(cmp, a[1..], b[1..], c[1..]);
      }
    }
  }

  lemma LexTotal<T(!new)>(cmp: (T, T) -> int)
    requires TotalOrder(cmp)
    ensures TotalOrder((a: seq<T>, b: seq<T>) => Lex(cmp, a, b))
  {
    forall a: seq<T>, b: seq<T> ensures Lex(cmp, a, b) == 0 <==> a == b { LexZero(cmp, a, b); }
    forall a: seq<T>, b: seq<T> ensures Lex(cmp, a, b) < 0 <==> Lex(cmp, b, a) > 0 { LexFlip(cmp, a, b); }
    forall a: seq<T>, b: seq<T>, c: seq<T> | Lex(cmp, a, b) <= 0 && Lex(cmp, b, c) <= 0
      ensures Lex(cmp, a, c) <= 0
    {
      LexTrans(cmp, a, b, c);
    }
  }

  lemma StringsTotal()
    ensures TotalOrder(CompareStrings)
  {
    LexTotal(CompareChars);
    var f := (a: string, b: string) => Lex(CompareChars, a, b);
    assert TotalOrder(f);
    assert forall a, b :: CompareStrings(a, b) == f(a, b);
  }

  lemma ListsTotal()
    ensures TotalOrder(CompareLists)
  {
    StringsTotal();
    LexTotal(CompareStrings);
    var f := (a: seq<string>, b: seq<string>) => Lex(CompareStrings, a, b);
    assert TotalOrder(f);
    assert forall a, b :: CompareLists(a, b) == f(a, b);
  }

  ghost predicate Sorted<T>(cmp: (T, T) -> int, s: seq<T>) {
    forall i, j :: 0 <= i < j < |s| ==> cmp(s[i], s[j]) <= 0
  }

  ghost predicate Increasing<T>(cmp: (T, T) -> int, s: seq<T>) {
    forall i, j :: 0 <= i < j < |s| ==> cmp(s[i], s[j]) < 0
  }

  function Insert<T>(cmp: (T, T) -> int, x: T, s: seq<T>): (r: seq<T>)
    ensures multiset(r) == multiset{x} + multiset(s)
  {
    if s == [] then [x]
    else if cmp(x, s[0]) <= 0 then
      assert [x] + s == [x] + s; [x] + s
    else
      assert s == [s[0]] + s[1..];
      [s[0]] + Insert(cmp, x, s[1..])
  }

  /** Go's `sort` package: any algorithm gives this result when the comparison is a total order. */
  function Sort<T>(cmp: (T, T) -> int, s: seq<T>): (r: seq<T>)
    ensures multiset(r) == multiset(s)
  {
    if s == [] then [] else
      assert s == [s[0]] + s[1..];
      Insert(cmp, s[0], Sort(cmp, s[1..]))
  }

  /** A comparison that ranks: it may hold different elements for equal. */
  ghost predicate WeakOrder<T(!new)>(cmp: (T, T) -> int) {
    && (forall a, b :: cmp(a, b) < 0 <==> cmp(b, a) > 0)
    && (forall a, b, c :: cmp(a, b) <= 0 && cmp(b, c) <= 0 ==> cmp(a, c) <= 0)
  }

  lemma TotalIsWeak<T(!new)>(cmp: (T, T) -> int)
    requires TotalOrder(cmp)
    ensures WeakOrder(cmp)
  {
  }

  lemma RankFlip<T(!new)>(cmp: (T, T) -> int, a: T, b: T)
    requires WeakOrder(cmp)
    ensures cmp(a, b) < 0 <==> cmp(b, a) > 0
  {
  }

  lemma RankTrans<T(!new)>(cmp: (T, T) -> int, a: T, b: T, c: T)
    requires WeakOrder(cmp) && cmp(a, b) <= 0 && cmp(b, c) <= 0
    ensures cmp(a, c) <= 0
  {
  }

  lemma ConsSorted<T>(cmp: (T, T) -> int, head: T, s: seq<T>)
    requires Sorted(cmp, s) && forall j :: 0 <= j < |s| ==> cmp(head, s[j]) <= 0
    ensures Sorted(cmp, [head] + s)
  {
  }

  lemma {:induction false} InsertSorted<T(!new)>(cmp: (T, T) -> int, x: T, s: seq<T>)
    requires WeakOrder(cmp) && Sorted(cmp, s)
    ensures Sorted(cmp, Insert(cmp, x, s))
  {
    hide WeakOrder;
    if s == [] {
    } else if cmp(x, s[0]) <= 0 {
      forall j | 0 <= j < |s| ensures cmp(x, s[j]) <= 0 {
        if j > 0 { RankTrans(cmp, x, s[0], s[j]); }
      }
      ConsSorted(cmp, x, s);
    } else {
      InsertSorted(cmp, x, s[1..]);
      var r := Insert(cmp, x, s[1..]);
      RankFlip(cmp, s[0], x);
      forall j | 0 <= j < |r| ensures cmp(s[0], r[j]) <= 0 {
        assert r[j] in multiset(r);
        if r[j] != x {
          var k :| 0 <= k < |s[1..]| && s[1..][k] == r[j];
          assert s[k + 1] == r[j];
        }
      }
      ConsSorted(cmp, s[0], r);
    }
  }

  lemma {:induction false} SortRanks<T(!new)>(cmp: (T, T) -> int, s: seq<T>)
    requires WeakOrder(cmp)
    ensures Sorted(cmp, Sort(cmp, s))
  {
    if s == [] {
    } else {
      SortRanks(cmp, s[1..]);
      InsertSorted(cmp, s[0], Sort(cmp, s[1..]));
    }
  }

  lemma SortSorted<T(!new)>(cmp: (T, T) -> int, s: seq<T>)
    requires TotalOrder(cmp)
    ensures Sorted(cmp, Sort(cmp, s))
  {
    SortRanks(cmp, s);
  }

  /** A multiset has one sorted listing. */
  lemma SameTail<T>(s: seq<T>, t: seq<T>)
    requires s != [] && t != [] && s[0] == t[0] && multiset(s) == multiset(t)
    ensures multiset(s[1..]) == multiset(t[1..])
  {
    assert s == [s[0]] + s[1..] && t == [t[0]] + t[1..];
    assert multiset(s[1..]) == multiset(s) - multiset{s[0]};
    assert multiset(t[1..]) == multiset(t) - multiset{t[0]};
  }

  lemma {:induction false} SortedUnique<T(!new)>(cmp: (T, T) -> int, s: seq<T>, t: seq<T>)
    requires TotalOrder(cmp) && Sorted(cmp, s) && Sorted(cmp, t) && multiset(s) == multiset(t)
    ensures s == t
  {
    hide TotalOrder;
    assert |s| == |multiset(s)| == |multiset(t)| == |t|;
    if s == [] {
    } else {
      HeadLeast(cmp, s, t[0]) by { assert t[0] in multiset(t); }
      HeadLeast(cmp, t, s[0]) by { assert s[0] in multiset(s); }
      SameRank(cmp, s[0], t[0]);
      SameTail(s, t);
      assert s == [s[0]] + s[1..] && t == [t[0]] + t[1..];
      SortedUnique(cmp, s[1..], t[1..]);
    }
  }

  lemma HeadLeast<T(!new)>(cmp: (T, T) -> int, s: seq<T>, x: T)
    requires TotalOrder(cmp) && Sorted(cmp, s) && x in multiset(s)
    ensures s != [] && cmp(s[0], x) <= 0
  {
    hide TotalOrder;
    assert x in s;
    RankSelf(cmp, x);
  }

  /** Sorting forgets the order of its input. */
  lemma SortForgetsOrder<T(!new)>(cmp: (T, T) -> int, s: seq<T>, t: seq<T>)
    requires TotalOrder(cmp) && multiset(s) == multiset(t)
    ensures Sort(cmp, s) == Sort(cmp, t)
  {
    SortSorted(cmp, s);
    SortSorted(cmp, t);
    SortedUnique(cmp, Sort(cmp, s), Sort(cmp, t));
  }

  function Elements<T>(s: seq<T>): set<T> {
    set x | x in s
  }

  ghost predicate Distinct<T>(s: seq<T>) {
    forall i, j :: 0 <= i < j < |s| ==> s[i] != s[j]
  }

  /** A set has one increasing listing. */
  lemma {:induction false} IncreasingUnique<T(!new)>(cmp: (T, T) -> int, s: seq<T>, t: seq<T>)
    requires TotalOrder(cmp) && Increasing(cmp, s) && Increasing(cmp, t) && Elements(s) == Elements(t)
    ensures s == t
  {
    hide TotalOrder;
    IncreasingDistinct(cmp, s);
    IncreasingDistinct(cmp, t);
    DistinctMultiset(s);
    DistinctMultiset(t);
    SortedUnique(cmp, s, t);
  }

  lemma IncreasingDistinct<T(!new)>(cmp: (T, T) -> int, s: seq<T>)
    requires TotalOrder(cmp) && Increasing(cmp, s)
    ensures Distinct(s)
  {
    hide TotalOrder;
    forall i, j | 0 <= i < j < |s| ensures s[i] != s[j] { RankSelf(cmp, s[i]); }
  }

  lemma {:induction false} DistinctMultiset<T>(s: seq<T>)
    requires Distinct(s)
    ensures multiset(s) == multiset(Elements(s))
  {
    if s == [] {
    } else {
      DistinctMultiset(s[1..]);
      assert s == [s[0]] + s[1..];
      assert s[0] !in s[1..];
      assert Elements(s) == {s[0]} + Elements(s[1..]);
    }
  }

  lemma {:induction false} MultisetDistinct<T>(s: seq<T>)
    requires forall x :: multiset(s)[x] <= 1
    ensures Distinct(s)
  {
    if s == [] {
    } else {
      assert s == [s[0]] + s[1..];
      MultisetDistinct(s[1..]) by {
        forall x ensures multiset(s[1..])[x] <= 1 { assert multiset(s[1..])[x] <= multiset(s)[x]; }
      }
      assert multiset(s)[s[0]] == 1 + multiset(s[1..])[s[0]];
      assert s[0] !in multiset(s[1..]);
      forall i, j | 0 <= i < j < |s| ensures s[i] != s[j] {
        if i > 0 { assert s[1..][i - 1] != s[1..][j - 1]; } else { assert s[j] == s[1..][j - 1]; }
      }
    }
  }

  lemma SortElements<T>(cmp: (T, T) -> int, s: seq<T>)
    ensures Elements(Sort(cmp, s)) == Elements(s)
  {
    var r := Sort(cmp, s);
    forall x | x in r ensures x in s { assert x in multiset(r); }
    forall x | x in s ensures x in r { assert x in multiset(s); }
  }

  /** Sorting distinct elements lists them strictly increasing. */
  lemma SortedDistinctIncreasing<T(!new)>(cmp: (T, T) -> int, s: seq<T>)
    requires TotalOrder(cmp) && Distinct(s)
    ensures Increasing(cmp, Sort(cmp, s)) && Elements(Sort(cmp, s)) == Elements(s)
  {
    hide TotalOrder;
    var r := Sort(cmp, s);
    SortSorted(cmp, s);
    SortElements(cmp, s);
    DistinctMultiset(s);
    MultisetDistinct(r);
    forall i, j | 0 <= i < j < |r| ensures cmp(r[i], r[j]) < 0 {
      if cmp(r[i], r[j]) == 0 { EqualRank(cmp, r[i], r[j]); }
    }
  }

  lemma EqualRank<T(!new)>(cmp: (T, T) -> int, a: T, b: T)
    requires TotalOrder(cmp)
    ensures cmp(a, b) == 0 <==> a == b
  {
  }

  /** The elements of a set in lexical order. */
  ghost function Listing(s: set<string>): (r: seq<string>)
    ensures Increasing(CompareStrings, r) && Elements(r) == s
  {
    if s == {} then [] else
      var x :| x in s;
      ListingStep(s, x, Listing(s - {x}));
      Sort(CompareStrings, [x] + Listing(s - {x}))
  }

  lemma ListingStep(s: set<string>, x: string, rest: seq<string>)
    requires x in s && Increasing(CompareStrings, rest) && Elements(rest) == s - {x}
    ensures Increasing(CompareStrings, Sort(CompareStrings, [x] + rest))
    ensures Elements(Sort(CompareStrings, [x] + rest)) == s
  {
    StringsTotal();
    hide TotalOrder;
    IncreasingDistinct(CompareStrings, rest);
    assert x !in Elements(rest);
    SortedDistinctIncreasing(CompareStrings, [x] + rest);
    assert Elements([x] + rest) == {x} + Elements(rest);
  }

  /** A map's keys collected in whatever order they come, then sorted. */
  method SortedElements(nodes: set<string>) returns (r: seq<string>)
    ensures r == Listing(nodes)
  {
    r := [];
    var todo := nodes;
    while todo != {}
      invariant todo <= nodes && Distinct(r) && Elements(r) == nodes - todo
      decreases todo
    {
      var path :| path in todo;
      assert path !in Elements(r) && Elements(r + [path]) == Elements(r) + {path};
      r := r + [path];
      todo := todo - {path};
    }
    StringsTotal();
    SortedDistinctIncreasing(CompareStrings, r);
    r := Sort(CompareStrings, r);
    IncreasingUnique(CompareStrings, r, Listing(nodes));
  }
}
