/** Python's `sorted`: a stable insertion sort under a total preorder, and the fact the
    compiler's determinism rests on: a list without ties has only one sorted arrangement. */
module Sorting {

  /** Code-point order on strings, the order `sorted` uses for node and edge ids. */
  predicate TextLeq(a: string, b: string) {
    a == "" || (b != "" && (a[0] < b[0] || (a[0] == b[0] && TextLeq(a[1..], b[1..]))))
  }

  lemma {:induction false} TextTotal(a: string, b: string)
    ensures TextLeq(a, b) || TextLeq(b, a)
  {
    if a != "" && b != "" && a[0] == b[0] { TextTotal(a[1..], b[1..]); }
  }

  lemma {:induction false} TextAntisymmetric(a: string, b: string)
    requires TextLeq(a, b) && TextLeq(b, a)
    ensures a == b
  {
    if a != "" {
      TextAntisymmetric(a[1..], b[1..]);
      assert a == [a[0]] + a[1..] && b == [b[0]] + b[1..];
    }
  }

  lemma {:induction false} TextTransitive(a: string, b: string, c: string)
    requires TextLeq(a, b) && TextLeq(b, c)
    ensures TextLeq(a, c)
  {
    if a != "" && a[0] == b[0] && b[0] == c[0] { TextTransitive(a[1..], b[1..], c[1..]); }
  }

  ghost predicate Preorder<T(!new)>(leq: (T, T) -> bool) {
    && (forall a, b :: leq(a, b) || leq(b, a))
    && (forall a, b, c :: leq(a, b) && leq(b, c) ==> leq(a, c))
  }

  lemma TextPreorder()
    ensures Preorder(TextLeq)
  {
    forall a, b ensures TextLeq(a, b) || TextLeq(b, a) { TextTotal(a, b); }
    forall a, b, c | TextLeq(a, b) && TextLeq(b, c) ensures TextLeq(a, c) { TextTransitive(a, b, c); }
  }

  ghost predicate Sorted<T>(leq: (T, T) -> bool, s: seq<T>) {
    forall i, j :: 0 <= i < j < |s| ==> leq(s[i], s[j])
  }

  ghost predicate NoTies<T>(leq: (T, T) -> bool, s: seq<T>) {
    forall a, b :: a in s && b in s && leq(a, b) && leq(b, a) ==> a == b
  }

  function Insert<T>(leq: (T, T) -> bool, x: T, s: seq<T>): seq<T> {
    if s == [] then [x]
    else if leq(x, s[0]) then [x] + s
    else [s[0]] + Insert(leq, x, s[1..])
  }

  function Sort<T>(leq: (T, T) -> bool, s: seq<T>): seq<T> {
    if s == [] then [] else Insert(leq, s[0], Sort(leq, s[1..]))
  }

  lemma {:induction false} InsertMembers<T>(leq: (T, T) -> bool, x: T, s: seq<T>)
    ensures forall y :: y in Insert(leq, x, s) <==> y == x || y in s
  {
    if s != [] {
      assert s == [s[0]] + s[1..];
      InsertMembers(leq, x, s[1..]);
    }
  }

  lemma {:induction false} InsertIsSorted<T(!new)>(leq: (T, T) -> bool, x: T, s: seq<T>)
    requires Preorder(leq) && Sorted(leq, s)
    ensures multiset(Insert(leq, x, s)) == multiset{x} + multiset(s)
    ensures Sorted(leq, Insert(leq, x, s))
  {
    if s != [] {
      assert s == [s[0]] + s[1..];
      if !leq(x, s[0]) {
        InsertIsSorted(leq, x, s[1..]);
        InsertMembers(leq, x, s[1..]);
        SortedAfter(leq, s[0], Insert(leq, x, s[1..]));
      }
    }
  }

  lemma SortedAfter<T(!new)>(leq: (T, T) -> bool, x: T, s: seq<T>)
    requires Sorted(leq, s) && forall y :: y in s ==> leq(x, y)
    ensures Sorted(leq, [x] + s)
  {
  }

  /** `sorted` rearranges its argument and puts it in order. */
  lemma {:induction false} SortIsSorted<T(!new)>(leq: (T, T) -> bool, s: seq<T>)
    requires Preorder(leq)
    ensures multiset(Sort(leq, s)) == multiset(s)
    ensures Sorted(leq, Sort(leq, s))
    ensures |Sort(leq, s)| == |s|
    ensures forall x :: x in Sort(leq, s) <==> x in s
  {
    if s != [] {
      SortIsSorted(leq, s[1..]);
      InsertIsSorted(leq, s[0], Sort(leq, s[1..]));
      assert s == [s[0]] + s[1..];
    }
    var r := Sort(leq, s);
    assert multiset(r) == multiset(s);
    assert |r| == |multiset(r)| == |multiset(s)| == |s|;
    forall x ensures x in r <==> x in s {
      assert x in r <==> x in multiset(r);
      assert x in s <==> x in multiset(s);
    }
  }

  lemma WithoutFirst<T>(s: seq<T>)
    requires s != []
    ensures s == [s[0]] + s[1..] && multiset(s[1..]) == multiset(s) - multiset{s[0]}
    ensures forall x :: x in s[1..] ==> x in s
  {
    assert s == [s[0]] + s[1..];
  }

  lemma SameFirst<T(!new)>(leq: (T, T) -> bool, a: seq<T>, b: seq<T>)
    requires multiset(a) == multiset(b) && Sorted(leq, a) && Sorted(leq, b) && NoTies(leq, a) && Preorder(leq) && a != []
    ensures b != [] && a[0] == b[0]
  {
    assert a[0] in multiset(a) && a[0] in multiset(b);
    assert b[0] in multiset(b) && b[0] in multiset(a);
    assert a[0] in b && b[0] in a;
    assert leq(a[0], b[0]) && leq(b[0], a[0]);
  }

  lemma {:induction false} SortedArrangementUnique<T(!new)>(leq: (T, T) -> bool, a: seq<T>, b: seq<T>)
    requires multiset(a) == multiset(b) && Sorted(leq, a) && Sorted(leq, b) && NoTies(leq, a)
    requires Preorder(leq)
    ensures a == b
  {
    if a == [] {
      assert |multiset(b)| == 0;
    } else {
      assert a[0] in multiset(b);
      SameFirst(leq, a, b);
      WithoutFirst(a);
      WithoutFirst(b);
      SortedArrangementUnique(leq, a[1..], b[1..]);
    }
  }

  /** Sorting without ties forgets the order of the input. */
  lemma SortForgetsOrder<T(!new)>(leq: (T, T) -> bool, a: seq<T>, b: seq<T>)
    requires Preorder(leq) && multiset(a) == multiset(b) && NoTies(leq, a)
    ensures Sort(leq, a) == Sort(leq, b)
  {
    SortIsSorted(leq, a);
    SortIsSorted(leq, b);
    SortedArrangementUnique(leq, Sort(leq, a), Sort(leq, b));
  }

  /** The comprehension `[x for x in s if p(x)]`. */
  function Filter<T>(p: T -> bool, s: seq<T>): seq<T> {
    if s == [] then [] else (if p(s[0]) then [s[0]] else []) + Filter(p, s[1..])
  }

  lemma {:induction false} FilterMembers<T>(p: T -> bool, s: seq<T>)
    ensures forall x :: x in Filter(p, s) <==> x in s && p(x)
    ensures |Filter(p, s)| <= |s|
  {
    if s != [] {
      FilterMembers(p, s[1..]);
      assert s == [s[0]] + s[1..];
    }
  }

  lemma {:induction false} FilterAppend<T>(p: T -> bool, a: seq<T>, b: seq<T>)
    ensures Filter(p, a + b) == Filter(p, a) + Filter(p, b)
  {
    if a == [] {
      assert a + b == b;
    } else {
      FilterAppend(p, a[1..], b);
      var head := if p(a[0]) then [a[0]] else [];
      assert (a + b)[1..] == a[1..] + b && (a + b)[0] == a[0];
      assert Filter(p, a + b) == head + (Filter(p, a[1..]) + Filter(p, b));
      assert head + (Filter(p, a[1..]) + Filter(p, b)) == (head + Filter(p, a[1..])) + Filter(p, b);
    }
  }

  lemma {:induction false} FilterKeeps<T>(p: T -> bool, s: seq<T>)
    requires forall x :: x in s ==> p(x)
    ensures Filter(p, s) == s
  {
    if s != [] {
      assert s == [s[0]] + s[1..];
      FilterKeeps(p, s[1..]);
    }
  }

  lemma {:induction false} FilterNone<T>(p: T -> bool, s: seq<T>)
    requires forall x :: x in s ==> !p(x)
    ensures Filter(p, s) == []
  {
    if s != [] { FilterNone(p, s[1..]); }
  }

  lemma {:induction false} FilterMultiset<T>(p: T -> bool, s: seq<T>, x: T)
    ensures multiset(Filter(p, s))[x] == if p(x) then multiset(s)[x] else 0
  {
    if s != [] {
      FilterMultiset(p, s[1..], x);
      assert s == [s[0]] + s[1..];
    }
  }

  lemma MultisetExtensional<T>(a: multiset<T>, b: multiset<T>)
    requires forall x :: a[x] == b[x]
    ensures a == b
  {
  }

  lemma FilterPermutes<T>(p: T -> bool, a: seq<T>, b: seq<T>)
    requires multiset(a) == multiset(b)
    ensures multiset(Filter(p, a)) == multiset(Filter(p, b))
  {
    forall x ensures multiset(Filter(p, a))[x] == multiset(Filter(p, b))[x] {
      FilterMultiset(p, a, x);
      FilterMultiset(p, b, x);
    }
    MultisetExtensional(multiset(Filter(p, a)), multiset(Filter(p, b)));
  }

  predicate Distinct<T(==)>(s: seq<T>) {
    forall i, j :: 0 <= i < j < |s| ==> s[i] != s[j]
  }

  lemma DistinctAppend<T>(a: seq<T>, b: seq<T>)
    requires Distinct(a) && Distinct(b) && forall x :: x in b ==> x !in a
    ensures Distinct(a + b)
  {
    forall i, j | 0 <= i < j < |a + b| ensures (a + b)[i] != (a + b)[j] {
      if i < |a| && j >= |a| { assert (a + b)[j] in b && (a + b)[i] in a; }
    }
  }

  lemma {:induction false} FilterDistinct<T>(p: T -> bool, s: seq<T>)
    requires Distinct(s)
    ensures Distinct(Filter(p, s))
  {
    if s != [] {
      FilterDistinct(p, s[1..]);
      FilterMembers(p, s[1..]);
      var rest := Filter(p, s[1..]);
      if p(s[0]) {
        forall i | 0 <= i < |rest| ensures rest[i] != s[0] { assert rest[i] in rest; }
      }
    }
  }

  lemma {:induction false} DistinctCount<T>(s: seq<T>)
    requires Distinct(s)
    ensures |set x | x in s| == |s|
  {
    if s != [] {
      DistinctCount(s[1..]);
      assert (set x | x in s) == {s[0]} + (set x | x in s[1..]);
    }
  }

  lemma DistinctWithin<T>(s: seq<T>, bound: set<T>)
    requires Distinct(s) && forall x :: x in s ==> x in bound
    ensures |s| <= |bound|
    ensures |s| == |bound| ==> forall x :: x in bound ==> x in s
  {
    var members := set x | x in s;
    DistinctCount(s);
    assert members <= bound;
    Cardinality(members, bound);
  }

  lemma {:induction false} Cardinality<T>(a: set<T>, b: set<T>)
    requires a <= b
    ensures |a| <= |b|
    ensures |a| == |b| ==> a == b
  {
    assert b == a + (b - a);
    assert |b| == |a| + |b - a|;
  }

  /** In a list without repeats the members before and after a point do not mix. */
  lemma {:induction false} FilterSplitsAt<T>(p: T -> bool, s: seq<T>, k: nat)
    requires k < |s|
    ensures Filter(p, s[..k + 1]) == Filter(p, s[..k]) + (if p(s[k]) then [s[k]] else [])
  {
    assert s[..k + 1] == s[..k] + [s[k]];
    FilterAppend(p, s[..k], [s[k]]);
    assert Filter(p, [s[k]]) == (if p(s[k]) then [s[k]] else []) + Filter(p, [s[k]][1..]);
  }

  lemma SplitLast<T>(s: seq<T>)
    requires s != []
    ensures s == s[..|s| - 1] + [s[|s| - 1]]
  {
  }

  predicate IsLeast(s: set<string>, x: string) {
    x in s && forall y :: y in s ==> TextLeq(x, y)
  }

  lemma {:induction false} LeastExists(s: set<string>)
    requires s != {}
    ensures exists x :: IsLeast(s, x)
  {
    var x :| x in s;
    TextTotal(x, x);
    if s != {x} {
      LeastExists(s - {x});
      var y :| IsLeast(s - {x}, y);
      TextTotal(x, y);
      if TextLeq(x, y) {
        forall z | z in s ensures TextLeq(x, z) { if z != x { TextTransitive(x, y, z); } }
        assert IsLeast(s, x);
      } else {
        assert IsLeast(s, y);
      }
    } else {
      assert IsLeast(s, x);
    }
  }

  lemma LeastUnique(s: set<string>)
    ensures forall x, y :: IsLeast(s, x) && IsLeast(s, y) ==> x == y
  {
    forall x, y | IsLeast(s, x) && IsLeast(s, y) ensures x == y { TextAntisymmetric(x, y); }
  }

  /** `min` of a set of ids. */
  function Least(s: set<string>): (least: string)
    requires s != {}
    ensures IsLeast(s, least)
  {
    LeastUnique(s);
    LeastExists(s);
    var x :| x in s && IsLeast(s, x);
    x
  }

  /** A set of texts in code-point order. */
  function SortedKeys(s: set<string>): (keys: seq<string>)
    ensures forall x :: x in keys <==> x in s
    ensures |keys| == |s|
  {
    if s == {} then [] else [Least(s)] + SortedKeys(s - {Least(s)})
  }

  lemma TakeGrows<T>(s: seq<T>, i: nat)
    requires i < |s|
    ensures s[..i + 1] == s[..i] + [s[i]]
    ensures s[..|s|] == s
  {
  }

  lemma AppendAssociates<T>(a: seq<T>, b: seq<T>, c: seq<T>)
    ensures a + (b + c) == a + b + c
  {
  }
}
