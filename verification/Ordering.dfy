/** Python's `sorted` on the values the gates sort: total orders on names and on
    lists of names, and one insertion sort characterised by its result. */
module Ordering {

  ghost predicate Ranks<T(!new)>(leq: (T, T) -> bool) {
    && (forall x, y :: leq(x, y) || leq(y, x))
    && (forall x, y, z :: leq(x, y) && leq(y, z) ==> leq(x, z))
  }

  ghost predicate Total<T(!new)>(leq: (T, T) -> bool) {
    Ranks(leq) && forall x, y :: leq(x, y) && leq(y, x) ==> x == y
  }

  ghost predicate Ascending<T>(leq: (T, T) -> bool, xs: seq<T>) {
    forall i, j :: 0 <= i < j < |xs| ==> leq(xs[i], xs[j])
  }

  predicate Distinct<T(==)>(xs: seq<T>) {
    forall i, j :: 0 <= i < j < |xs| ==> xs[i] != xs[j]
  }

  function Elements<T>(xs: seq<T>): set<T> {
    set x | x in xs
  }

  /** Code-point order on names, as Python compares strings. */
  predicate NameLeq(a: string, b: string) {
    |a| == 0 || (|b| > 0 && (a[0] < b[0] || (a[0] == b[0] && NameLeq(a[1..], b[1..]))))
  }

  /** Lexicographic order on lists of names. */
  predicate NamesLeq(a: seq<string>, b: seq<string>) {
    |a| == 0 || (|b| > 0 && NameLeq(a[0], b[0]) && (a[0] != b[0] || NamesLeq(a[1..], b[1..])))
  }

  lemma {:induction false} NameLeqLaws(a: string, b: string, c: string)
    ensures NameLeq(a, b) || NameLeq(b, a)
    ensures NameLeq(a, b) && NameLeq(b, a) ==> a == b
    ensures NameLeq(a, b) && NameLeq(b, c) ==> NameLeq(a, c)
    decreases |a|
  {
    if |a| > 0 && |b| > 0 {
      NameLeqLaws(a[1..], b[1..], if |c| > 0 then c[1..] else c);
      assert a == [a[0]] + a[1..] && b == [b[0]] + b[1..];
    }
  }

  lemma NameLeqTotal()
    ensures Total(NameLeq)
  {
    forall a, b, c
      ensures NameLeq(a, b) || NameLeq(b, a)
      ensures NameLeq(a, b) && NameLeq(b, a) ==> a == b
      ensures NameLeq(a, b) && NameLeq(b, c) ==> NameLeq(a, c)
    {
      NameLeqLaws(a, b, c);
    }
  }

  lemma {:induction false} NamesLeqLaws(a: seq<string>, b: seq<string>, c: seq<string>)
    ensures NamesLeq(a, b) || NamesLeq(b, a)
    ensures NamesLeq(a, b) && NamesLeq(b, a) ==> a == b
    ensures NamesLeq(a, b) && NamesLeq(b, c) ==> NamesLeq(a, c)
    decreases |a|
  {
    if |a| > 0 && |b| > 0 {
      NamesLeqLaws(a[1..], b[1..], if |c| > 0 then c[1..] else c);
      assert a == [a[0]] + a[1..] && b == [b[0]] + b[1..];
      NameLeqLaws(a[0], b[0], if |c| > 0 then c[0] else "");
      if |c| > 0 {
        NameLeqLaws(b[0], c[0], a[0]);
      }
    }
  }

  lemma NamesLeqTotal()
    ensures Total(NamesLeq)
  {
    forall a, b, c
      ensures NamesLeq(a, b) || NamesLeq(b, a)
      ensures NamesLeq(a, b) && NamesLeq(b, a) ==> a == b
      ensures NamesLeq(a, b) && NamesLeq(b, c) ==> NamesLeq(a, c)
    {
      NamesLeqLaws(a, b, c);
    }
  }

  function Insert<T>(leq: (T, T) -> bool, x: T, xs: seq<T>): (r: seq<T>)
    ensures multiset(r) == multiset{x} + multiset(xs)
  {
    if |xs| == 0 then [x]
    else if leq(x, xs[0]) then [x] + xs
    else
      assert xs == [xs[0]] + xs[1..];
      [xs[0]] + Insert(leq, x, xs[1..])
  }

  function Sort<T>(leq: (T, T) -> bool, xs: seq<T>): (r: seq<T>)
    ensures multiset(r) == multiset(xs)
  {
    if |xs| == 0 then []
    else
      assert xs == [xs[0]] + xs[1..];
      Insert(leq, xs[0], Sort(leq, xs[1..]))
  }

  lemma SameMultisetSameMembers<T>(a: seq<T>, b: seq<T>)
    requires multiset(a) == multiset(b)
    ensures |a| == |b| && Elements(a) == Elements(b)
    ensures forall x :: x in a <==> x in b
  {
    assert |multiset(a)| == |a| && |multiset(b)| == |b|;
    assert forall x :: x in a <==> x in multiset(a);
    assert forall x :: x in b <==> x in multiset(b);
  }

  lemma {:induction false} InsertAscending<T(!new)>(leq: (T, T) -> bool, x: T, xs: seq<T>)
    requires Ranks(leq) && Ascending(leq, xs)
    ensures Ascending(leq, Insert(leq, x, xs))
  {
    if |xs| > 0 && !leq(x, xs[0]) {
      InsertAscending(leq, x, xs[1..]);
      var rest := Insert(leq, x, xs[1..]);
      forall y | y in rest ensures leq(xs[0], y) {
        assert y in multiset(rest);
        if y != x {
          assert y in xs[1..];
        }
      }
    }
  }

  /** `sorted(xs)`: an ascending rearrangement of `xs`. */
  lemma {:induction false} SortAscending<T(!new)>(leq: (T, T) -> bool, xs: seq<T>)
    requires Ranks(leq)
    ensures Ascending(leq, Sort(leq, xs))
    ensures |Sort(leq, xs)| == |xs| && Elements(Sort(leq, xs)) == Elements(xs)
  {
    if |xs| > 0 {
      SortAscending(leq, xs[1..]);
      InsertAscending(leq, xs[0], Sort(leq, xs[1..]));
    }
    SameMultisetSameMembers(Sort(leq, xs), xs);
  }

  /** A list equals its sorted rearrangement exactly when it is ascending. */
  lemma {:induction false} SortedIff<T(!new)>(leq: (T, T) -> bool, xs: seq<T>)
    requires Ranks(leq)
    ensures Sort(leq, xs) == xs <==> Ascending(leq, xs)
  {
    SortAscending(leq, xs);
    if Ascending(leq, xs) && |xs| > 0 {
      assert Ascending(leq, xs[1..]);
      SortedIff(leq, xs[1..]);
      assert |xs| > 1 ==> leq(xs[0], xs[1..][0]);
    }
  }

  /** One occurrence of each value: `set(xs)` as a list. */
  function Once<T(==, !new)>(xs: seq<T>): (r: seq<T>)
    ensures Distinct(r) && forall x :: x in r <==> x in xs
  {
    if |xs| == 0 then []
    else
      assert xs == [xs[0]] + xs[1..];
      if xs[0] in xs[1..] then Once(xs[1..]) else [xs[0]] + Once(xs[1..])
  }

  /** `sorted(set(xs))` */
  function SortedSet<T(==, !new)>(leq: (T, T) -> bool, xs: seq<T>): seq<T> {
    Sort(leq, Once(xs))
  }

  lemma SortedSetLaws<T(!new)>(leq: (T, T) -> bool, xs: seq<T>)
    requires Ranks(leq)
    ensures Ascending(leq, SortedSet(leq, xs)) && Distinct(SortedSet(leq, xs))
    ensures forall x :: x in SortedSet(leq, xs) <==> x in xs
  {
    SortAscending(leq, Once(xs));
    SortDistinct(leq, Once(xs));
    SameMultisetSameMembers(SortedSet(leq, xs), Once(xs));
  }

  /** A list equals `sorted(set(...))` of itself exactly when it is ascending and duplicate-free. */
  lemma SortedSetIff<T(!new)>(leq: (T, T) -> bool, xs: seq<T>)
    requires Total(leq)
    ensures SortedSet(leq, xs) == xs <==> Ascending(leq, xs) && Distinct(xs)
  {
    SortedSetLaws(leq, xs);
    if Ascending(leq, xs) && Distinct(xs) {
      assert Elements(SortedSet(leq, xs)) == Elements(xs);
      AscendingUnique(leq, SortedSet(leq, xs), xs);
    }
  }

  lemma DistinctByMultiset<T>(xs: seq<T>)
    ensures Distinct(xs) <==> forall x :: multiset(xs)[x] <= 1
  {
    if Distinct(xs) {
      forall x ensures multiset(xs)[x] <= 1 {
        DistinctCount(xs, x);
      }
    } else {
      var i, j :| 0 <= i < j < |xs| && xs[i] == xs[j];
      assert xs == xs[..i] + [xs[i]] + xs[i + 1..j] + [xs[j]] + xs[j + 1..];
      assert multiset(xs)[xs[i]] >= 2;
    }
  }

  lemma {:induction false} DistinctCount<T>(xs: seq<T>, x: T)
    requires Distinct(xs)
    ensures multiset(xs)[x] == if x in xs then 1 else 0
  {
    if |xs| > 0 {
      assert xs == [xs[0]] + xs[1..];
      DistinctCount(xs[1..], x);
    }
  }

  /** Sorting keeps a duplicate-free list duplicate-free. */
  lemma SortDistinct<T>(leq: (T, T) -> bool, xs: seq<T>)
    requires Distinct(xs)
    ensures Distinct(Sort(leq, xs))
  {
    DistinctByMultiset(xs);
    DistinctByMultiset(Sort(leq, xs));
  }

  lemma DistinctTail<T>(xs: seq<T>)
    requires |xs| > 0
    ensures Distinct(xs) <==> Distinct(xs[1..]) && xs[0] !in xs[1..]
  {
  }

  lemma {:induction false} DistinctCardinality<T>(xs: seq<T>)
    ensures Distinct(xs) <==> |Elements(xs)| == |xs|
    ensures |Elements(xs)| <= |xs|
  {
    if |xs| > 0 {
      DistinctTail(xs);
      DistinctCardinality(xs[1..]);
      assert xs == [xs[0]] + xs[1..];
      assert Elements(xs) == {xs[0]} + Elements(xs[1..]);
      assert xs[0] in xs[1..] <==> xs[0] in Elements(xs[1..]);
    }
  }

  /** Under a total order the ascending arrangement of a duplicate-free set of values is unique. */
  lemma {:induction false} AscendingUnique<T(!new)>(leq: (T, T) -> bool, a: seq<T>, b: seq<T>)
    requires Total(leq) && Ascending(leq, a) && Ascending(leq, b)
    requires Distinct(a) && Distinct(b) && Elements(a) == Elements(b)
    ensures a == b
  {
    DistinctCardinality(a);
    DistinctCardinality(b);
    if |a| > 0 {
      assert a[0] in Elements(b) && b[0] in Elements(a);
      assert a[0] == b[0];
      assert Elements(a[1..]) == Elements(a) - {a[0]};
      assert Elements(b[1..]) == Elements(b) - {b[0]};
      AscendingUnique(leq, a[1..], b[1..]);
      assert a == [a[0]] + a[1..] && b == [b[0]] + b[1..];
    }
  }

  /** `sorted(s)` for a set of names. */
  method SortNames(s: set<string>) returns (r: seq<string>)
    ensures Ascending(NameLeq, r) && Distinct(r) && Elements(r) == s
  {
    var rest := s;
    var names: seq<string> := [];
    while rest != {}
      invariant rest <= s && Elements(names) == s - rest && Distinct(names)
      decreases rest
    {
      var x :| x in rest;
      assert Elements(names + [x]) == Elements(names) + {x};
      names := names + [x];
      rest := rest - {x};
    }
    NameLeqTotal();
    SortAscending(NameLeq, names);
    SortDistinct(NameLeq, names);
    r := Sort(NameLeq, names);
  }
}
