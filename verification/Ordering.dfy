/** String order and sorting as used by sort.Strings: code points compared left to right. */
module Ordering {

  predicate Le(a: string, b: string) {
    a == [] || (b != [] && (a[0] < b[0] || (a[0] == b[0] && Le(a[1..], b[1..]))))
  }

  lemma LeTotal(a: string, b: string)
    ensures Le(a, b) || Le(b, a)
  {
  }

  lemma LeAntisymmetric(a: string, b: string)
    requires Le(a, b) && Le(b, a)
    ensures a == b
  {
    if a != [] {
      LeAntisymmetric(a[1..], b[1..]);
      assert a == [a[0]] + a[1..] && b == [b[0]] + b[1..];
    }
  }

  lemma LeTransitive(a: string, b: string, c: string)
    requires Le(a, b) && Le(b, c)
    ensures Le(a, c)
  {
    if a != [] && a[0] == b[0] == c[0] {
      LeTransitive(a[1..], b[1..], c[1..]);
    }
  }

  predicate Sorted(s: seq<string>) {
    forall i, j :: 0 <= i < j < |s| ==> Le(s[i], s[j])
  }

  predicate Distinct<T(==)>(s: seq<T>) {
    forall i, j :: 0 <= i < j < |s| ==> s[i] != s[j]
  }

  function Elements<T>(s: seq<T>): set<T> { set x | x in s }

  function Insert(x: string, s: seq<string>): (r: seq<string>)
    ensures multiset(r) == multiset(s) + multiset{x}
  {
    if s == [] then [x]
    else if Le(x, s[0]) then [x] + s
    else
      assert s == [s[0]] + s[1..];
      [s[0]] + Insert(x, s[1..])
  }

  lemma InsertSorted(x: string, s: seq<string>)
    requires Sorted(s)
    ensures Sorted(Insert(x, s))
  {
    if s != [] {
      if Le(x, s[0]) {
        forall j | 0 <= j < |s|
          ensures Le(x, s[j])
        {
          if j > 0 { LeTransitive(x, s[0], s[j]); }
        }
      } else {
        LeTotal(x, s[0]);
        InsertSorted(x, s[1..]);
        var r := Insert(x, s[1..]);
        forall y | y in r
          ensures Le(s[0], y)
        {
          assert y in multiset(r);
          assert y == x || y in s[1..];
        }
      }
    }
  }

  /** sort.Strings. */
  function Sort(s: seq<string>): (r: seq<string>)
    ensures multiset(r) == multiset(s) && Sorted(r)
  {
    if s == [] then []
    else
      assert s == [s[0]] + s[1..];
      InsertSorted(s[0], Sort(s[1..]));
      Insert(s[0], Sort(s[1..]))
  }

  lemma SameMultisetSameElements<T>(a: seq<T>, b: seq<T>)
    requires multiset(a) == multiset(b)
    ensures Elements(a) == Elements(b) && |a| == |b|
  {
    forall x
      ensures x in a <==> x in b
    {
      assert x in a <==> x in multiset(a);
      assert x in b <==> x in multiset(b);
    }
    assert |multiset(a)| == |a| && |multiset(b)| == |b|;
  }

  lemma DistinctCounts<T>(a: seq<T>)
    requires Distinct(a)
    ensures forall x :: x in a ==> multiset(a)[x] == 1
  {
    if a != [] {
      DistinctCounts(a[1..]);
      assert a == [a[0]] + a[1..];
    }
  }

  lemma RepeatsCountTwice<T>(a: seq<T>, i: nat, j: nat)
    requires i < j < |a|
    ensures a[i] == a[j] ==> multiset(a)[a[i]] >= 2
  {
    assert a == a[..j] + a[j..];
    assert a[i] in a[..j] && a[j] in a[j..];
    assert multiset(a[..j])[a[i]] >= 1 && multiset(a[j..])[a[j]] >= 1;
  }

  lemma CountsDistinct<T>(a: seq<T>)
    requires forall x :: x in a ==> multiset(a)[x] == 1
    ensures Distinct(a)
  {
    forall i, j | 0 <= i < j < |a|
      ensures a[i] != a[j]
    {
      assert a[i] in a;
      RepeatsCountTwice(a, i, j);
    }
  }

  lemma SortedHeadsAgree(a: seq<string>, b: seq<string>)
    requires Sorted(a) && Sorted(b) && a != [] && b != [] && Elements(a) == Elements(b)
    ensures a[0] == b[0]
  {
    assert a[0] in Elements(a) && b[0] in Elements(b);
    assert a[0] in b && b[0] in a;
    LeTotal(a[0], a[0]);
    LeTotal(b[0], b[0]);
    LeAntisymmetric(a[0], b[0]);
  }

  /** Two sorted arrangements of the same strings are the same sequence. */
  lemma SortedUnique(a: seq<string>, b: seq<string>)
    requires Sorted(a) && Sorted(b) && multiset(a) == multiset(b)
    ensures a == b
  {
    SameMultisetSameElements(a, b);
    if a != [] {
      SortedHeadsAgree(a, b);
      assert a == [a[0]] + a[1..] && b == [b[0]] + b[1..];
      assert multiset(a[1..]) == multiset(a) - multiset{a[0]};
      assert multiset(b[1..]) == multiset(b) - multiset{b[0]};
      SortedUnique(a[1..], b[1..]);
    }
  }

  lemma SortDistinct(s: seq<string>)
    requires Distinct(s)
    ensures Distinct(Sort(s)) && Elements(Sort(s)) == Elements(s)
  {
    SameMultisetSameElements(Sort(s), s);
    DistinctCounts(s);
    forall x | x in Sort(s)
      ensures multiset(Sort(s))[x] == 1
    {
      assert x in Elements(s);
    }
    CountsDistinct(Sort(s));
  }

  lemma DistinctSameElements<T>(a: seq<T>, b: seq<T>)
    requires Distinct(a) && Distinct(b) && Elements(a) == Elements(b)
    ensures multiset(a) == multiset(b)
  {
    DistinctCounts(a);
    DistinctCounts(b);
    forall x
      ensures multiset(a)[x] == multiset(b)[x]
    {
      assert x in a <==> x in Elements(a);
      assert x in b <==> x in Elements(b);
      assert x in a <==> x in multiset(a);
      assert x in b <==> x in multiset(b);
    }
  }

  lemma PrependedToSet(x: string, rest: seq<string>, names: set<string>)
    requires x in names && Distinct(rest) && Elements(rest) == names - {x}
    ensures Distinct([x] + rest) && Elements([x] + rest) == names
  {
    assert x !in Elements(rest);
    forall y
      ensures y in [x] + rest <==> y in names
    {
      assert y in rest <==> y in Elements(rest);
    }
  }

  lemma Appended<T>(s: seq<T>, x: T)
    ensures Elements(s + [x]) == Elements(s) + {x}
    ensures Distinct(s) && x !in Elements(s) ==> Distinct(s + [x])
  {
    forall y
      ensures y in Elements(s + [x]) <==> y in Elements(s) + {x}
    {
      assert y in s + [x] <==> y in s || y == x;
    }
    if Distinct(s) && x !in Elements(s) {
      assert forall i :: 0 <= i < |s| ==> s[i] in Elements(s);
    }
  }

  /** The sorted, duplicate-free listing of a set of names. */
  ghost function Listing(names: set<string>): (r: seq<string>)
    ensures Sorted(r) && Distinct(r) && Elements(r) == names
  {
    if names == {} then []
    else
      var x :| x in names;
      var rest := Listing(names - {x});
      PrependedToSet(x, rest, names);
      SortDistinct([x] + rest);
      Sort([x] + rest)
  }

  lemma ListingUnique(s: seq<string>)
    requires Sorted(s) && Distinct(s)
    ensures s == Listing(Elements(s))
  {
    DistinctSameElements(s, Listing(Elements(s)));
    SortedUnique(s, Listing(Elements(s)));
  }

  /** Collecting a set in any order and sorting it lists it. */
  lemma SortListing(s: seq<string>)
    requires Distinct(s)
    ensures Sort(s) == Listing(Elements(s))
  {
    SortDistinct(s);
    ListingUnique(Sort(s));
  }

  lemma ListingLength(names: set<string>)
    ensures |Listing(names)| == |names|
  {
    DistinctCount(Listing(names));
  }

  lemma DistinctCount<T>(s: seq<T>)
    requires Distinct(s)
    ensures |Elements(s)| == |s|
  {
    if s != [] {
      DistinctCount(s[1..]);
      assert s == [s[0]] + s[1..];
      assert Elements(s) == Elements(s[1..]) + {s[0]};
    }
  }

  /** Collecting a set in an arbitrary order and sorting it. */
  method SortedNames(names: set<string>) returns (r: seq<string>)
    ensures r == Listing(names)
  {
    r := [];
    var todo := names;
    ghost var seen: set<string> := {};
    while todo != {}
      invariant seen !! todo && seen + todo == names
      invariant Distinct(r) && Elements(r) == seen
      decreases |todo|
    {
      var name :| name in todo;
      Appended(r, name);
      r := r + [name];
      todo := todo - {name};
      seen := seen + {name};
    }
    SortListing(r);
    r := Sort(r);
  }

  /** The order compares code points: a text comes before its extensions, and otherwise the first
      difference decides. */
  lemma {:induction false} LeExactly(a: string, b: string)
    ensures Le(a, b) <==> a <= b || exists k :: 0 <= k < |a| && k < |b| && a[..k] == b[..k] && a[k] < b[k]
  {
    if a != [] && b != [] && a[0] == b[0] {
      var x, y := a[1..], b[1..];
      LeExactly(x, y);
      assert a <= b <==> x <= y by {
        assert a == [a[0]] + x && b == [b[0]] + y;
      }
      if k :| 0 <= k < |x| && k < |y| && x[..k] == y[..k] && x[k] < y[k] {
        assert a[..k + 1] == [a[0]] + x[..k] && b[..k + 1] == [b[0]] + y[..k] && a[k + 1] < b[k + 1];
      }
      if k :| 0 <= k < |a| && k < |b| && a[..k] == b[..k] && a[k] < b[k] {
        assert a[..k][1..] == x[..k - 1] && b[..k][1..] == y[..k - 1] && x[k - 1] < y[k - 1];
      }
    } else if a != [] && b != [] && a[0] < b[0] {
      assert a[..0] == b[..0];
    }
  }
}
