/** The stable sort (`sort.SliceStable`) and why its result is unique. */
module Sorting {
  import opened Text

  ghost predicate Preorder<T(!new)>(le: (T, T) -> bool) {
    && (forall x, y :: le(x, y) || le(y, x))
    && (forall x, y, z :: le(x, y) && le(y, z) ==> le(x, z))
  }

  ghost predicate SortedBy<T>(s: seq<T>, le: (T, T) -> bool) {
    forall i, j :: 0 <= i < j < |s| ==> le(s[i], s[j])
  }

  function InsertBy<T>(s: seq<T>, x: T, le: (T, T) -> bool): seq<T> {
    if s == [] || le(s[|s|-1], x) then s + [x] else InsertBy(s[..|s|-1], x, le) + [s[|s|-1]]
  }

  function SortBy<T>(s: seq<T>, le: (T, T) -> bool): seq<T> {
    if s == [] then [] else InsertBy(SortBy(s[..|s|-1], le), s[|s|-1], le)
  }

  /** The elements of s that tie with x, in their order. */
  ghost function Ties<T>(s: seq<T>, x: T, le: (T, T) -> bool): seq<T> {
    if s == [] then []
    else
      var before, y := Ties(s[..|s|-1], x, le), s[|s|-1];
      if le(x, y) && le(y, x) then before + [y] else before
  }

  lemma TiesSnoc<T>(s: seq<T>, y: T, x: T, le: (T, T) -> bool)
    ensures Ties(s + [y], x, le) == if le(x, y) && le(y, x) then Ties(s, x, le) + [y] else Ties(s, x, le)
  {
    assert (s + [y])[..|s|] == s;
  }

  lemma {:induction false} TiesConcat<T>(a: seq<T>, b: seq<T>, x: T, le: (T, T) -> bool)
    ensures Ties(a + b, x, le) == Ties(a, x, le) + Ties(b, x, le)
  {
    if b == [] {
      assert a + b == a;
    } else {
      assert (a + b)[..|a + b|-1] == a + b[..|b|-1];
      TiesConcat(a, b[..|b|-1], x, le);
    }
  }

  lemma AppendSorts<T(!new)>(s: seq<T>, x: T, le: (T, T) -> bool)
    requires Preorder(le) && SortedBy(s, le) && (s != [] ==> le(s[|s|-1], x))
    ensures SortedBy(s + [x], le)
  {
    forall i | 0 <= i < |s| ensures le(s[i], x) {
      assert i < |s| - 1 ==> le(s[i], s[|s|-1]);
    }
  }

  lemma PreorderTotal<T(!new)>(le: (T, T) -> bool, x: T, y: T)
    requires Preorder(le)
    ensures le(x, y) || le(y, x)
  {
  }

  lemma {:induction false} InsertBySorts<T(!new)>(s: seq<T>, x: T, le: (T, T) -> bool)
    requires Preorder(le) && SortedBy(s, le)
    ensures SortedBy(InsertBy(s, x, le), le)
    ensures multiset(InsertBy(s, x, le)) == multiset(s) + multiset{x}
  {
    hide Preorder;
    if s == [] || le(s[|s|-1], x) {
      AppendSorts(s, x, le);
    } else {
      var n := |s| - 1;
      assert s == s[..n] + [s[n]];
      InsertBySorts(s[..n], x, le);
      var t := InsertBy(s[..n], x, le);
      PreorderTotal(le, x, s[n]);
      if t != [] {
        assert t[|t|-1] in multiset(t);
      }
      AppendSorts(t, s[n], le);
    }
  }

  lemma {:induction false} InsertByTies<T(!new)>(s: seq<T>, x: T, le: (T, T) -> bool, y: T)
    requires Preorder(le) && SortedBy(s, le)
    ensures Ties(InsertBy(s, x, le), y, le) == Ties(s + [x], y, le)
  {
    if s != [] && !le(s[|s|-1], x) {
      var n := |s| - 1;
      InsertByTies(s[..n], x, le, y);
      TiesSnoc(s[..n], x, y, le);
      TiesSnoc(InsertBy(s[..n], x, le), s[n], y, le);
      TiesSnoc(s, x, y, le);
    }
  }

  /** The sort arranges the same elements in order and never exchanges two that tie. */
  lemma {:induction false} SortBySorts<T(!new)>(s: seq<T>, le: (T, T) -> bool)
    requires Preorder(le)
    ensures SortedBy(SortBy(s, le), le)
    ensures multiset(SortBy(s, le)) == multiset(s)
    ensures forall x :: Ties(SortBy(s, le), x, le) == Ties(s, x, le)
  {
    if s != [] {
      var before, y := s[..|s|-1], s[|s|-1];
      assert s == before + [y];
      SortBySorts(before, le);
      InsertBySorts(SortBy(before, le), y, le);
      forall x ensures Ties(SortBy(s, le), x, le) == Ties(s, x, le) {
        InsertByTies(SortBy(before, le), y, le, x);
        TiesSnoc(SortBy(before, le), y, x, le);
        TiesSnoc(before, y, x, le);
      }
    }
  }

  lemma {:induction false} TiesMember<T>(s: seq<T>, x: T, le: (T, T) -> bool, y: T)
    ensures y in Ties(s, x, le) <==> y in s && le(x, y) && le(y, x)
  {
    if s != [] {
      assert s == s[..|s|-1] + [s[|s|-1]];
      TiesMember(s[..|s|-1], x, le, y);
    }
  }

  lemma LastsTie<T(!new)>(a: seq<T>, b: seq<T>, le: (T, T) -> bool)
    requires Preorder(le) && SortedBy(a, le) && a != []
    requires forall x :: Ties(a, x, le) == Ties(b, x, le)
    requires b != []
    ensures le(b[|b|-1], a[|a|-1])
  {
    var y := b[|b|-1];
    TiesMember(b, y, le, y);
    assert Ties(a, y, le) != [];
    var z := Ties(a, y, le)[0];
    TiesMember(a, y, le, z);
    var k :| 0 <= k < |a| && a[k] == z;
    assert k < |a| - 1 ==> le(a[k], a[|a|-1]);
  }

  lemma SnocEqual<T>(s: seq<T>, x: T, t: seq<T>, y: T)
    requires s + [x] == t + [y]
    ensures s == t && x == y
  {
    assert |s + [x]| == |t + [y]|;
    assert s == (s + [x])[..|s|] && t == (t + [y])[..|t|];
    assert x == (s + [x])[|s|] && y == (t + [y])[|t|];
  }

  /** Two arrangements in order with the same ties are the same arrangement. */
  lemma {:induction false} SortedTiesUnique<T(!new)>(a: seq<T>, b: seq<T>, le: (T, T) -> bool)
    requires Preorder(le) && SortedBy(a, le) && SortedBy(b, le)
    requires forall x :: Ties(a, x, le) == Ties(b, x, le)
    ensures a == b
  {
    hide Ties;
    if a == [] {
      if b != [] { TiesMember(b, b[0], le, b[0]); TiesMember(a, b[0], le, b[0]); }
    } else {
      TiesMember(a, a[0], le, a[0]);
      assert Ties(b, a[0], le) == Ties(a, a[0], le);
      if b == [] { TiesMember(b, a[0], le, a[0]); }
      var m, n := |a| - 1, |b| - 1;
      LastsTie(a, b, le);
      LastsTie(b, a, le);
      assert a == a[..m] + [a[m]] && b == b[..n] + [b[n]];
      assert a[m] == b[n] by {
        TiesSnoc(a[..m], a[m], a[m], le);
        TiesSnoc(b[..n], b[n], a[m], le);
        SnocEqual(Ties(a[..m], a[m], le), a[m], Ties(b[..n], a[m], le), b[n]);
      }
      forall x ensures Ties(a[..m], x, le) == Ties(b[..n], x, le) {
        TiesSnoc(a[..m], a[m], x, le);
        TiesSnoc(b[..n], b[n], x, le);
        if le(x, a[m]) && le(a[m], x) {
          SnocEqual(Ties(a[..m], x, le), a[m], Ties(b[..n], x, le), b[n]);
        }
      }
      SortedTiesUnique(a[..m], b[..n], le);
    }
  }

  // ----- orders in which only equals tie -----

  ghost predicate Antisymmetric<T(!new)>(le: (T, T) -> bool) {
    forall x, y :: le(x, y) && le(y, x) ==> x == y
  }

  ghost predicate OnlyEqualsTie<T>(s: seq<T>, le: (T, T) -> bool) {
    forall x, y :: x in s && y in s && le(x, y) && le(y, x) ==> x == y
  }

  lemma LastsEqual<T>(a: seq<T>, b: seq<T>, le: (T, T) -> bool)
    requires OnlyEqualsTie(a, le) && SortedBy(a, le) && SortedBy(b, le) && multiset(a) == multiset(b) && a != []
    ensures |a| == |b| && a[|a|-1] == b[|b|-1]
  {
    assert |a| == |multiset(a)| && |b| == |multiset(b)|;
    var n := |a| - 1;
    assert a[n] in multiset(b) && b[n] in multiset(a);
    var i :| 0 <= i <= n && b[i] == a[n];
    var j :| 0 <= j <= n && a[j] == b[n];
    assert i < n ==> le(b[i], b[n]);
    assert j < n ==> le(a[j], a[n]);
  }

  lemma PrefixKeepsOrder<T>(s: seq<T>, le: (T, T) -> bool)
    requires OnlyEqualsTie(s, le) && SortedBy(s, le) && s != []
    ensures OnlyEqualsTie(s[..|s|-1], le) && SortedBy(s[..|s|-1], le)
  {
    assert forall x :: x in s[..|s|-1] ==> x in s;
  }

  lemma PrefixMultiset<T>(s: seq<T>)
    requires s != []
    ensures multiset(s[..|s|-1]) == multiset(s) - multiset{s[|s|-1]}
    ensures s == s[..|s|-1] + [s[|s|-1]]
  {
    assert s == s[..|s|-1] + [s[|s|-1]];
  }

  /** When only equals tie among the elements, they alone determine their arrangement. */
  lemma {:induction false} SortedArrangementUnique<T>(a: seq<T>, b: seq<T>, le: (T, T) -> bool)
    requires OnlyEqualsTie(a, le) && OnlyEqualsTie(b, le)
    requires SortedBy(a, le) && SortedBy(b, le) && multiset(a) == multiset(b)
    ensures a == b
  {
    assert |a| == |multiset(a)| && |b| == |multiset(b)|;
    if a != [] {
      LastsEqual(a, b, le);
      PrefixKeepsOrder(a, le);
      PrefixKeepsOrder(b, le);
      PrefixMultiset(a);
      PrefixMultiset(b);
      hide OnlyEqualsTie, SortedBy;
      SortedArrangementUnique(a[..|a|-1], b[..|b|-1], le);
    }
  }

  predicate Distinct<T(==)>(s: seq<T>) {
    forall i, j :: 0 <= i < j < |s| ==> s[i] != s[j]
  }

  lemma {:induction false} DistinctCounts<T>(s: seq<T>)
    requires Distinct(s)
    ensures forall x :: multiset(s)[x] == if x in s then 1 else 0
  {
    if s != [] {
      var n := |s| - 1;
      assert s == s[..n] + [s[n]];
      DistinctCounts(s[..n]);
    }
  }

  lemma TakeOneOut<T>(s: seq<T>, j: nat)
    requires j < |s|
    ensures s == s[..j] + ([s[j]] + s[j+1..])
    ensures multiset(s[..j] + s[j+1..]) == multiset(s) - multiset{s[j]}
  {
    assert s == s[..j] + ([s[j]] + s[j+1..]);
  }

  /** The last element of one arrangement can be taken out of another as well. */
  lemma TakeLike<T>(a: seq<T>, b: seq<T>) returns (j: nat)
    requires multiset(a) == multiset(b) && a != []
    ensures j < |b| && b[j] == a[|a|-1] && multiset(a[..|a|-1]) == multiset(b[..j] + b[j+1..])
  {
    var n := |a| - 1;
    assert a[n] in multiset(a) && a[n] in b;
    j :| 0 <= j < |b| && b[j] == a[n];
    TakeOneOut(a, n);
    TakeOneOut(b, j);
    assert a[..n] + a[n+1..] == a[..n];
  }

  lemma SameMultisetDistinct<T>(a: seq<T>, b: seq<T>)
    requires Distinct(a) && multiset(a) == multiset(b)
    ensures Distinct(b)
  {
    DistinctCounts(a);
    forall i, j | 0 <= i < j < |b| ensures b[i] != b[j] {
      var x := b[i];
      assert b == b[..j] + b[j..];
      assert b[i] in b[..j] && b[j] in b[j..] by {
        assert b[..j][i] == b[i] && b[j..][0] == b[j];
      }
      assert multiset(b)[x] == multiset(b[..j])[x] + multiset(b[j..])[x];
      assert multiset(b[..j])[x] >= 1;
      assert multiset(a)[x] <= 1;
    }
  }

  lemma DistinctSameMultiset<T>(a: seq<T>, b: seq<T>)
    requires Distinct(a) && Distinct(b) && forall x :: x in a <==> x in b
    ensures multiset(a) == multiset(b)
  {
    DistinctCounts(a);
    DistinctCounts(b);
  }

  /** `sort.Strings`. */
  function SortTexts(texts: seq<string>): seq<string> {
    SortBy(texts, ByText())
  }

  function ByText(): (string, string) -> bool {
    (a, b) => Compare(a, b) <= 0
  }

  lemma TextOrder()
    ensures Preorder(ByText()) && Antisymmetric(ByText())
  {
    var le := ByText();
    forall x, y ensures le(x, y) || le(y, x) {
      CompareFlip(x, y);
    }
    forall x, y, z | le(x, y) && le(y, z) ensures le(x, z) {
      CompareTransitive(x, y, z);
    }
    forall x, y | le(x, y) && le(y, x) ensures x == y {
      CompareFlip(x, y);
      CompareEqual(x, y);
    }
  }

  /** Sorted texts tell exactly which texts were given, and how often each. */
  lemma SortTextsTells(a: seq<string>, b: seq<string>)
    ensures SortTexts(a) == SortTexts(b) <==> multiset(a) == multiset(b)
    ensures multiset(SortTexts(a)) == multiset(a) && |SortTexts(a)| == |a|
  {
    TextOrder();
    SortBySorts(a, ByText());
    SortBySorts(b, ByText());
    assert |SortTexts(a)| == |multiset(SortTexts(a))| && |a| == |multiset(a)|;
    if multiset(a) == multiset(b) {
      SortedArrangementUnique(SortTexts(a), SortTexts(b), ByText());
    }
  }

  // ----- the sorted keys of a map -----

  lemma LeastWithOneMore(rest: set<string>, k: string, x: string)
    requires k in rest && forall j :: j in rest ==> Compare(k, j) <= 0
    ensures exists least :: least in rest + {x} && forall j :: j in rest + {x} ==> Compare(least, j) <= 0
  {
    var least := if Compare(x, k) <= 0 then x else k;
    CompareFlip(x, k);
    CompareEqual(x, x);
    forall j | j in rest + {x} ensures Compare(least, j) <= 0 {
      if j != x && least == x {
        CompareTransitive(x, k, j);
      }
    }
  }

  lemma {:induction false} LeastExists(s: set<string>)
    requires s != {}
    ensures exists k :: k in s && forall j :: j in s ==> Compare(k, j) <= 0
  {
    hide Compare;
    var x :| x in s;
    CompareEqual(x, x);
    if s != {x} {
      var rest := s - {x};
      assert s == rest + {x};
      LeastExists(rest);
      var k :| k in rest && forall j :: j in rest ==> Compare(k, j) <= 0;
      LeastWithOneMore(rest, k, x);
    }
  }

  lemma LeastUnique(a: string, b: string)
    requires Compare(a, b) <= 0 && Compare(b, a) <= 0
    ensures a == b
  {
    CompareFlip(a, b);
    CompareEqual(a, b);
  }

  /** The keys of a map in sorted order, in whatever order the map lists them. */
  function SortedKeys(keys: set<string>): seq<string> {
    if keys == {} then []
    else
      LeastExists(keys);
      assert forall a, b :: a in keys && b in keys && Compare(a, b) <= 0 && Compare(b, a) <= 0 ==> a == b by {
        forall a, b | Compare(a, b) <= 0 && Compare(b, a) <= 0 ensures a == b { LeastUnique(a, b); }
      }
      var k :| k in keys && forall j :: j in keys ==> Compare(k, j) <= 0;
      [k] + SortedKeys(keys - {k})
  }

  lemma {:induction false} SortedKeysComplete(keys: set<string>)
    ensures forall k :: k in SortedKeys(keys) <==> k in keys
  {
    if keys != {} {
      var k := SortedKeys(keys)[0];
      SortedKeysComplete(keys - {k});
    }
  }

  lemma {:induction false} SortedKeysSorted(keys: set<string>)
    ensures SortedBy(SortedKeys(keys), ByText()) && Distinct(SortedKeys(keys))
  {
    if keys != {} {
      var s := SortedKeys(keys);
      var rest := SortedKeys(keys - {s[0]});
      SortedKeysSorted(keys - {s[0]});
      SortedKeysComplete(keys - {s[0]});
      assert s == [s[0]] + rest;
      forall i | 0 <= i < |rest| ensures rest[i] in keys - {s[0]} {
        assert rest[i] in rest;
      }
    }
  }
}
