/** Strings in code-unit order, sorting, and the texts that name entities and join keys. */
module Ordering {

  /**
   * Where a character comes in the order of UTF-16 code units: surrogates, so all beyond U+FFFF, come before U+E000.
   */
  function Rank(c: char): nat {
    if 0xE000 <= c as int <= 0xFFFF then c as int + 0x11_0000 else c as int
  }

  /** `a` is not after `b` in code-unit order. */
  predicate NotAfter(a: string, b: string) {
    a == "" || (b != "" && (Rank(a[0]) < Rank(b[0]) || (a[0] == b[0] && NotAfter(a[1..], b[1..]))))
  }

  lemma {:induction false} NotAfterTotal(a: string, b: string)
    ensures NotAfter(a, b) || NotAfter(b, a)
    ensures NotAfter(a, b) && NotAfter(b, a) ==> a == b
  {
    if a != "" && b != "" && a[0] == b[0] {
      NotAfterTotal(a[1..], b[1..]);
      assert a == [a[0]] + a[1..] && b == [b[0]] + b[1..];
    }
  }

  lemma {:induction false} NotAfterTransitive(a: string, b: string, c: string)
    requires NotAfter(a, b) && NotAfter(b, c)
    ensures NotAfter(a, c)
  {
    if a != "" && a[0] == b[0] == c[0] {
      NotAfterTransitive(a[1..], b[1..], c[1..]);
    }
  }

  ghost predicate IsOrder<T(!new)>(first: (T, T) -> bool) {
    && (forall x, y :: first(x, y) || first(y, x))
    && (forall x, y, z :: first(x, y) && first(y, z) ==> first(x, z))
  }

  predicate IsSorted<T>(items: seq<T>, first: (T, T) -> bool) {
    forall i, j :: 0 <= i < j < |items| ==> first(items[i], items[j])
  }

  method Insert<T(!new)>(items: seq<T>, x: T, first: (T, T) -> bool) returns (sorted: seq<T>)
    requires IsOrder(first) && IsSorted(items, first)
    ensures IsSorted(sorted, first) && multiset(sorted) == multiset(items) + multiset{x}
  {
    var k := 0;
    while k < |items| && first(items[k], x)
      invariant k <= |items| && forall i :: 0 <= i < k ==> first(items[i], x)
    {
      k := k + 1;
    }
    sorted := items[..k] + [x] + items[k..];
    assert forall i :: k <= i < |items| ==> first(x, items[i]);
    assert items == items[..k] + items[k..];
  }

  method Sort<T(!new)>(items: seq<T>, first: (T, T) -> bool) returns (sorted: seq<T>)
    requires IsOrder(first)
    ensures IsSorted(sorted, first) && multiset(sorted) == multiset(items)
  {
    sorted := [];
    for i := 0 to |items|
      invariant IsSorted(sorted, first) && multiset(sorted) == multiset(items[..i])
    {
      sorted := Insert(sorted, items[i], first);
      assert items[..i + 1] == items[..i] + [items[i]];
    }
    assert items[..|items|] == items;
  }

  lemma SameElements<T>(a: seq<T>, b: seq<T>)
    requires multiset(a) == multiset(b)
    ensures |a| == |b| && forall x :: x in a <==> x in b
  {
    assert |multiset(a)| == |a| && |multiset(b)| == |b|;
    forall x ensures x in a <==> x in b {
      assert x in multiset(a) <==> x in a;
      assert x in multiset(b) <==> x in b;
    }
  }

  predicate Distinct<T(==)>(items: seq<T>) {
    forall i, j :: 0 <= i < j < |items| ==> items[i] != items[j]
  }

  method SortStrings(items: seq<string>) returns (sorted: seq<string>)
    ensures IsSorted(sorted, NotAfter) && multiset(sorted) == multiset(items)
  {
    StringOrder();
    sorted := Sort(items, NotAfter);
  }

  lemma StringOrder()
    ensures IsOrder(NotAfter)
  {
    forall x, y ensures NotAfter(x, y) || NotAfter(y, x) {
      NotAfterTotal(x, y);
    }
    forall x, y, z | NotAfter(x, y) && NotAfter(y, z) ensures NotAfter(x, z) {
      NotAfterTransitive(x, y, z);
    }
  }

  /** The elements of a set in code-unit order, each once. */
  method SortedSet(items: set<string>) returns (sorted: seq<string>)
    ensures IsSorted(sorted, NotAfter) && Distinct(sorted) && forall x :: x in sorted <==> x in items
  {
    var list: seq<string> := [];
    var todo := items;
    while todo != {}
      invariant todo <= items && Distinct(list) && forall x :: x in list <==> x in items - todo
    {
      var x :| x in todo;
      assert x !in list && forall i :: 0 <= i < |list| ==> list[i] in list;
      list := list + [x];
      todo := todo - {x};
    }
    sorted := SortStrings(list);
    SameElements(sorted, list);
    DistinctMultiset(list, sorted);
  }

  lemma DistinctMultiset<T>(a: seq<T>, b: seq<T>)
    requires multiset(a) == multiset(b) && Distinct(a)
    ensures Distinct(b)
  {
    DistinctCounts(a);
    forall i, j | 0 <= i < j < |b| ensures b[i] != b[j] {
      if b[i] == b[j] {
        TwiceCounts(b, i, j);
      }
    }
  }

  lemma TwiceCounts<T>(b: seq<T>, i: nat, j: nat)
    requires i < j < |b| && b[i] == b[j]
    ensures multiset(b)[b[i]] >= 2
  {
    assert b == b[..i] + [b[i]] + b[i + 1..j] + [b[j]] + b[j + 1..];
  }

  lemma {:induction false} DistinctCounts<T>(a: seq<T>)
    requires Distinct(a)
    ensures forall x :: multiset(a)[x] <= 1
  {
    if a != [] {
      var n := |a| - 1;
      DistinctCounts(a[..n]);
      assert a == a[..n] + [a[n]];
      assert a[n] !in a[..n];
    }
  }
}
