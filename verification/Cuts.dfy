/** Cutting listings to their first k elements, and merging what two cuts keep. */
module Cuts {
  import opened Sorting

  function Cut<T>(r: seq<T>, k: nat): seq<T> {
    if |r| > k then r[..k] else r
  }

  ghost function Before<T(!new)>(s: set<T>, less: (T, T) -> bool, x: T): set<T> {
    set y | y in s && less(y, x)
  }

  /** The elements that fewer than k others come before. */
  ghost function FirstOf<T(!new)>(s: set<T>, less: (T, T) -> bool, k: nat): set<T> {
    set x | x in s && |Before(s, less, x)| < k
  }

  /** In a listing, the position of an element is the number of those before it. */
  lemma Position<T(!new)>(r: seq<T>, s: set<T>, less: (T, T) -> bool, i: nat)
    requires Lists(r, s, less) && StrictOrderOn(less, s) && i < |r|
    ensures |Before(s, less, r[i])| == i
  {
    ListsDistinct(r, s, less);
    forall q | i < q < |r| ensures !less(r[q], r[i]) { assert less(r[i], r[q]) && r[i] in r && r[q] in r; }
    forall y ensures y in Before(s, less, r[i]) <==> y in Elements(r[..i]) {
      if y in Before(s, less, r[i]) {
        var j :| 0 <= j < |r| && r[j] == y;
        assert r[i] in r;
        assert r[..i][j] == y;
      }
      if y in r[..i] {
        var j :| 0 <= j < i && r[..i][j] == y;
        assert r[j] == y && r[j] in r;
      }
    }
    assert Before(s, less, r[i]) == Elements(r[..i]);
    DistinctCount(r[..i]);
  }

  lemma {:induction false} DistinctCount<T>(r: seq<T>)
    requires forall i, j :: 0 <= i < j < |r| ==> r[i] != r[j]
    ensures |Elements(r)| == |r|
  {
    if r != [] {
      DistinctCount(r[1..]);
      assert Elements(r) == Elements(r[1..]) + {r[0]};
      assert r[0] !in r[1..];
    }
  }

  /** A cut listing lists the elements that come first. */
  lemma CutLists<T(!new)>(r: seq<T>, s: set<T>, less: (T, T) -> bool, k: nat)
    requires Lists(r, s, less) && StrictOrderOn(less, s)
    ensures Lists(Cut(r, k), FirstOf(s, less, k), less)
    ensures |FirstOf(s, less, k)| == |Cut(r, k)|
  {
    var c := Cut(r, k);
    forall x ensures x in c <==> x in FirstOf(s, less, k) {
      if x in c {
        var i :| 0 <= i < |c| && c[i] == x;
        assert r[i] == x && r[i] in r;
        Position(r, s, less, i);
      }
      if x in FirstOf(s, less, k) {
        var i :| 0 <= i < |r| && r[i] == x;
        Position(r, s, less, i);
        assert c[i] == x;
      }
    }
    forall i, j | 0 <= i < j < |c| ensures less(c[i], c[j]) { assert less(r[i], r[j]); }
    ListsDistinct(r, s, less);
    DistinctCount(c);
    assert Elements(c) == FirstOf(s, less, k);
  }

  /** Cutting two sets to k before they are merged loses nothing of the first k. */
  lemma FirstOfUnion<T(!new)>(a: set<T>, b: set<T>, less: (T, T) -> bool, k: nat)
    requires StrictOrderOn(less, a + b)
    ensures FirstOf(FirstOf(a, less, k) + FirstOf(b, less, k), less, k) == FirstOf(a + b, less, k)
  {
    var u, m := a + b, FirstOf(a, less, k) + FirstOf(b, less, k);
    forall x | x in FirstOf(u, less, k) ensures x in FirstOf(m, less, k) {
      SubsetSize(Before(a, less, x), Before(u, less, x));
      SubsetSize(Before(b, less, x), Before(u, less, x));
      SubsetSize(Before(m, less, x), Before(u, less, x));
    }
    forall x | x in FirstOf(m, less, k) ensures x in FirstOf(u, less, k) {
      if x !in FirstOf(u, less, k) { Crowded(u, m, less, k, x); }
    }
  }

  /** If x is not among the first k of u, then they all come before it. */
  lemma Crowded<T(!new)>(u: set<T>, m: set<T>, less: (T, T) -> bool, k: nat, x: T)
    requires StrictOrderOn(less, u) && m <= u && FirstOf(u, less, k) <= m
    requires x in u && x !in FirstOf(u, less, k)
    ensures |Before(m, less, x)| >= k
  {
    var first := FirstOf(u, less, k);
    forall y | y in first ensures y in Before(m, less, x) {
      if less(x, y) {
        assert Before(u, less, x) <= Before(u, less, y);
        SubsetSize(Before(u, less, x), Before(u, less, y));
      }
    }
    SubsetSize(first, Before(m, less, x));
    var r := Enumerate(u, less);
    CutLists(r, u, less, k);
    ListsLength(r, u, less);
    SubsetSize(Before(u, less, x), u);
  }

  lemma CutOfUnion<T(!new)>(a: set<T>, b: set<T>, less: (T, T) -> bool, k: nat, merged: seq<T>, all: seq<T>)
    requires StrictOrderOn(less, a + b) && Lists(all, a + b, less)
    requires Lists(merged, FirstOf(a, less, k) + FirstOf(b, less, k), less)
    ensures Cut(merged, k) == Cut(all, k)
  {
    var m := FirstOf(a, less, k) + FirstOf(b, less, k);
    CutLists(merged, m, less, k);
    CutLists(all, a + b, less, k);
    FirstOfUnion(a, b, less, k);
    ListsUnique(Cut(merged, k), Cut(all, k), FirstOf(a + b, less, k), less);
  }
}
