/** Listings: a set laid out as a sequence by a strict total order. This is what a
    bbolt cursor yields, and what Go's sort leaves when all elements differ. */
module Sorting {

  ghost predicate StrictOrderOn<T(!new)>(less: (T, T) -> bool, s: set<T>) {
    && (forall a :: a in s ==> !less(a, a))
    && (forall a, b :: a in s && b in s ==> a == b || less(a, b) || less(b, a))
    && (forall a, b, c :: a in s && b in s && c in s && less(a, b) && less(b, c) ==> less(a, c))
  }

  ghost predicate Sorted<T(!new)>(r: seq<T>, less: (T, T) -> bool) {
    forall i, j :: 0 <= i < j < |r| ==> less(r[i], r[j])
  }

  /** r holds exactly the elements of s, each once, in ascending order. */
  ghost predicate Lists<T(!new)>(r: seq<T>, s: set<T>, less: (T, T) -> bool) {
    && Sorted(r, less)
    && (forall x :: x in r <==> x in s)
  }

  lemma ListsDistinct<T(!new)>(r: seq<T>, s: set<T>, less: (T, T) -> bool)
    requires Lists(r, s, less) && StrictOrderOn(less, s)
    ensures forall i, j :: 0 <= i < j < |r| ==> r[i] != r[j]
  {
    forall i, j | 0 <= i < j < |r| ensures r[i] != r[j] { assert less(r[i], r[j]) && r[i] in r; }
  }

  lemma {:induction false} ListsLength<T(!new)>(r: seq<T>, s: set<T>, less: (T, T) -> bool)
    requires Lists(r, s, less) && StrictOrderOn(less, s)
    ensures |r| == |s|
  {
    if r == [] {
      assert s == {};
    } else {
      ListsTail(r, s, less);
      ListsLength(r[1..], s - {r[0]}, less);
    }
  }

  lemma ListsTail<T(!new)>(r: seq<T>, s: set<T>, less: (T, T) -> bool)
    requires r != [] && Lists(r, s, less) && StrictOrderOn(less, s)
    ensures r[0] in s && (forall x :: x in s ==> x == r[0] || less(r[0], x))
    ensures Lists(r[1..], s - {r[0]}, less) && StrictOrderOn(less, s - {r[0]})
  {
    ListsDistinct(r, s, less);
    assert r[0] in r;
    forall x | x in s ensures x == r[0] || less(r[0], x) {
      assert x in r;
    }
    forall x ensures x in r[1..] <==> x in s - {r[0]} {
      if x in r[1..] {
        var i :| 0 <= i < |r| - 1 && r[1..][i] == x;
        assert r[i + 1] == x && r[i + 1] in r;
      }
      if x in s - {r[0]} {
        var i :| 0 <= i < |r| && r[i] == x;
        assert r[1..][i - 1] == x;
      }
    }
    forall i, j | 0 <= i < j < |r[1..]| ensures less(r[1..][i], r[1..][j]) {
      assert less(r[i + 1], r[j + 1]);
    }
  }

  /** A set has one ascending listing, so no iteration order can show in it. */
  lemma {:induction false} ListsUnique<T(!new)>(a: seq<T>, b: seq<T>, s: set<T>, less: (T, T) -> bool)
    requires Lists(a, s, less) && Lists(b, s, less) && StrictOrderOn(less, s)
    ensures a == b
  {
    ListsLength(a, s, less);
    ListsLength(b, s, less);
    if a != [] {
      ListsTail(a, s, less);
      ListsTail(b, s, less);
      ListsUnique(a[1..], b[1..], s - {a[0]}, less);
      assert a == [a[0]] + a[1..] && b == [b[0]] + b[1..];
    }
  }

  ghost predicate IsLeast<T(!new)>(m: T, s: set<T>, less: (T, T) -> bool) {
    m in s && forall x :: x in s ==> x == m || less(m, x)
  }

  lemma {:induction false} LeastExists<T(!new)>(s: set<T>, less: (T, T) -> bool) returns (m: T)
    requires s != {} && StrictOrderOn(less, s)
    ensures IsLeast(m, s, less)
  {
    var y :| y in s;
    if s == {y} {
      m := y;
    } else {
      var r := LeastExists(s - {y}, less);
      m := if less(y, r) then y else r;
      forall x | x in s ensures x == m || less(m, x) {
        assert x == y || x in s - {y};
      }
    }
  }

  function Elements<T>(s: seq<T>): set<T> {
    set x | x in s
  }

  /** The ascending listing itself. */
  function Enumerate<T(!new)>(s: set<T>, less: (T, T) -> bool): (r: seq<T>)
    requires StrictOrderOn(less, s)
    ensures Lists(r, s, less)
    decreases |s|
  {
    if s == {} then []
    else
      assert exists m :: IsLeast(m, s, less) by { var m := LeastExists(s, less); }
      var m :| m in s && forall x :: x in s ==> x == m || less(m, x);
      var rest := Enumerate(s - {m}, less);
      assert forall i :: 0 <= i < |rest| ==> rest[i] in rest;
      [m] + rest
  }

  // ---- sorting in place ----

  /** No element is less than one before it. */
  ghost predicate Ordered<T(!new)>(r: seq<T>, less: (T, T) -> bool) {
    forall i, j :: 0 <= i < j < |r| ==> !less(r[j], r[i])
  }

  /** Ordered, but for the element at j, which may still be less than those before it. */
  ghost predicate Inserting<T(!new)>(r: seq<T>, j: nat, n: nat, less: (T, T) -> bool) {
    j < n <= |r| && forall p, q :: 0 <= p < q < n && q != j ==> !less(r[q], r[p])
  }

  lemma Exchange<T>(r: seq<T>, i: nat, j: nat)
    requires i < j < |r|
    ensures multiset(r[i := r[j]][j := r[i]]) == multiset(r)
  {
  }

  /** Sinks the elements one by one into the ordered part before them. */
  method InsertionSort<T(!new)>(list: array<T>, less: (T, T) -> bool)
    requires StrictOrderOn(less, Elements(list[..]))
    modifies list
    ensures Ordered(list[..], less) && multiset(list[..]) == multiset(old(list[..]))
  {
    var i := 1;
    while i < list.Length
      invariant 1 <= i && (list.Length <= i || Ordered(list[..i], less))
      invariant list.Length <= i ==> Ordered(list[..], less)
      invariant multiset(list[..]) == multiset(old(list[..]))
    {
      assert Inserting(list[..], i, i + 1, less) by {
        forall p, q | 0 <= p < q < i ensures !less(list[q], list[p]) { assert !less(list[..i][q], list[..i][p]); }
      }
      Sink(list, i, less, old(list[..]));
      i := i + 1;
    }
  }

  method SwapDown<T>(list: array<T>, j: nat)
    requires 0 < j < list.Length
    modifies list
    ensures list[..] == old(list[..])[j - 1 := old(list[..])[j]][j := old(list[..])[j - 1]]
  {
    list[j], list[j - 1] := list[j - 1], list[j];
  }

  method Sink<T(!new)>(list: array<T>, i: nat, less: (T, T) -> bool, ghost before: seq<T>)
    requires i < list.Length && Inserting(list[..], i, i + 1, less)
    requires StrictOrderOn(less, Elements(before)) && multiset(list[..]) == multiset(before)
    modifies list
    ensures Ordered(list[..i + 1], less) && multiset(list[..]) == multiset(before)
  {
    var j: nat := i;
    while j > 0 && less(list[j], list[j - 1])
      invariant j <= i && Inserting(list[..], j, i + 1, less)
      invariant multiset(list[..]) == multiset(before)
    {
      SinkStep(list[..], j, i + 1, less, before);
      Exchange(list[..], j - 1, j);
      SwapDown(list, j);
      j := j - 1;
    }
    SinkDone(list[..], j, i + 1, less, before);
    assert list[..i + 1] == list[..][..i + 1];
  }

  lemma Among<T>(r: seq<T>, before: seq<T>, x: T)
    requires multiset(r) == multiset(before) && x in r
    ensures x in Elements(before)
  {
    assert x in multiset(r);
  }

  lemma SinkStep<T(!new)>(r: seq<T>, j: nat, n: nat, less: (T, T) -> bool, before: seq<T>)
    requires StrictOrderOn(less, Elements(before)) && multiset(r) == multiset(before)
    requires j > 0 && Inserting(r, j, n, less) && less(r[j], r[j - 1])
    ensures Inserting(r[j - 1 := r[j]][j := r[j - 1]], j - 1, n, less)
  {
    var t := r[j - 1 := r[j]][j := r[j - 1]];
    forall p, q | 0 <= p < q < n && q != j - 1 ensures !less(t[q], t[p]) {
      Among(r, before, r[j]);
      Among(r, before, r[j - 1]);
      assert t[p] in r && t[q] in r;
      if q == j && p == j - 1 {
        assert less(r[j], r[j - 1]) && !less(r[j - 1], r[j]);
      }
    }
  }

  lemma SinkDone<T(!new)>(r: seq<T>, j: nat, n: nat, less: (T, T) -> bool, before: seq<T>)
    requires StrictOrderOn(less, Elements(before)) && multiset(r) == multiset(before)
    requires Inserting(r, j, n, less) && (j > 0 ==> !less(r[j], r[j - 1]))
    ensures Ordered(r[..n], less)
  {
    forall p | 0 <= p < j ensures !less(r[j], r[p]) {
      Among(r, before, r[j]);
      Among(r, before, r[j - 1]);
      Among(r, before, r[p]);
      if p < j - 1 { assert !less(r[j - 1], r[p]); }
    }
    forall p, q | 0 <= p < q < n ensures !less(r[..n][q], r[..n][p]) { }
  }

  /** Once sorted, distinct elements are the listing of their set. */
  lemma OrderedLists<T(!new)>(r: seq<T>, s: set<T>, less: (T, T) -> bool)
    requires StrictOrderOn(less, s) && Elements(r) == s && |r| == |s| && Ordered(r, less)
    ensures Lists(r, s, less)
  {
    forall x ensures x in r <==> x in s { assert x in r <==> x in Elements(r); }
    forall i, j | 0 <= i < j < |r| ensures less(r[i], r[j]) {
      FullIsDistinct(r, i, j);
      assert r[i] in s && r[j] in s;
    }
  }

  lemma {:induction false} ElementsAtMost<T>(r: seq<T>)
    ensures |Elements(r)| <= |r|
  {
    if r != [] {
      ElementsAtMost(r[1..]);
      assert Elements(r) == Elements(r[1..]) + {r[0]};
    }
  }

  lemma FullIsDistinct<T>(r: seq<T>, i: nat, j: nat)
    requires i < j < |r| && |Elements(r)| == |r|
    ensures r[i] != r[j]
  {
    if r[i] == r[j] {
      var rest := r[..j] + r[j + 1..];
      ElementsAtMost(rest);
      forall x | x in Elements(r) ensures x in Elements(rest) {
        var k :| 0 <= k < |r| && r[k] == x;
        assert x == rest[if k < j then k else if k == j then i else k - 1];
      }
      assert Elements(r) <= Elements(rest);
      SubsetSize(Elements(r), Elements(rest));
    }
  }

  lemma {:induction false} SubsetSize<T>(a: set<T>, b: set<T>)
    requires a <= b
    ensures |a| <= |b|
    decreases |a|
  {
    if a != {} {
      var x :| x in a;
      SubsetSize(a - {x}, b - {x});
    }
  }

  lemma ElementsStep<T>(s: seq<T>, x: T)
    ensures Elements(s + [x]) == Elements(s) + {x}
  {
  }

  lemma SameElements<T>(a: seq<T>, b: seq<T>)
    requires multiset(a) == multiset(b)
    ensures Elements(a) == Elements(b) && |a| == |b|
  {
    forall x ensures x in a <==> x in b { assert x in a <==> x in multiset(a); }
    assert |a| == |multiset(a)| && |b| == |multiset(b)|;
  }

  lemma LastSorted<T(!new)>(init: seq<T>, last: T, less: (T, T) -> bool)
    requires Sorted(init + [last], less)
    ensures forall x :: x in init ==> less(x, last)
  {
    forall i | 0 <= i < |init| ensures less(init[i], last) {
      assert (init + [last])[i] == init[i] && (init + [last])[|init|] == last;
    }
  }

  lemma SnocSorted<T(!new)>(r: seq<T>, x: T, less: (T, T) -> bool)
    requires Sorted(r, less) && forall y :: y in r ==> less(y, x)
    ensures Sorted(r + [x], less)
  {
  }
}
