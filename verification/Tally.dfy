/** Sums and maxima over multisets: results that no order of visiting can change. */
module Tally {

  ghost function Any<E>(s: multiset<E>): (x: E)
    requires |s| > 0
    ensures x in s
  {
    var x :| x in s;
    x
  }

  ghost function Sum<E(!new)>(s: multiset<E>, f: E -> int): int
    decreases |s|
  {
    if |s| == 0 then 0 else
      var x := Any(s);
      f(x) + Sum(s - multiset{x}, f)
  }

  /** The largest f over s, and 0 if none is positive. */
  ghost function Max0<E(!new)>(s: multiset<E>, f: E -> int): int
    decreases |s|
  {
    if |s| == 0 then 0 else
      var x := Any(s);
      Larger(f(x), Max0(s - multiset{x}, f))
  }

  function Larger(a: int, b: int): int {
    if a > b then a else b
  }

  lemma Swap<E(!new)>(s: multiset<E>, x: E, y: E)
    requires x in s && y in s && x != y
    ensures s - multiset{x} - multiset{y} == s - multiset{y} - multiset{x}
    ensures y in s - multiset{x} && x in s - multiset{y}
    ensures |s - multiset{x}| < |s| && |s - multiset{y}| < |s|
  {
  }

  lemma {:induction false} SumTake<E(!new)>(s: multiset<E>, f: E -> int, y: E)
    requires y in s
    ensures Sum(s, f) == f(y) + Sum(s - multiset{y}, f)
    decreases |s|
  {
    var x := Any(s);
    if x != y {
      Swap(s, x, y);
      SumTake(s - multiset{x}, f, y);
      SumTake(s - multiset{y}, f, x);
    }
  }

  lemma {:induction false} MaxTake<E(!new)>(s: multiset<E>, f: E -> int, y: E)
    requires y in s
    ensures Max0(s, f) == Larger(f(y), Max0(s - multiset{y}, f))
    decreases |s|
  {
    var x := Any(s);
    if x != y {
      Swap(s, x, y);
      MaxTake(s - multiset{x}, f, y);
      MaxTake(s - multiset{y}, f, x);
    }
  }

  lemma SumAdd<E(!new)>(s: multiset<E>, f: E -> int, y: E)
    ensures Sum(s + multiset{y}, f) == Sum(s, f) + f(y)
  {
    SumTake(s + multiset{y}, f, y);
    assert s + multiset{y} - multiset{y} == s;
  }

  lemma MaxAdd<E(!new)>(s: multiset<E>, f: E -> int, y: E)
    ensures Max0(s + multiset{y}, f) == Larger(f(y), Max0(s, f))
  {
    MaxTake(s + multiset{y}, f, y);
    assert s + multiset{y} - multiset{y} == s;
  }

  lemma {:induction false} SumSame<E(!new)>(s: multiset<E>, f: E -> int, g: E -> int)
    requires forall e :: e in s ==> f(e) == g(e)
    ensures Sum(s, f) == Sum(s, g)
    decreases |s|
  {
    if |s| != 0 { SumSame(s - multiset{Any(s)}, f, g); }
  }

  lemma {:induction false} SumNonNegative<E(!new)>(s: multiset<E>, f: E -> int)
    requires forall e :: f(e) >= 0
    ensures Sum(s, f) >= 0
    decreases |s|
  {
    if |s| != 0 {
      var x :| x in s;
      SumTake(s, f, x);
      SumNonNegative(s - multiset{x}, f);
    }
  }

  /** What Max0 means: an upper bound that is reached. */
  lemma {:induction false} MaxMeaning<E(!new)>(s: multiset<E>, f: E -> int)
    ensures Max0(s, f) >= 0 && forall e :: e in s ==> f(e) <= Max0(s, f)
    ensures Max0(s, f) > 0 ==> exists e :: e in s && f(e) == Max0(s, f)
    decreases |s|
  {
    if |s| != 0 {
      var x :| x in s;
      MaxTake(s, f, x);
      var rest := s - multiset{x};
      MaxMeaning(rest, f);
      forall e | e in s ensures f(e) <= Max0(s, f) {
        if e != x { assert e in rest; }
      }
      if Max0(s, f) > 0 && f(x) <= Max0(rest, f) {
        var e :| e in rest && f(e) == Max0(rest, f);
        assert e in s;
      }
    }
  }
}
