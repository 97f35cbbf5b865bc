/** Numbers in positional notation, most significant digit first. */
module Radix {

  function Pow(base: nat, n: nat): (p: nat)
    ensures base > 0 ==> p > 0
  {
    if n == 0 then 1 else base * Pow(base, n - 1)
  }

  ghost predicate InBase(ds: seq<nat>, base: nat) {
    forall i :: 0 <= i < |ds| ==> ds[i] < base
  }

  /** The number that the first n digits spell. */
  ghost function Value(ds: seq<nat>, n: nat, base: nat): nat
    requires n <= |ds|
  {
    if n == 0 then 0 else base * Value(ds, n - 1, base) + ds[n - 1]
  }

  ghost function Number(ds: seq<nat>, base: nat): nat {
    Value(ds, |ds|, base)
  }

  /** The first difference decides. */
  ghost predicate LexLess(a: seq<nat>, b: seq<nat>) {
    exists k :: 0 <= k < |a| && k < |b| && a[..k] == b[..k] && a[k] < b[k]
  }

  lemma {:induction false} ValuePrefix(a: seq<nat>, b: seq<nat>, n: nat, base: nat)
    requires n <= |a| && n <= |b| && a[..n] == b[..n]
    ensures Value(a, n, base) == Value(b, n, base)
  {
    if n > 0 {
      assert a[..n][..n - 1] == a[..n - 1] && b[..n][..n - 1] == b[..n - 1];
      assert a[..n][n - 1] == b[..n][n - 1];
      ValuePrefix(a, b, n - 1, base);
    }
  }

  lemma ValueSnoc(ds: seq<nat>, d: nat, base: nat)
    ensures Value(ds + [d], |ds| + 1, base) == base * Value(ds, |ds|, base) + d
  {
    assert (ds + [d])[..|ds|] == ds[..|ds|];
    ValuePrefix(ds + [d], ds, |ds|, base);
  }

  lemma {:induction false} ValueBound(ds: seq<nat>, n: nat, base: nat)
    requires n <= |ds| && InBase(ds, base)
    ensures Value(ds, n, base) < Pow(base, n)
  {
    if n > 0 {
      ValueBound(ds, n - 1, base);
      BelowNext(base, Value(ds, n - 1, base), Pow(base, n - 1), ds[n - 1]);
    }
  }

  /** On equally many digits, the order of the digits is the order of the numbers. */
  lemma {:induction false} LexIsNumeric(a: seq<nat>, b: seq<nat>, n: nat, base: nat)
    requires n <= |a| && n <= |b| && InBase(a, base) && InBase(b, base)
    ensures LexLess(a[..n], b[..n]) <==> Value(a, n, base) < Value(b, n, base)
    ensures a[..n] == b[..n] <==> Value(a, n, base) == Value(b, n, base)
  {
    if n > 0 {
      var m := n - 1;
      var v, w := Value(a, m, base), Value(b, m, base);
      LexIsNumeric(a, b, m, base);
      LexConcat(a[..m], [a[m]], b[..m], [b[m]]);
      LexSingle(a[m], b[m]);
      assert a[..n] == a[..m] + [a[m]] && b[..n] == b[..m] + [b[m]];
      if v < w { BelowNext(base, v, w, a[m]); }
      if w < v { BelowNext(base, w, v, b[m]); }
    }
  }

  lemma LexWhole(a: seq<nat>, b: seq<nat>, base: nat)
    requires |a| == |b| && InBase(a, base) && InBase(b, base)
    ensures LexLess(a, b) <==> Number(a, base) < Number(b, base)
    ensures a == b <==> Number(a, base) == Number(b, base)
  {
    LexIsNumeric(a, b, |a|, base);
    assert a[..|a|] == a && b[..|b|] == b;
  }

  lemma LexSingle(c: nat, d: nat)
    ensures LexLess([c], [d]) <==> c < d
  {
    assert [c][..0] == [d][..0];
  }

  lemma LexConcat(p: seq<nat>, a: seq<nat>, q: seq<nat>, b: seq<nat>)
    requires |p| == |q|
    ensures LexLess(p + a, q + b) <==> LexLess(p, q) || (p == q && LexLess(a, b))
  {
    if LexLess(p, q) { LexHead(p, a, q, b); }
    if p == q && LexLess(a, b) { LexTail(p, a, b); }
    if LexLess(p + a, q + b) { LexSplit(p, a, q, b); }
  }

  lemma LexHead(p: seq<nat>, a: seq<nat>, q: seq<nat>, b: seq<nat>)
    requires LexLess(p, q)
    ensures LexLess(p + a, q + b)
  {
    var k :| 0 <= k < |p| && k < |q| && p[..k] == q[..k] && p[k] < q[k];
    assert (p + a)[..k] == p[..k] && (q + b)[..k] == q[..k];
  }

  lemma LexTail(p: seq<nat>, a: seq<nat>, b: seq<nat>)
    requires LexLess(a, b)
    ensures LexLess(p + a, p + b)
  {
    var k :| 0 <= k < |a| && k < |b| && a[..k] == b[..k] && a[k] < b[k];
    assert (p + a)[..|p| + k] == p + a[..k] && (p + b)[..|p| + k] == p + b[..k];
  }

  lemma LexSplit(p: seq<nat>, a: seq<nat>, q: seq<nat>, b: seq<nat>)
    requires |p| == |q| && LexLess(p + a, q + b)
    ensures LexLess(p, q) || (p == q && LexLess(a, b))
  {
    var s, t := p + a, q + b;
    var k :| 0 <= k < |s| && k < |t| && s[..k] == t[..k] && s[k] < t[k];
    if k < |p| {
      assert p[..k] == s[..k] && q[..k] == t[..k];
    } else {
      LateDifference(p, a, q, b, k);
    }
  }

  lemma LateDifference(p: seq<nat>, a: seq<nat>, q: seq<nat>, b: seq<nat>, k: nat)
    requires |p| == |q| <= k < |p + a| && k < |q + b|
    requires (p + a)[..k] == (q + b)[..k] && (p + a)[k] < (q + b)[k]
    ensures p == q && LexLess(a, b)
  {
    var x := (p + a)[..k];
    assert p == x[..|p|] && q == x[..|p|];
    assert a[..k - |p|] == x[|p|..] && b[..k - |p|] == x[|p|..];
    assert a[k - |p|] < b[k - |p|];
  }

  // ---- division ----

  lemma {:induction false} PowAdd(base: nat, m: nat, n: nat)
    ensures Pow(base, m + n) == Pow(base, m) * Pow(base, n)
  {
    if m > 0 {
      PowAdd(base, m - 1, n);
      Associate(base, Pow(base, m - 1), Pow(base, n));
    }
  }

  lemma Associate(a: nat, b: nat, c: nat)
    ensures a * (b * c) == (a * b) * c
  {
  }

  /** Peeling the lowest digit off a remainder. */
  lemma DivThenMod(v: nat, base: nat, m: nat)
    requires base > 0 && m > 0
    ensures base * m > 0 && base * (v / base % m) + v % base == v % (base * m)
  {
    var d, q, r := base * m, v / base, v % base;
    var h, l := q / m, q % m;
    Regroup(base, m, h, l);
    BelowNext(base, l, m, r);
    assert q == m * h + l;
    assert v == base * q + r;
    Remainder(v, d, h, base * l + r);
  }

  lemma Regroup(a: nat, m: nat, h: nat, l: nat)
    ensures a * (m * h + l) == (a * m) * h + a * l
  {
  }

  lemma BelowNext(a: nat, l: nat, m: nat, r: nat)
    requires l < m && r < a
    ensures a * l + r < a * m
  {
    assert a * (l + 1) <= a * m;
  }

  lemma Remainder(v: int, d: int, q: int, r: int)
    requires d > 0 && 0 <= r < d && v == d * q + r
    ensures v % d == r
  {
    var e := v / d - q;
    assert d * e == r - v % d;
    assert 0 - d < d * e < d;
    assert e == 0;
  }

  lemma Quotient(v: int, d: int, q: int, r: int)
    requires d > 0 && 0 <= r < d && v == d * q + r
    ensures v / d == q && v % d == r
  {
    Remainder(v, d, q, r);
    assert d * (v / d - q) == 0;
  }

  /** A remainder by w == m * k says all there is to know about the remainder by m. */
  lemma DropMultiple(v: nat, w: nat, c: nat, m: nat, k: nat)
    requires w > 0 && w == m * k
    ensures m > 0 && (v % w + c) % m == (v + c) % m
  {
    var t, u := v / w, v % w + c;
    assert v == w * t + v % w;
    assert (m * k) * t == m * (k * t);
    assert m * (k * t + u / m) == m * (k * t) + m * (u / m);
    Remainder(v + c, m, k * t + u / m, u % m);
  }
}
