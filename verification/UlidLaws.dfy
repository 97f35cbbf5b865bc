/** What the rest of the system relies on: identifiers are a faithful, order-preserving
    spelling of their bytes. */
module UlidLaws {
  import opened Wrappers
  import opened Text
  import opened Radix
  import opened Bits
  import opened Ulid

  /** String order is byte order, and each 16 bytes have one spelling of their own. */
  lemma OrderPreserved(s: string, a: seq<bv8>, t: string, b: seq<bv8>)
    requires Encodes(s, a) && Encodes(t, b)
    ensures Less(s, t) <==> LexLess(Octets(a), Octets(b))
    ensures s == t <==> a == b
  {
    OrderPreservedIn(CROCKFORD, s, a, t, b);
  }

  lemma OrderPreservedIn(alphabet: string, s: string, a: seq<bv8>, t: string, b: seq<bv8>)
    requires EncodesIn(alphabet, s, a) && EncodesIn(alphabet, t, b)
    ensures Less(s, t) <==> LexLess(Octets(a), Octets(b))
    ensures s == t <==> a == b
  {
    TextOrder(alphabet, s, t);
    LexWhole(TextDigits(alphabet, s), TextDigits(alphabet, t), 32);
    LexWhole(Octets(a), Octets(b), 256);
    SameOctets(a, b);
  }

  /** Letters that ascend make string order digit order. */
  lemma TextOrder(a: string, s: string, t: string)
    requires IsAlphabet(a) && IsText(a, s) && IsText(a, t)
    ensures Less(s, t) <==> LexLess(TextDigits(a, s), TextDigits(a, t))
    ensures s == t <==> TextDigits(a, s) == TextDigits(a, t)
  {
    var ds, dt := TextDigits(a, s), TextDigits(a, t);
    LexWhole(ds, dt, 32);
    LexWhole(dt, ds, 32);
    if LexLess(ds, dt) { TextLess(a, s, t); LessIrreflexive(s); }
    else if LexLess(dt, ds) { TextLess(a, t, s); LessAsymmetric(t, s); }
    else { assert s == t; LessIrreflexive(s); }
  }

  lemma TextLess(a: string, s: string, t: string)
    requires IsAlphabet(a) && IsText(a, s) && IsText(a, t)
    requires LexLess(TextDigits(a, s), TextDigits(a, t))
    ensures Less(s, t)
  {
    var ds, dt := TextDigits(a, s), TextDigits(a, t);
    var k :| 0 <= k < 26 && ds[..k] == dt[..k] && ds[k] < dt[k];
    forall i | 0 <= i < k ensures s[i] == t[i] { assert ds[..k][i] == dt[..k][i]; }
    assert s[..k] == t[..k];
    LessAtFirstDifference(s, t, k);
  }

  lemma SameOctets(a: seq<bv8>, b: seq<bv8>)
    requires |a| == |b|
    ensures a == b <==> Octets(a) == Octets(b)
  {
    if Octets(a) == Octets(b) {
      forall i | 0 <= i < |a| ensures a[i] == b[i] { assert Octets(a)[i] == Octets(b)[i]; }
    }
  }

  /** Reads an identifier back. The first letter carries only three of its five bits. */
  ghost function Decode(s: string): Option<seq<bv8>> {
    CrockfordIsAlphabet();
    DecodeIn(CROCKFORD, s)
  }

  ghost function DecodeIn(a: string, s: string): Option<seq<bv8>>
    requires IsAlphabet(a)
  {
    if IsText(a, s) && s[0] <= a[7] then Some(FromOctets(Bytes(Number(TextDigits(a, s), 32), 16))) else None
  }

  ghost function FromOctets(ds: seq<nat>): (b: seq<bv8>)
    ensures |b| == |ds|
    ensures InBase(ds, 256) ==> Octets(b) == ds
  {
    seq(|ds|, i requires 0 <= i < |ds| => Low8(ds[i]))
  }

  /** Decoding is the inverse of encoding: it succeeds on exactly the encoder's outputs. */
  lemma DecodeInverts(s: string, b: seq<bv8>)
    ensures Decode(s) == Some(b) <==> Encodes(s, b)
  {
    CrockfordIsAlphabet();
    DecodeInvertsIn(CROCKFORD, s, b);
  }

  lemma DecodeInvertsIn(a: string, s: string, b: seq<bv8>)
    requires IsAlphabet(a)
    ensures DecodeIn(a, s) == Some(b) <==> EncodesIn(a, s, b)
  {
    if IsText(a, s) {
      var v := Number(TextDigits(a, s), 32);
      FirstLetter(a, s);
      if v < TWO_TO_128 { OctetsOfNumber(v, 16, b); }
      if |b| == 16 { ValueBound(Octets(b), |b|, 256); BytesPower(|b|); }
    }
  }

  const TWO_TO_128: nat := 0x1_0000_0000_0000_0000_0000_0000_0000_0000

  lemma OctetsOfNumber(v: nat, n: nat, b: seq<bv8>)
    requires n == 16 && v < TWO_TO_128
    ensures b == FromOctets(Bytes(v, n)) <==> |b| == n && Number(Octets(b), 256) == v
  {
    var o := Bytes(v, n);
    ValueOfBytes(v, n);
    BytesPower(n);
    if |b| == n { SameNumber(b, FromOctets(o)); }
  }

  lemma SameNumber(a: seq<bv8>, b: seq<bv8>)
    requires |a| == |b|
    ensures a == b <==> Number(Octets(a), 256) == Number(Octets(b), 256)
  {
    LexWhole(Octets(a), Octets(b), 256);
    SameOctets(a, b);
  }

  /** 26 letters hold 130 bits; a number of 128 bits leaves the top two clear. */
  lemma FirstLetter(a: string, s: string)
    requires IsAlphabet(a) && IsText(a, s)
    ensures s[0] <= a[7] <==> Number(TextDigits(a, s), 32) < TWO_TO_128
  {
    var ds := TextDigits(a, s);
    var n := |ds| - 1;
    LeadingDigit(ds, n + 1);
    LettersPower(n);
    assert s[0] == a[ds[0]];
    if ds[0] > 7 {
      assert a[7] < a[ds[0]];
      MulMonotone(8, ds[0], Pow(32, n));
    } else {
      MulMonotone(ds[0] + 1, 8, Pow(32, n));
    }
  }

  lemma MulMonotone(x: nat, y: nat, z: nat)
    requires x <= y
    ensures x * z <= y * z
  {
  }

  lemma BytesPower(n: nat)
    requires n == 16
    ensures Pow(256, n) == TWO_TO_128
  {
    assert Pow(256, 4) == 0x1_0000_0000;
    PowAdd(256, 4, 4);
    PowAdd(256, 8, 8);
  }

  lemma LettersPower(n: nat)
    requires n == 25
    ensures 8 * Pow(32, n) == TWO_TO_128
  {
    assert Pow(32, 5) == 0x200_0000;
    PowAdd(32, 5, 5);
    PowAdd(32, 10, 10);
    PowAdd(32, 20, 5);
  }

  /** The leading digit places a number between two multiples of its weight. */
  lemma {:induction false} LeadingDigit(ds: seq<nat>, n: nat)
    requires 1 <= n <= |ds| && InBase(ds, 32)
    ensures ds[0] * Pow(32, n - 1) <= Value(ds, n, 32) < (ds[0] + 1) * Pow(32, n - 1)
  {
    if n == 1 {
      assert Value(ds, 0, 32) == 0 && Pow(32, 0) == 1;
    } else {
      LeadingDigit(ds, n - 1);
      Scale32(ds[0], Pow(32, n - 2));
      Scale32(ds[0] + 1, Pow(32, n - 2));
    }
  }

  lemma Scale32(d: nat, w: nat)
    ensures d * (32 * w) == 32 * (d * w)
  {
  }

  /** Identifiers sort by their stamps modulo 2^48, whatever the random bytes; among
      equal stamps the random bytes decide. Stamps below 2^48 thus sort by time. */
  lemma TimeOrdered(m1: nat, r1: seq<bv8>, s: string, m2: nat, r2: seq<bv8>, t: string)
    requires |r1| == |r2| == 10 && Encodes(s, Layout(m1, r1)) && Encodes(t, Layout(m2, r2))
    ensures Less(s, t) <==>
      m1 % 0x1_0000_0000_0000 < m2 % 0x1_0000_0000_0000
      || (m1 % 0x1_0000_0000_0000 == m2 % 0x1_0000_0000_0000 && LexLess(Octets(r1), Octets(r2)))
  {
    OrderPreserved(s, Layout(m1, r1), t, Layout(m2, r2));
    LayoutOctets(m1, r1);
    LayoutOctets(m2, r2);
    LexConcat(Bytes(m1, 6), Octets(r1), Bytes(m2, 6), Octets(r2));
    ValueOfBytes(m1, 6);
    ValueOfBytes(m2, 6);
    LexWhole(Bytes(m1, 6), Bytes(m2, 6), 256);
    assert Pow(256, 3) == 0x100_0000;
    PowAdd(256, 3, 3);
  }

  lemma LayoutOctets(ms: nat, r: seq<bv8>)
    requires |r| == 10
    ensures Octets(Layout(ms, r)) == Bytes(ms, 6) + Octets(r)
  {
    StampBytes(ms, 6);
    var l, o := Layout(ms, r), Octets(Layout(ms, r));
    assert o[..6] == Bytes(ms, 6);
    assert o[6..] == Octets(r);
    assert o == o[..6] + o[6..];
  }

  lemma StampBytes(ms: nat, n: nat)
    requires n == 6
    ensures Bytes(ms, n) ==
      [Shr(ms, 40) % 256, Shr(ms, 32) % 256, Shr(ms, 24) % 256, Shr(ms, 16) % 256, Shr(ms, 8) % 256, ms % 256]
  {
    assert Shr(ms, 0) == ms by { SmallPowers(); }
    ByteAbove(ms, 0, n - 1);
    ByteAbove(ms, 8, n - 2);
    ByteAbove(ms, 16, n - 3);
    ByteAbove(ms, 24, n - 4);
    ByteAbove(ms, 32, n - 5);
    ByteAbove(ms, 40, n - 6);
    NoBytes(Shr(ms, 48), n - 6);
    SixOf(Shr(ms, 40) % 256, Shr(ms, 32) % 256, Shr(ms, 24) % 256, Shr(ms, 16) % 256, Shr(ms, 8) % 256, ms % 256);
  }

  lemma SixOf<T>(a: T, b: T, c: T, d: T, e: T, f: T)
    ensures [] + [a] + [b] + [c] + [d] + [e] + [f] == [a, b, c, d, e, f]
  {
  }

  lemma ByteAbove(w: nat, k: nat, n: nat)
    ensures Bytes(Shr(w, k), n + 1) == Bytes(Shr(w, k + 8), n) + [Shr(w, k) % 256]
  {
    ShrStep(w, k);
  }

  lemma NoBytes(w: nat, n: nat)
    requires n == 0
    ensures Bytes(w, n) == []
  {
  }

  lemma ShrStep(w: nat, k: nat)
    ensures Shr(w, k) / 256 == Shr(w, k + 8)
  {
    SmallPowers();
    PowAdd(2, k, 8);
    var m := Pow(2, k);
    var q, r := w / m / 256, w / m % 256;
    assert w == m * (256 * q + r) + w % m;
    Regroup(m, 256, q, r);
    BelowNext(m, r, 256, w % m);
    Quotient(w, m * 256, q, m * r + w % m);
  }
}
