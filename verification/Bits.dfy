/** What the encoder's masks and shifts compute, as numbers. */
module Bits {
  import opened Radix

  /** The byte of value n, counted up to: this needs no conversion to a bit vector. */
  function ByteOf(n: nat): (c: bv8)
    requires n < 256
    ensures c as int == n
  {
    if n == 0 then 0
    else
      var c := ByteOf(n - 1);
      Successor(c);
      c + 1
  }

  lemma Successor(c: bv8)
    requires c < 255
    ensures (c + 1) as int == c as int + 1
  {
  }

  /** Go's byte(w). */
  function Low8(w: nat): (c: bv8)
    ensures c as nat == w % 256
  {
    ByteOf(w % 256)
  }

  function Shr(w: nat, k: nat): nat {
    w / Pow(2, k)
  }

  lemma SmallPowers()
    ensures Pow(2, 0) == 1 && Pow(2, 1) == 2 && Pow(2, 2) == 4 && Pow(2, 3) == 8 && Pow(2, 4) == 16
    ensures Pow(2, 5) == 32 && Pow(2, 6) == 64 && Pow(2, 7) == 128 && Pow(2, 8) == 256
  {
    assert Pow(2, 3) == 8;
    assert Pow(2, 6) == 64;
  }

  /** A number in n bytes, dropping what does not fit. */
  function Bytes(v: nat, n: nat): (ds: seq<nat>)
    ensures |ds| == n
  {
    if n == 0 then [] else Bytes(v / 256, n - 1) + [v % 256]
  }

  lemma {:induction false} ValueOfBytes(v: nat, n: nat)
    ensures InBase(Bytes(v, n), 256)
    ensures Number(Bytes(v, n), 256) == v % Pow(256, n)
  {
    if n > 0 {
      ValueOfBytes(v / 256, n - 1);
      ValueSnoc(Bytes(v / 256, n - 1), v % 256, 256);
      DivThenMod(v, 256, Pow(256, n - 1));
    }
  }

  // ---- the 64-bit accumulator, as a number below WORD ----

  const WORD: nat := 0x1_0000_0000_0000_0000

  /** Shifting a byte in: the bits pushed off the top are not among the low n + 8. */
  lemma PushByte(bits: nat, c: nat, n: nat)
    requires c < 256 && n <= 56
    ensures (bits * 256 % WORD + c) % Pow(2, n + 8) == 256 * (bits % Pow(2, n)) + c
  {
    WordDivides(n + 8);
    DropMultiple(bits * 256, WORD, c, Pow(2, n + 8), Pow(2, 56 - n));
    SmallPowers();
    PowAdd(2, n, 8);
    DivThenMod(bits * 256 + c, 256, Pow(2, n));
    assert (bits * 256 + c) / 256 == bits && (bits * 256 + c) % 256 == c;
  }

  lemma WordDivides(n: nat)
    requires n <= 64
    ensures WORD == Pow(2, n) * Pow(2, 64 - n)
  {
    SmallPowers();
    PowAdd(2, 8, 8);
    PowAdd(2, 16, 16);
    PowAdd(2, 32, 32);
    PowAdd(2, n, 64 - n);
  }

  /** The text written so far and the bits still carried, as one number. */
  ghost function Joint(out: seq<nat>, bits: nat, n: nat): nat {
    Number(out, 32) * Pow(2, n) + bits % Pow(2, n)
  }

  lemma TakeByte(out: seq<nat>, bits: nat, n: nat, c: nat)
    requires c < 256 && n <= 56
    ensures Joint(out, bits * 256 % WORD + c, n + 8) == 256 * Joint(out, bits, n) + c
  {
    PushByte(bits, c, n);
    Scale8(Number(out, 32), n);
  }

  lemma Scale8(v: nat, n: nat)
    ensures v * Pow(2, n + 8) == 256 * (v * Pow(2, n))
  {
    SmallPowers();
    PowAdd(2, n, 8);
    Associate(256, v, Pow(2, n));
    Associate(v, 256, Pow(2, n));
  }

  lemma EmitDigit(out: seq<nat>, bits: nat, n: nat, d: nat)
    requires d == bits / Pow(2, n) % 32
    ensures Joint(out + [d], bits, n) == Joint(out, bits, n + 5)
  {
    ValueSnoc(out, d, 32);
    SplitWindow(bits, n, Number(out, 32));
  }

  lemma SplitWindow(w: nat, n: nat, v: nat)
    ensures v * Pow(2, n + 5) + w % Pow(2, n + 5) == (32 * v + w / Pow(2, n) % 32) * Pow(2, n) + w % Pow(2, n)
  {
    SmallPowers();
    PowAdd(2, n, 5);
    DivThenMod(w, Pow(2, n), 32);
    Regroup(Pow(2, n), 32, v, w / Pow(2, n) % 32);
  }

  lemma BitSum(c: bv8)
    ensures c as int ==
      (if c & 1 != 0 then 1 else 0) + (if c & 2 != 0 then 2 else 0) +
      (if c & 4 != 0 then 4 else 0) + (if c & 8 != 0 then 8 else 0) +
      (if c & 16 != 0 then 16 else 0) + (if c & 32 != 0 then 32 else 0) +
      (if c & 64 != 0 then 64 else 0) + (if c & 128 != 0 then 128 else 0)
  {
  }

  lemma OrAdds(x: bv8, y: bv8)
    requires x & y == 0
    ensures (x | y) as int == x as int + y as int
  {
    BitSum(x);
    BitSum(y);
    BitSum(x | y);
  }

  // ---- single fields of a byte, as numbers ----

  lemma Top5(c: bv8)
    ensures ((c & 248) >> 3) as int == c as int / 8
  {
  }

  lemma Top4(c: bv8)
    ensures ((c & 240) >> 4) as int == c as int / 16
  {
  }

  lemma Top3(c: bv8)
    ensures ((c & 224) >> 5) as int == c as int / 32
  {
  }

  lemma Top2(c: bv8)
    ensures ((c & 192) >> 6) as int == c as int / 64
  {
  }

  lemma Top1(c: bv8)
    ensures ((c & 128) >> 7) as int == c as int / 128
  {
  }

  lemma Low1(c: bv8)
    ensures (c & 1) as int == c as int % 2
  {
  }

  lemma Low2(c: bv8)
    ensures (c & 3) as int == c as int % 4
  {
  }

  lemma Low3(c: bv8)
    ensures (c & 7) as int == c as int % 8
  {
  }

  lemma Low4(c: bv8)
    ensures (c & 15) as int == c as int % 16
  {
  }

  lemma Low5(c: bv8)
    ensures (c & 31) as int == c as int % 32
  {
  }

  lemma Up1(y: bv8)
    requires y < 16
    ensures (y << 1) as int == 2 * y as int
  {
  }

  lemma Up2(y: bv8)
    requires y < 8
    ensures (y << 2) as int == 4 * y as int
  {
  }

  lemma Up3(y: bv8)
    requires y < 4
    ensures (y << 3) as int == 8 * y as int
  {
  }

  lemma Up4(y: bv8)
    requires y < 2
    ensures (y << 4) as int == 16 * y as int
  {
  }

  lemma Down1(y: bv8)
    ensures (y >> 1) as int == y as int / 2
  {
  }

  lemma Down2(y: bv8)
    ensures (y >> 2) as int == y as int / 4
  {
  }

  lemma Mid1(c: bv8)
    ensures ((c & 62) >> 1) as int == c as int % 64 / 2
  {
    assert (c & 62) >> 1 == (c >> 1) & 31;
    Down1(c);
    Low5(c >> 1);
  }

  lemma Mid2(c: bv8)
    ensures ((c & 124) >> 2) as int == c as int % 128 / 4
  {
    assert (c & 124) >> 2 == (c >> 2) & 31;
    Down2(c);
    Low5(c >> 2);
  }

  // ---- fields that straddle two bytes ----

  lemma Join4(p: bv8, c: bv8)
    ensures (((p & 1) << 4) | ((c & 240) >> 4)) as int == p as int % 2 * 16 + c as int / 16
  {
    Low1(p); Up4(p & 1); Top4(c); OrAdds((p & 1) << 4, (c & 240) >> 4);
  }

  lemma Join3(p: bv8, c: bv8)
    ensures (((p & 3) << 3) | ((c & 224) >> 5)) as int == p as int % 4 * 8 + c as int / 32
  {
    Low2(p); Up3(p & 3); Top3(c); OrAdds((p & 3) << 3, (c & 224) >> 5);
  }

  lemma Join2(p: bv8, c: bv8)
    ensures (((p & 7) << 2) | ((c & 192) >> 6)) as int == p as int % 8 * 4 + c as int / 64
  {
    Low3(p); Up2(p & 7); Top2(c); OrAdds((p & 7) << 2, (c & 192) >> 6);
  }

  lemma Join1(p: bv8, c: bv8)
    ensures (((p & 15) << 1) | ((c & 128) >> 7)) as int == p as int % 16 * 2 + c as int / 128
  {
    Low4(p); Up1(p & 15); Top1(c); OrAdds((p & 15) << 1, (c & 128) >> 7);
  }

}
