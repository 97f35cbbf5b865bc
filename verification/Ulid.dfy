/** Message identifiers: 16 bytes (48 bits of milliseconds, 80 random bits) spelled as 26
    Crockford Base32 letters. Bytes are bit-vectors, so masks and shifts are the machine's;
    the 64-bit accumulator of the random part is a number that wraps at WORD. */
module Ulid {
  import opened Radix
  import opened Bits

  const CROCKFORD: string := "0123456789ABCDEFGHJKMNPQRSTVWXYZ"

  /** All that the order of identifiers needs of their letters: they ascend. */
  ghost predicate IsAlphabet(a: string) {
    |a| == 32 && forall i, j :: 0 <= i < j < |a| ==> a[i] < a[j]
  }

  /** The digits, and the capital letters but for four that look like others. */
  lemma LettersAre(c: char)
    ensures c in CROCKFORD <==> '0' <= c <= '9' || ('A' <= c <= 'Z' && c !in "ILOU")
  {
  }

  lemma CrockfordIsAlphabet()
    ensures IsAlphabet(CROCKFORD)
  {
    assert forall i :: 1 <= i < |CROCKFORD| ==> CROCKFORD[i - 1] < CROCKFORD[i];
    forall i, j | 0 <= i < j < |CROCKFORD| ensures CROCKFORD[i] < CROCKFORD[j] {
      Ascends(CROCKFORD, i, j);
    }
  }

  lemma {:induction false} Ascends(a: string, i: nat, j: nat)
    requires i < j < |a| && forall k :: 1 <= k < |a| ==> a[k - 1] < a[k]
    ensures a[i] < a[j]
  {
    if i + 1 < j { Ascends(a, i, j - 1); }
  }

  predicate IsText(a: string, s: string) {
    |s| == 26 && forall i :: 0 <= i < |s| ==> s[i] in a
  }

  /** The place of a letter in the alphabet. */
  ghost function Digit(a: string, c: char): (d: nat)
    requires IsAlphabet(a) && c in a
    ensures d < 32 && a[d] == c
  {
    var d :| 0 <= d < |a| && a[d] == c;
    d
  }

  ghost function TextDigits(a: string, s: string): (ds: seq<nat>)
    requires IsAlphabet(a) && IsText(a, s)
    ensures |ds| == 26 && InBase(ds, 32) && Spells(a, s, ds)
  {
    seq(26, i requires 0 <= i < |s| => Digit(a, s[i]))
  }

  /** The letters of s[..|ds|] stand for the digits ds. */
  ghost predicate Spells(a: string, s: string, ds: seq<nat>) {
    |ds| <= |s| && forall k :: 0 <= k < |ds| ==> ds[k] < |a| && s[k] == a[ds[k]]
  }

  ghost function Octets(b: seq<bv8>): (ds: seq<nat>)
    ensures |ds| == |b| && InBase(ds, 256)
  {
    seq(|b|, i requires 0 <= i < |b| => b[i] as nat)
  }

  /** The format: 26 letters that spell the number held in the 16 bytes. */
  ghost predicate EncodesIn(a: string, s: string, b: seq<bv8>) {
    |b| == 16 && IsAlphabet(a) && IsText(a, s)
    && Number(TextDigits(a, s), 32) == Number(Octets(b), 256)
  }

  ghost predicate Encodes(s: string, b: seq<bv8>) {
    EncodesIn(CROCKFORD, s, b)
  }

  method IsULID(s: string) returns (ok: bool)
    ensures ok <==> IsText(CROCKFORD, s)
  {
    if |s| != 26 { return false; }
    for i := 0 to |s|
      invariant forall k :: 0 <= k < i ==> s[k] in CROCKFORD
    {
      if s[i] !in CROCKFORD { return false; }
    }
    return true;
  }

  /** The bit packing spells exactly the number of its input. */
  method EncodeULID(b: seq<bv8>) returns (s: string)
    requires |b| == 16
    ensures Encodes(s, b)
  {
    CrockfordIsAlphabet();
    s := Encode(CROCKFORD, b);
  }

  /** A millisecond stamp and ten random bytes, laid out and encoded. */
  method NewULIDAt(ms: nat, random: seq<bv8>) returns (s: string)
    requires ms < WORD && |random| == 10
    ensures Encodes(s, Layout(ms, random))
  {
    var b := new bv8[16](_ => 0);
    PutStamp(ms, b);
    forall i | 6 <= i < 16 { b[i] := random[i - 6]; }
    assert b[..] == Layout(ms, random);
    s := EncodeULID(b[..]);
  }

  /** Eight bytes are written and the low six rewritten over the first six. */
  method PutStamp(ms: nat, b: array<bv8>)
    requires b.Length == 16
    modifies b
    ensures b[0] == Low8(Shr(ms, 40)) && b[1] == Low8(Shr(ms, 32)) && b[2] == Low8(Shr(ms, 24))
    ensures b[3] == Low8(Shr(ms, 16)) && b[4] == Low8(Shr(ms, 8)) && b[5] == Low8(ms)
  {
    b[0], b[1], b[2], b[3] := Low8(Shr(ms, 56)), Low8(Shr(ms, 48)), Low8(Shr(ms, 40)), Low8(Shr(ms, 32));
    b[4], b[5], b[6], b[7] := Low8(Shr(ms, 24)), Low8(Shr(ms, 16)), Low8(Shr(ms, 8)), Low8(ms);
    b[0] := Low8(Shr(ms, 40));
    b[1] := Low8(Shr(ms, 32));
    b[2] := Low8(Shr(ms, 24));
    b[3] := Low8(Shr(ms, 16));
    b[4] := Low8(Shr(ms, 8));
    b[5] := Low8(ms);
  }

  function Layout(ms: nat, random: seq<bv8>): (b: seq<bv8>)
    requires |random| == 10
    ensures |b| == 16
  {
    [Low8(Shr(ms, 40)), Low8(Shr(ms, 32)), Low8(Shr(ms, 24)), Low8(Shr(ms, 16)), Low8(Shr(ms, 8)), Low8(ms)]
    + random
  }

  method Encode(crockford: string, b: seq<bv8>) returns (s: string)
    requires |b| == 16 && IsAlphabet(crockford)
    ensures EncodesIn(crockford, s, b)
  {
    var dst := new char[26](_ => '0');
    ghost var out := EncodeTime(crockford, b, dst);
    ghost var left: nat;
    out, left := EncodeRandom(crockford, b, dst, out);
    s := dst[..];
    SpelledDigits(crockford, s, out);
  }

  method EncodeTime(crockford: string, b: seq<bv8>, dst: array<char>) returns (ghost out: seq<nat>)
    requires |b| == 16 && dst.Length == 26 && |crockford| == 32
    modifies dst
    ensures |out| == 10 && Spells(crockford, dst[..], out)
    ensures Value(out, 10, 32) == Value(Octets(b), 6, 256)
  {
    var t := TimeFields(b);
    dst[0], dst[1], dst[2], dst[3] := crockford[t[0]], crockford[t[1]], crockford[t[2]], crockford[t[3]];
    dst[4], dst[5], dst[6] := crockford[t[4]], crockford[t[5]], crockford[t[6]];
    dst[7], dst[8], dst[9] := crockford[t[7]], crockford[t[8]], crockford[t[9]];
    out := t;
  }

  /** Ten bytes through a shifting accumulator. The guards make every write land in
      10..25, and no bit is left for the trailing letter that the code provides for. */
  method EncodeRandom(crockford: string, b: seq<bv8>, dst: array<char>, ghost time: seq<nat>)
    returns (ghost out: seq<nat>, ghost left: nat)
    requires |b| == 16 && dst.Length == 26 && |crockford| == 32
    requires |time| == 10 && Spells(crockford, dst[..], time)
    requires Value(time, 10, 32) == Value(Octets(b), 6, 256)
    modifies dst
    ensures |out| == 26 && Spells(crockford, dst[..], out)
    ensures Number(out, 32) == Number(Octets(b), 256)
    ensures out[..10] == time && left == 0
  {
    out := time;
    SmallPowers();
    var r := b[6..16];
    var bits: nat := 0;
    var n: nat := 0;
    var j := 10;
    for i := 0 to |r|
      invariant n < 5 && j == |out| && 5 * (j - 10) + n == 8 * i
      invariant Spells(crockford, dst[..], out)
      invariant Joint(out, bits, n) == Value(Octets(b), 6 + i, 256) && time <= out
    {
      TakeByte(out, bits, n, r[i] as nat);
      bits := bits * 256 % WORD + r[i] as nat;
      n := n + 8;
      while n >= 5
        invariant n <= 12 && j == |out| && 5 * (j - 10) + n == 8 * (i + 1)
        invariant Spells(crockford, dst[..], out)
        invariant Joint(out, bits, n) == Value(Octets(b), 7 + i, 256) && time <= out
      {
        n := n - 5;
        var d := bits / Pow(2, n) % 32;
        EmitDigit(out, bits, n, d);
        dst[j] := crockford[d];
        out := out + [d];
        j := j + 1;
      }
    }
    left := n;
    if n > 0 {
      assert false;
    }
  }

  lemma SpelledDigits(a: string, s: string, ds: seq<nat>)
    requires IsAlphabet(a) && |ds| == |s| == 26 && Spells(a, s, ds)
    ensures IsText(a, s) && TextDigits(a, s) == ds
  {
    forall k | 0 <= k < 26 ensures s[k] in a && Digit(a, s[k]) == ds[k] {
      assert a[ds[k]] in a;
    }
  }

  /** The ten five-bit fields of the 48-bit stamp; the first has only three bits. */
  function TimeFields(b: seq<bv8>): (ds: seq<nat>)
    requires |b| == 16
    ensures |ds| == 10 && InBase(ds, 32)
    ensures Value(ds, 10, 32) == Value(Octets(b), 6, 256)
  {
    var ds := StampFields(b[0], b[1], b[2], b[3], b[4], b[5]);
    Repack(Octets(b), ds);
    ds
  }

  function StampFields(b0: bv8, b1: bv8, b2: bv8, b3: bv8, b4: bv8, b5: bv8): (d: seq<nat>)
    ensures |d| == 10
    ensures d[0] == b0 as nat / 32 && d[1] == b0 as nat % 32
    ensures d[2] == b1 as nat / 8 && d[3] == b1 as nat % 8 * 4 + b2 as nat / 64
    ensures d[4] == b2 as nat % 64 / 2 && d[5] == b2 as nat % 2 * 16 + b3 as nat / 16
    ensures d[6] == b3 as nat % 16 * 2 + b4 as nat / 128 && d[7] == b4 as nat % 128 / 4
    ensures d[8] == b4 as nat % 4 * 8 + b5 as nat / 32 && d[9] == b5 as nat % 32
  {
    Top3(b0); Low5(b0); Top5(b1); Join2(b1, b2); Mid1(b2);
    Join4(b2, b3); Join1(b3, b4); Mid2(b4); Join3(b4, b5); Low5(b5);
    [((b0 & 224) >> 5) as nat,
     (b0 & 31) as nat,
     ((b1 & 248) >> 3) as nat,
     (((b1 & 7) << 2) | ((b2 & 192) >> 6)) as nat,
     ((b2 & 62) >> 1) as nat,
     (((b2 & 1) << 4) | ((b3 & 240) >> 4)) as nat,
     (((b3 & 15) << 1) | ((b4 & 128) >> 7)) as nat,
     ((b4 & 124) >> 2) as nat,
     (((b4 & 3) << 3) | ((b5 & 224) >> 5)) as nat,
     (b5 & 31) as nat]
  }

  lemma Repack(o: seq<nat>, d: seq<nat>)
    requires |o| >= 6 && |d| == 10 && InBase(o, 256)
    requires d[0] == o[0] / 32 && d[1] == o[0] % 32
    requires d[2] == o[1] / 8 && d[3] == o[1] % 8 * 4 + o[2] / 64
    requires d[4] == o[2] % 64 / 2 && d[5] == o[2] % 2 * 16 + o[3] / 16
    requires d[6] == o[3] % 16 * 2 + o[4] / 128 && d[7] == o[4] % 128 / 4
    requires d[8] == o[4] % 4 * 8 + o[5] / 32 && d[9] == o[5] % 32
    ensures InBase(d, 32) && Value(d, 10, 32) == Value(o, 6, 256)
  {
    Cut32(o[0]); Cut8(o[1]); Cut64(o[2]); Cut16(o[3]); Cut128(o[4]); Cut32(o[5]);
    Regrouped(o, d, o[1] % 8, o[2] / 64, o[2] % 2, o[3] / 16, o[3] % 16, o[4] / 128, o[4] % 4, o[5] / 32);
  }

  lemma Regrouped(o: seq<nat>, d: seq<nat>,
      l1: nat, h2: nat, l2: nat, h3: nat, l3: nat, h4: nat, l4: nat, h5: nat)
    requires |o| >= 6 && |d| == 10
    requires o[0] == 32 * d[0] + d[1] && o[1] == 8 * d[2] + l1 && o[2] == 64 * h2 + 2 * d[4] + l2
    requires o[3] == 16 * h3 + l3 && o[4] == 128 * h4 + 4 * d[7] + l4 && o[5] == 32 * h5 + d[9]
    requires d[3] == 4 * l1 + h2 && d[5] == 16 * l2 + h3 && d[6] == 2 * l3 + h4 && d[8] == 8 * l4 + h5
    ensures Value(d, 10, 32) == Value(o, 6, 256)
  {
    TwoMore(o, 0, 256); TwoMore(o, 2, 256); TwoMore(o, 4, 256);
    TwoMore(d, 0, 32); TwoMore(d, 2, 32); TwoMore(d, 4, 32); TwoMore(d, 6, 32); TwoMore(d, 8, 32);
  }

  lemma Cut32(x: nat)
    requires x < 256
    ensures 32 * (x / 32) + x % 32 == x && x / 32 < 8 && x % 32 < 32
  {
  }

  lemma Cut8(x: nat)
    requires x < 256
    ensures 8 * (x / 8) + x % 8 == x && x / 8 < 32 && x % 8 < 8
  {
  }

  lemma Cut16(x: nat)
    requires x < 256
    ensures 16 * (x / 16) + x % 16 == x && x / 16 < 16 && x % 16 < 16
  {
  }

  lemma Cut64(x: nat)
    requires x < 256
    ensures 64 * (x / 64) + 2 * (x % 64 / 2) + x % 2 == x && x / 64 < 4 && x % 64 / 2 < 32 && x % 2 < 2
  {
  }

  lemma Cut128(x: nat)
    requires x < 256
    ensures 128 * (x / 128) + 4 * (x % 128 / 4) + x % 4 == x && x / 128 < 2 && x % 128 / 4 < 32 && x % 4 < 4
  {
  }

  lemma TwoMore(ds: seq<nat>, n: nat, base: nat)
    requires n + 2 <= |ds|
    ensures Value(ds, n + 2, base) == base * (base * Value(ds, n, base) + ds[n]) + ds[n + 1]
    ensures Value(ds, 0, base) == 0
  {
    assert Value(ds, n + 1, base) == base * Value(ds, n, base) + ds[n];
  }
}
