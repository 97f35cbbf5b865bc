/** Strings as the store sees them: byte-wise order and ASCII case folding. */
module Text {
  import Sorting

  /** One letter of strings.ToLower; only ASCII letters fold. */
  function LowerChar(c: char): char {
    if 'A' <= c <= 'Z' then (c as int + 32) as char else c
  }

  function ToLower(s: string): (r: string)
    ensures |r| == |s|
  {
    seq(|s|, i requires 0 <= i < |s| => LowerChar(s[i]))
  }

  predicate IsLower(s: string) {
    ToLower(s) == s
  }

  predicate EqualFold(a: string, b: string) {
    ToLower(a) == ToLower(b)
  }

  lemma LowerIsLower(s: string)
    ensures IsLower(ToLower(s))
  {
    assert ToLower(ToLower(s)) == ToLower(s);
  }

  predicate HasCapital(s: string) {
    exists i :: 0 <= i < |s| && 'A' <= s[i] <= 'Z'
  }

  lemma LowerIffNoCapital(s: string)
    ensures IsLower(s) <==> !HasCapital(s)
  {
    if !HasCapital(s) { assert ToLower(s) == s; }
    if IsLower(s) {
      forall i | 0 <= i < |s| ensures !('A' <= s[i] <= 'Z') { assert ToLower(s)[i] == s[i]; }
    }
  }

  /** The same character, or the same letter in the other case. */
  predicate SameLetter(c: char, d: char) {
    || c == d
    || ('A' <= c <= 'Z' && 'a' <= d <= 'z' && c as int - 'A' as int == d as int - 'a' as int)
    || ('A' <= d <= 'Z' && 'a' <= c <= 'z' && d as int - 'A' as int == c as int - 'a' as int)
  }

  /** Two strings fold together exactly if they differ in the case of letters only. */
  lemma FoldMeaning(a: string, b: string)
    ensures EqualFold(a, b) <==> |a| == |b| && forall i :: 0 <= i < |a| ==> SameLetter(a[i], b[i])
  {
    if EqualFold(a, b) {
      assert |ToLower(a)| == |ToLower(b)|;
      forall i | 0 <= i < |a| ensures SameLetter(a[i], b[i]) { assert ToLower(a)[i] == ToLower(b)[i]; }
    }
    if |a| == |b| && forall i :: 0 <= i < |a| ==> SameLetter(a[i], b[i]) { assert ToLower(a) == ToLower(b); }
  }

  lemma LowerJoined(a: string, b: string)
    ensures IsLower(a + b) <==> IsLower(a) && IsLower(b)
  {
    if IsLower(a + b) {
      forall i | 0 <= i < |a| ensures LowerChar(a[i]) == a[i] { assert ToLower(a + b)[i] == (a + b)[i]; }
      forall i | 0 <= i < |b| ensures LowerChar(b[i]) == b[i] { assert ToLower(a + b)[|a| + i] == (a + b)[|a| + i]; }
      assert ToLower(a) == a && ToLower(b) == b;
    } else {
      assert ToLower(a + b) == ToLower(a) + ToLower(b);
    }
  }

  /** unicode.IsSpace; only ASCII counts. */
  predicate IsSpace(c: char) {
    '\t' <= c <= '\r' || c == ' '
  }

  function TrimLeft(s: string): string {
    if s != "" && IsSpace(s[0]) then TrimLeft(s[1..]) else s
  }

  function TrimRight(s: string): string {
    if s != "" && IsSpace(s[|s| - 1]) then TrimRight(s[..|s| - 1]) else s
  }

  /** strings.TrimSpace. */
  function TrimSpace(s: string): string {
    TrimRight(TrimLeft(s))
  }

  lemma {:induction false} TrimLeftDrops(s: string) returns (n: nat)
    ensures n <= |s| && TrimLeft(s) == s[n..] && (forall k :: 0 <= k < n ==> IsSpace(s[k]))
    ensures TrimLeft(s) != "" ==> !IsSpace(TrimLeft(s)[0])
  {
    n := 0;
    if s != "" && IsSpace(s[0]) {
      n := TrimLeftDrops(s[1..]);
      n := n + 1;
    }
  }

  lemma {:induction false} TrimRightDrops(s: string) returns (n: nat)
    ensures n <= |s| && TrimRight(s) == s[..n] && (forall k :: n <= k < |s| ==> IsSpace(s[k]))
    ensures TrimRight(s) != "" ==> !IsSpace(TrimRight(s)[|TrimRight(s)| - 1])
  {
    n := |s|;
    if s != "" && IsSpace(s[|s| - 1]) { n := TrimRightDrops(s[..|s| - 1]); }
  }

  /** Tab, line feed, vertical tab, form feed, carriage return, and the space itself. */
  lemma SpacesAre(c: char)
    ensures IsSpace(c) <==> c as int in {9, 10, 11, 12, 13, 32}
  {
  }

  /** Trimming takes away spaces at both ends, and all of them. */
  lemma TrimMeaning(s: string) returns (i: nat, j: nat)
    ensures i <= j <= |s| && TrimSpace(s) == s[i..j]
    ensures forall k :: 0 <= k < i || j <= k < |s| ==> IsSpace(s[k])
    ensures i < j ==> !IsSpace(s[i]) && !IsSpace(s[j - 1])
  {
    i := TrimLeftDrops(s);
    var n := TrimRightDrops(s[i..]);
    j := i + n;
    assert s[i..][..n] == s[i..j];
    forall k | j <= k < |s| ensures IsSpace(s[k]) { assert s[i..][k - i] == s[k]; }
    if i < j { assert TrimSpace(s)[0] == s[i] == s[i..][0]; assert TrimSpace(s)[|TrimSpace(s)| - 1] == s[j - 1]; }
  }

  lemma TrimTwice(s: string)
    ensures TrimSpace(TrimSpace(s)) == TrimSpace(s)
  {
    var i, j := TrimMeaning(s);
    if i < j { assert TrimSpace(s)[0] == s[i] && TrimSpace(s)[|TrimSpace(s)| - 1] == s[j - 1]; }
  }

  /** Byte-wise order, the order of bbolt keys and of Go's string comparison. */
  predicate Less(a: string, b: string) {
    if b == "" then false
    else if a == "" then true
    else if a[0] == b[0] then Less(a[1..], b[1..])
    else a[0] < b[0]
  }

  /** Byte-wise order: a is a proper beginning of b, or smaller where they first differ. */
  lemma {:induction false} LessMeaning(a: string, b: string)
    ensures Less(a, b) <==> (a <= b && a != b) || exists k :: DiffersAt(a, b, k) && a[k] < b[k]
  {
    if a != "" && b != "" {
      assert a == [a[0]] + a[1..] && b == [b[0]] + b[1..];
      if a[0] == b[0] {
        LessMeaning(a[1..], b[1..]);
        forall k ensures DiffersAt(a, b, k + 1) <==> DiffersAt(a[1..], b[1..], k) { LaterDifference(a, b, k); }
        if k :| DiffersAt(a, b, k) && a[k] < b[k] { LaterDifference(a, b, k - 1); }
        if k :| DiffersAt(a[1..], b[1..], k) && a[1..][k] < b[1..][k] { LaterDifference(a, b, k); }
      } else {
        assert DiffersAt(a, b, 0);
      }
    }
  }

  predicate DiffersAt(a: string, b: string, k: int) {
    0 <= k < |a| && k < |b| && a[..k] == b[..k] && a[k] != b[k]
  }

  lemma LaterDifference(a: string, b: string, k: int)
    requires a != "" && b != "" && a[0] == b[0]
    ensures DiffersAt(a, b, k + 1) <==> DiffersAt(a[1..], b[1..], k)
  {
    if 0 <= k < |a| - 1 && k < |b| - 1 {
      assert a[..k + 1] == [a[0]] + a[1..][..k] && b[..k + 1] == [b[0]] + b[1..][..k];
      assert a[1..][..k] == a[..k + 1][1..] && b[1..][..k] == b[..k + 1][1..];
    }
  }

  lemma {:induction false} LessIrreflexive(a: string)
    ensures !Less(a, a)
  {
    if a != "" { LessIrreflexive(a[1..]); }
  }

  lemma {:induction false} LessTransitive(a: string, b: string, c: string)
    requires Less(a, b) && Less(b, c)
    ensures Less(a, c)
  {
    if a != "" && a[0] == b[0] == c[0] { LessTransitive(a[1..], b[1..], c[1..]); }
  }

  lemma LessAsymmetric(a: string, b: string)
    requires Less(a, b)
    ensures !Less(b, a)
  {
    if Less(b, a) { LessTransitive(a, b, a); LessIrreflexive(a); }
  }

  lemma {:induction false} LessTotal(a: string, b: string)
    ensures a == b || Less(a, b) || Less(b, a)
  {
    if a != "" && b != "" && a[0] == b[0] {
      LessTotal(a[1..], b[1..]);
      assert a == [a[0]] + a[1..] && b == [b[0]] + b[1..];
    }
  }

  /** Keys that share a prefix are ordered by what follows it. */
  lemma {:induction false} LessAfterPrefix(p: string, a: string, b: string)
    ensures Less(p + a, p + b) <==> Less(a, b)
  {
    if p == "" {
      assert p + a == a && p + b == b;
    } else {
      assert (p + a)[1..] == p[1..] + a && (p + b)[1..] == p[1..] + b;
      LessAfterPrefix(p[1..], a, b);
    }
  }

  /** Between strings of equal length, the first difference decides. */
  lemma {:induction false} LessAtFirstDifference(a: string, b: string, k: nat)
    requires |a| == |b| && k < |a|
    requires a[..k] == b[..k] && a[k] != b[k]
    ensures Less(a, b) <==> a[k] < b[k]
  {
    if k > 0 {
      assert a[0] == a[..k][0] == b[..k][0] == b[0];
      assert a[1..][..k-1] == a[..k][1..] && b[1..][..k-1] == b[..k][1..];
      LessAtFirstDifference(a[1..], b[1..], k - 1);
    }
  }

  lemma LessIsOrder(s: set<string>)
    ensures Sorting.StrictOrderOn(Less, s)
  {
    forall a, b | a in s && b in s
      ensures !Less(a, a) && (a == b || Less(a, b) || Less(b, a))
    { LessIrreflexive(a); LessTotal(a, b); }
    forall a, b, c | a in s && b in s && c in s && Less(a, b) && Less(b, c)
      ensures Less(a, c)
    { LessTransitive(a, b, c); }
  }

  /** The keys of a bucket in cursor order. */
  function Ascending(keys: set<string>): (r: seq<string>)
    ensures Sorting.Lists(r, keys, Less)
  {
    LessIsOrder(keys);
    Sorting.Enumerate(keys, Less)
  }
}
