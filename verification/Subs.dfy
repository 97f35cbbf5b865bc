/** The graph of subordinate accounts, kept under keys that join both addresses. */
module Subs {
  import opened Text
  import opened Sorting
  import opened Cursor
  import opened Sequences

  const NUL: char := '\0'

  datatype SubRecord = SubRecord(scope: string, createdAt: int)

  predicate NulFree(s: string) {
    NUL !in s
  }

  function SubKey(superior: string, subordinate: string): string {
    ToLower(superior) + [NUL] + ToLower(subordinate)
  }

  /** strings.IndexByte(key, 0). */
  function IndexOfNul(key: string): (i: int)
    ensures if NulFree(key) then i == -1 else 0 <= i < |key| && key[i] == NUL && NulFree(key[..i])
  {
    if key == "" then -1
    else if key[0] == NUL then 0
    else
      var i := IndexOfNul(key[1..]);
      assert i >= 0 ==> key[..i + 1] == [key[0]] + key[1..][..i];
      assert key == [key[0]] + key[1..];
      if i < 0 then -1 else i + 1
  }

  function SplitSubKey(key: string): (string, string) {
    var i := IndexOfNul(key);
    if i >= 0 then (key[..i], key[i + 1..]) else (key, "")
  }

  lemma LowerNulFree(s: string)
    ensures NulFree(ToLower(s)) <==> NulFree(s)
  {
    if NUL in s {
      var i :| 0 <= i < |s| && s[i] == NUL;
      assert ToLower(s)[i] == NUL;
    }
  }

  /** Splitting undoes joining; only the first address has to be free of NUL. */
  lemma SplitInvertsJoin(superior: string, subordinate: string)
    requires NulFree(superior)
    ensures SplitSubKey(SubKey(superior, subordinate)) == (ToLower(superior), ToLower(subordinate))
  {
    LowerNulFree(superior);
    FirstNul(ToLower(superior), ToLower(subordinate));
  }

  lemma FirstNul(a: string, b: string)
    requires NulFree(a)
    ensures SplitSubKey(a + [NUL] + b) == (a, b)
  {
    var key := a + [NUL] + b;
    assert key[|a|] == NUL;
    var i := IndexOfNul(key);
    assert i >= |a| by { forall j | 0 <= j < |a| ensures key[j] != NUL { assert key[j] == a[j]; } }
    assert i <= |a| by { forall j | |a| < j < |key| ensures !NulFree(key[..j]) { assert key[..j][|a|] == NUL; } }
    assert key[..|a|] == a && key[|a| + 1..] == b;
  }

  lemma JoinInjective(a: string, b: string, c: string, d: string)
    requires NulFree(a) && NulFree(c) && SubKey(a, b) == SubKey(c, d)
    ensures EqualFold(a, c) && EqualFold(b, d)
  {
    SplitInvertsJoin(a, b);
    SplitInvertsJoin(c, d);
  }

  // ---- the three queries ----

  predicate IsSubordinate(subs: map<string, SubRecord>, superior: string, subordinate: string) {
    SubKey(superior, subordinate) in subs
  }

  /** Every key joins two NUL-free lowercase addresses. */
  ghost predicate ValidSubs(subs: map<string, SubRecord>) {
    forall k :: k in subs ==> Joined(k)
  }

  ghost predicate Joined(k: string) {
    exists a, b :: NulFree(a) && NulFree(b) && IsLower(a) && IsLower(b) && k == SubKey(a, b)
  }

  predicate HasSuffix(k: string, suffix: string) {
    |suffix| <= |k| && k[|k| - |suffix|..] == suffix
  }

  /** The prefix of the superior's keys. */
  function Under(superior: string): string {
    ToLower(superior) + [NUL]
  }

  /** Scans the superior's prefix. */
  method SubordinatesOf(subs: map<string, SubRecord>, superior: string) returns (out: seq<string>)
    requires ValidSubs(subs) && NulFree(superior)
    ensures forall a :: a in out <==> IsLower(a) && IsSubordinate(subs, superior, a)
    ensures Sorted(out, Less)
  {
    out := Scan(subs.Keys, Under(superior));
    forall a ensures a in out <==> IsLower(a) && IsSubordinate(subs, superior, a) {
      UnderMeaning(subs, superior, a);
      assert a in out <==> a in Tails(subs.Keys, Under(superior));
    }
  }

  lemma UnderMeaning(subs: map<string, SubRecord>, superior: string, a: string)
    requires ValidSubs(subs) && NulFree(superior)
    ensures a in Tails(subs.Keys, Under(superior)) <==> IsLower(a) && IsSubordinate(subs, superior, a)
  {
    LowerNulFree(superior);
    if a in Tails(subs.Keys, Under(superior)) {
      var k :| k in subs && Under(superior) <= k && k[|Under(superior)|..] == a;
      assert k == ToLower(superior) + [NUL] + a;
      FirstNul(ToLower(superior), a);
      assert Joined(k);
      var x, y :| NulFree(x) && NulFree(y) && IsLower(x) && IsLower(y) && k == SubKey(x, y);
      SplitInvertsJoin(x, y);
    }
    if IsLower(a) && IsSubordinate(subs, superior, a) {
      var k := SubKey(superior, a);
      assert k == Under(superior) + a;
      assert Under(superior) <= k && k[|Under(superior)|..] == a;
    }
  }

  /** The superiors in the keys that end in the suffix. */
  function Matches(keys: seq<string>, suffix: string): seq<string> {
    if keys == [] then []
    else
      var k := keys[|keys| - 1];
      Matches(keys[..|keys| - 1], suffix) + if HasSuffix(k, suffix) then [SplitSubKey(k).0] else []
  }

  lemma {:induction false} MatchesMeaning(keys: seq<string>, suffix: string, a: string)
    ensures a in Matches(keys, suffix) <==> exists k :: k in keys && HasSuffix(k, suffix) && SplitSubKey(k).0 == a
  {
    if keys != [] {
      var rest, k := keys[..|keys| - 1], keys[|keys| - 1];
      MatchesMeaning(rest, suffix, a);
      InSnoc(rest, k);
      assert keys == rest + [k];
    }
  }

  lemma MatchesNext(keys: seq<string>, suffix: string, i: nat)
    requires i < |keys|
    ensures Matches(keys[..i + 1], suffix) ==
      Matches(keys[..i], suffix) + if HasSuffix(keys[i], suffix) then [SplitSubKey(keys[i]).0] else []
  {
    TakeOne(keys, i);
    assert keys[..i + 1][..i] == keys[..i];
  }

  /** Scans all keys for those that end in the subordinate's address. */
  method SuperiorsOf(subs: map<string, SubRecord>, subordinate: string) returns (out: seq<string>)
    requires ValidSubs(subs) && NulFree(subordinate)
    ensures forall a :: a in out <==> IsLower(a) && NulFree(a) && IsSubordinate(subs, a, subordinate)
    ensures forall i, j :: 0 <= i < j < |out| ==> out[i] != out[j]
  {
    var keys := Ascending(subs.Keys);
    var suffix := [NUL] + ToLower(subordinate);
    out := [];
    for i := 0 to |keys|
      invariant out == Matches(keys[..i], suffix)
    {
      MatchesNext(keys, suffix, i);
      if HasSuffix(keys[i], suffix) {
        out := out + [SplitSubKey(keys[i]).0];
      }
    }
    TakeAll(keys);
    LessIsOrder(subs.Keys);
    ListsDistinct(keys, subs.Keys, Less);
    MatchesDistinct(keys, subordinate);
    forall a ensures a in out <==> IsLower(a) && NulFree(a) && IsSubordinate(subs, a, subordinate) {
      SuffixMeaning(subs, keys, subordinate, a);
    }
  }

  /** A superior is listed once: its key is determined by both addresses. */
  lemma {:induction false} MatchesDistinct(keys: seq<string>, subordinate: string)
    requires NulFree(subordinate) && (forall k :: k in keys ==> Joined(k))
    requires forall i, j :: 0 <= i < j < |keys| ==> keys[i] != keys[j]
    ensures var out := Matches(keys, [NUL] + ToLower(subordinate));
      forall i, j :: 0 <= i < j < |out| ==> out[i] != out[j]
  {
    if keys != [] {
      var rest, k := keys[..|keys| - 1], keys[|keys| - 1];
      MatchesDistinct(rest, subordinate);
      var suffix := [NUL] + ToLower(subordinate);
      if HasSuffix(k, suffix) {
        assert k !in rest;
        NotListedTwice(rest, k, subordinate);
        SnocDistinct(Matches(rest, suffix), SplitSubKey(k).0);
      }
    }
  }

  lemma NotListedTwice(rest: seq<string>, k: string, subordinate: string)
    requires NulFree(subordinate) && (forall l :: l in rest ==> Joined(l)) && Joined(k) && k !in rest
    requires HasSuffix(k, [NUL] + ToLower(subordinate))
    ensures SplitSubKey(k).0 !in Matches(rest, [NUL] + ToLower(subordinate))
  {
    var suffix := [NUL] + ToLower(subordinate);
    MatchesMeaning(rest, suffix, SplitSubKey(k).0);
    SuffixSplits(k, subordinate);
    forall l | l in rest && HasSuffix(l, suffix) ensures SplitSubKey(l).0 != SplitSubKey(k).0 {
      SuffixSplits(l, subordinate);
    }
  }

  lemma SnocDistinct<T>(s: seq<T>, x: T)
    requires x !in s && forall i, j :: 0 <= i < j < |s| ==> s[i] != s[j]
    ensures var t := s + [x]; forall i, j :: 0 <= i < j < |t| ==> t[i] != t[j]
  {
  }

  lemma SuffixMeaning(subs: map<string, SubRecord>, keys: seq<string>, subordinate: string, a: string)
    requires ValidSubs(subs) && NulFree(subordinate) && (forall k :: k in keys <==> k in subs)
    ensures a in Matches(keys, [NUL] + ToLower(subordinate)) <==>
      IsLower(a) && NulFree(a) && IsSubordinate(subs, a, subordinate)
  {
    var suffix := [NUL] + ToLower(subordinate);
    MatchesMeaning(keys, suffix, a);
    forall k | k in keys && HasSuffix(k, suffix) && SplitSubKey(k).0 == a
      ensures IsLower(a) && NulFree(a) && IsSubordinate(subs, a, subordinate)
    {
      assert Joined(k);
      SuffixSplits(k, subordinate);
    }
    if IsLower(a) && NulFree(a) && IsSubordinate(subs, a, subordinate) {
      KeyHasSuffix(a, subordinate);
      assert SubKey(a, subordinate) in keys;
    }
  }

  lemma KeyHasSuffix(a: string, subordinate: string)
    requires NulFree(a)
    ensures HasSuffix(SubKey(a, subordinate), [NUL] + ToLower(subordinate))
    ensures SplitSubKey(SubKey(a, subordinate)).0 == ToLower(a)
  {
    SplitInvertsJoin(a, subordinate);
    assert SubKey(a, subordinate) == ToLower(a) + ([NUL] + ToLower(subordinate));
  }

  /** The separator is the only NUL. */
  lemma OneNul(x: string, y: string, at: int)
    requires NulFree(x) && NulFree(y) && 0 <= at < |x + [NUL] + y| && (x + [NUL] + y)[at] == NUL
    ensures at == |x|
  {
  }

  lemma SuffixSplits(k: string, subordinate: string)
    requires Joined(k) && NulFree(subordinate) && HasSuffix(k, [NUL] + ToLower(subordinate))
    ensures var a := SplitSubKey(k).0; IsLower(a) && NulFree(a) && k == SubKey(a, subordinate)
  {
    var x, y :| NulFree(x) && NulFree(y) && IsLower(x) && IsLower(y) && k == SubKey(x, y);
    SplitInvertsJoin(x, y);
    LowerNulFree(subordinate);
    var s := ToLower(subordinate);
    var at := |k| - |s| - 1;
    assert k[at] == NUL by { assert k[at..][0] == NUL; }
    assert k == x + [NUL] + y;
    assert at == |x| by { OneNul(x, y, at); }
    assert k[at + 1..] == k[at..][1..] == s && k[|x| + 1..] == y;
  }
}
