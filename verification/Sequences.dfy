/** Facts about taking a sequence apart. */
module Sequences {

  lemma TakeOne<T>(s: seq<T>, i: nat)
    requires i < |s|
    ensures s[..i + 1] == s[..i] + [s[i]]
  {
  }

  lemma TakeAll<T>(s: seq<T>)
    ensures s[..|s|] == s
  {
  }

  lemma DropOne<T>(s: seq<T>, i: nat)
    requires i < |s|
    ensures s[i..] == [s[i]] + s[i + 1..] && s[i..][1..] == s[i + 1..]
  {
  }

  lemma InSnoc<T>(s: seq<T>, x: T)
    ensures forall y :: y in s + [x] <==> y in s || y == x
  {
  }

  lemma TakeInit<T>(s: seq<T>, x: T)
    ensures (s + [x])[..|s + [x]| - 1] == s
  {
  }

  lemma LastIn<T>(s: seq<T>)
    requires s != []
    ensures forall x :: x in s <==> x in s[..|s| - 1] || x == s[|s| - 1]
  {
  }

  lemma Assoc<T>(a: seq<T>, b: seq<T>, c: seq<T>)
    ensures a + b + c == a + (b + c)
  {
  }

  lemma SliceOne<T>(s: seq<T>, from: nat, i: nat)
    requires from <= i < |s|
    ensures s[from..i + 1] == s[from..i] + [s[i]]
  {
  }

  lemma TwoOf<T>(a: T, b: T)
    ensures [] + [a] == [a] && [a] + [b] == [a, b]
    ensures forall x :: x in [a, b] <==> x == a || x == b
  {
  }
}
