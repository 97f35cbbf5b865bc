/** Union-find over a mutable parent map, with path halving. */
module UnionFind {

  /** x's parent is a known element, of smaller rank unless x is its own parent. */
  ghost predicate Climbs<T(!new)>(uf: map<T, T>, rank: map<T, nat>, x: T)
    requires x in uf && uf.Keys == rank.Keys
  {
    uf[x] in uf && (uf[x] != x ==> rank[uf[x]] < rank[x])
  }

  /** The parent map is an acyclic forest. */
  ghost predicate Forest<T(!new)>(uf: map<T, T>, rank: map<T, nat>) {
    && uf.Keys == rank.Keys
    && forall x {:trigger Climbs(uf, rank, x)} :: x in uf ==> Climbs(uf, rank, x)
  }

  ghost function Root<T(!new)>(uf: map<T, T>, rank: map<T, nat>, x: T): (r: T)
    requires Forest(uf, rank) && x in uf
    ensures r in uf && uf[r] == r
    decreases rank[x]
  {
    assert Climbs(uf, rank, x);
    if uf[x] == x then x else Root(uf, rank, uf[x])
  }

  /** The representative of every element: the partition the forest stands for. */
  ghost function RepOf<T(!new)>(uf: map<T, T>, rank: map<T, nat>): (m: map<T, T>)
    requires Forest(uf, rank)
    ensures m.Keys == uf.Keys
  {
    map x | x in uf :: Root(uf, rank, x)
  }

  class Classes<T(==,!new)> {
    var uf: map<T, T>
    ghost var rank: map<T, nat>

    ghost predicate Valid()
      reads this
    {
      Forest(uf, rank)
    }

    ghost function Rep(): (m: map<T, T>)
      requires Valid()
      reads this
      ensures m.Keys == uf.Keys
    {
      RepOf(uf, rank)
    }

    constructor ()
      ensures Valid() && Rep() == map[]
    {
      uf, rank := map[], map[];
    }

    /** Halving the path moves no element to another class; an unknown element
        becomes a class of its own. */
    method Find(start: T) returns (r: T)
      requires Valid()
      modifies this
      ensures Valid()
      ensures r == if start in old(Rep()) then old(Rep())[start] else start
      ensures Rep() == old(Rep())[start := r]
    {
      var x := start;
      while x in uf && uf[x] != x
        invariant Valid() && Rep() == old(Rep())
        invariant if start in uf then x in uf && Rep()[x] == Rep()[start] else x == start
        decreases if x in uf then rank[x] else 0
      {
        var p := uf[x];
        Halve(uf, rank, x);
        uf := uf[x := uf[p]];
        x := uf[p];
      }
      if x in uf {
        RootIsItself(uf, rank, x);
        assert uf == uf[x := x];
      } else {
        Plant(uf, rank, x);
        rank := rank[x := 0];
      }
      uf := uf[x := x];
      r := x;
    }

    /** Exactly the two classes of a and b become one, led by b's representative. */
    method Union(a: T, b: T)
      requires Valid() && a in Rep() && b in Rep()
      modifies this
      ensures Valid()
      ensures Rep() == Merged(old(Rep()), a, b)
    {
      ghost var m := Rep();
      var ra := Find(a);
      SameEntry(m, a);
      var rb := Find(b);
      SameEntry(m, b);
      if ra != rb {
        MergedByRoots(m, a, b);
        RepIsRoot(uf, rank, a);
        RepIsRoot(uf, rank, b);
        Join(ra, rb);
      } else {
        MergedSame(m, a, b);
      }
    }

    method Join(ra: T, rb: T)
      requires Valid() && ra in uf && rb in uf && uf[ra] == ra && uf[rb] == rb && ra != rb
      modifies this
      ensures Valid() && Rep() == Merged(old(Rep()), ra, rb)
    {
      Link(uf, rank, ra, rb);
      uf, rank := uf[ra := rb], Raised(uf, rank, ra, rb);
    }
  }

  lemma SameMap<K, V>(m: map<K, V>, n: map<K, V>)
    requires m.Keys == n.Keys && forall k :: k in m ==> m[k] == n[k]
    ensures m == n
  {
  }

  lemma SameEntry<T(!new)>(m: map<T, T>, a: T)
    requires a in m
    ensures m[a := m[a]] == m
  {
  }

  /** The partition m with the classes of a and b made one. */
  ghost function Merged<T(!new)>(m: map<T, T>, a: T, b: T): (r: map<T, T>)
    requires a in m && b in m
    ensures r.Keys == m.Keys
  {
    map x | x in m :: if m[x] == m[a] then m[b] else m[x]
  }

  lemma MergedSame<T(!new)>(m: map<T, T>, a: T, b: T)
    requires a in m && b in m && m[a] == m[b]
    ensures Merged(m, a, b) == m
  {
  }

  lemma MergedByRoots<T(!new)>(m: map<T, T>, a: T, b: T)
    requires a in m && b in m && m[a] in m && m[b] in m && m[m[a]] == m[a] && m[m[b]] == m[b]
    ensures Merged(m, a, b) == Merged(m, m[a], m[b])
  {
  }

  lemma RepIsRoot<T(!new)>(uf: map<T, T>, rank: map<T, nat>, x: T)
    requires Forest(uf, rank) && x in uf
    ensures var r := RepOf(uf, rank)[x]; r in uf && uf[r] == r && RepOf(uf, rank)[r] == r
  {
  }

  lemma RootIsItself<T(!new)>(uf: map<T, T>, rank: map<T, nat>, x: T)
    requires Forest(uf, rank) && x in uf && uf[x] == x
    ensures RepOf(uf, rank)[x] == x
  {
  }

  /** Pointing x at its grandparent keeps the forest and every representative. */
  lemma Halve<T(!new)>(uf: map<T, T>, rank: map<T, nat>, x: T)
    requires Forest(uf, rank) && x in uf && uf[x] != x
    ensures uf[x] in uf && uf[uf[x]] in uf && uf[uf[x]] != x
    ensures rank[uf[uf[x]]] < rank[x] && RepOf(uf, rank)[uf[uf[x]]] == RepOf(uf, rank)[x]
    ensures Forest(uf[x := uf[uf[x]]], rank) && RepOf(uf[x := uf[uf[x]]], rank) == RepOf(uf, rank)
  {
    assert Climbs(uf, rank, x) && Climbs(uf, rank, uf[x]);
    var h := uf[x := uf[uf[x]]];
    forall y | y in h ensures Climbs(h, rank, y) { assert Climbs(uf, rank, y); }
    forall y | y in uf ensures RepOf(h, rank)[y] == RepOf(uf, rank)[y] { HalvedRoot(uf, rank, x, y); }
    SameMap(RepOf(h, rank), RepOf(uf, rank));
  }

  lemma {:induction false} HalvedRoot<T(!new)>(uf: map<T, T>, rank: map<T, nat>, x: T, y: T)
    requires Forest(uf, rank) && x in uf && uf[x] != x && y in uf
    requires uf[x] in uf && Forest(uf[x := uf[uf[x]]], rank)
    ensures Root(uf[x := uf[uf[x]]], rank, y) == Root(uf, rank, y)
    decreases rank[y]
  {
    assert Climbs(uf, rank, y) && Climbs(uf, rank, uf[y]) && Climbs(uf, rank, uf[uf[y]]);
    if uf[y] != y {
      HalvedRoot(uf, rank, x, if y == x then uf[uf[x]] else uf[y]);
    }
  }

  /** A new element is a tree of its own. */
  lemma Plant<T(!new)>(uf: map<T, T>, rank: map<T, nat>, x: T)
    requires Forest(uf, rank) && x !in uf
    ensures Forest(uf[x := x], rank[x := 0])
    ensures RepOf(uf[x := x], rank[x := 0]) == RepOf(uf, rank)[x := x]
  {
    var u, k := uf[x := x], rank[x := 0];
    forall y | y in u ensures Climbs(u, k, y) { if y != x { assert Climbs(uf, rank, y); } }
    var m := RepOf(uf, rank)[x := x];
    forall y | y in m ensures RepOf(u, k)[y] == m[y] { if y != x { PlantedRoot(uf, rank, x, y); } }
    SameMap(RepOf(u, k), m);
  }

  lemma {:induction false} PlantedRoot<T(!new)>(uf: map<T, T>, rank: map<T, nat>, x: T, y: T)
    requires Forest(uf, rank) && x !in uf && y in uf && Forest(uf[x := x], rank[x := 0])
    ensures Root(uf[x := x], rank[x := 0], y) == Root(uf, rank, y)
    decreases rank[y]
  {
    assert Climbs(uf, rank, y);
    if uf[y] != y { PlantedRoot(uf, rank, x, uf[y]); }
  }

  /** Ranks after the tree of ra is hung under rb: ra's whole tree moves above rb. */
  ghost function Raised<T(!new)>(uf: map<T, T>, rank: map<T, nat>, ra: T, rb: T): (m: map<T, nat>)
    requires Forest(uf, rank) && rb in uf
    ensures m.Keys == uf.Keys
  {
    map x | x in uf :: rank[x] + if RepOf(uf, rank)[x] == ra then rank[rb] + 1 else 0
  }

  lemma Link<T(!new)>(uf: map<T, T>, rank: map<T, nat>, ra: T, rb: T)
    requires Forest(uf, rank) && ra in uf && rb in uf && uf[ra] == ra && uf[rb] == rb && ra != rb
    ensures Forest(uf[ra := rb], Raised(uf, rank, ra, rb))
    ensures RepOf(uf[ra := rb], Raised(uf, rank, ra, rb)) == Merged(RepOf(uf, rank), ra, rb)
  {
    LinkForest(uf, rank, ra, rb);
    var l, k, m := uf[ra := rb], Raised(uf, rank, ra, rb), Merged(RepOf(uf, rank), ra, rb);
    forall y | y in uf ensures RepOf(l, k)[y] == m[y] { LinkedRoot(uf, rank, ra, rb, k, y); }
    SameMap(RepOf(l, k), m);
  }

  lemma LinkForest<T(!new)>(uf: map<T, T>, rank: map<T, nat>, ra: T, rb: T)
    requires Forest(uf, rank) && ra in uf && rb in uf && uf[ra] == ra && uf[rb] == rb && ra != rb
    ensures Forest(uf[ra := rb], Raised(uf, rank, ra, rb))
  {
    var k := Raised(uf, rank, ra, rb);
    forall y | y in uf ensures Climbs(uf[ra := rb], k, y) {
      assert Climbs(uf, rank, y);
      SameRepAbove(uf, rank, y);
    }
  }

  lemma SameRepAbove<T(!new)>(uf: map<T, T>, rank: map<T, nat>, y: T)
    requires Forest(uf, rank) && y in uf
    ensures uf[y] in uf && RepOf(uf, rank)[uf[y]] == RepOf(uf, rank)[y]
  {
    assert Climbs(uf, rank, y);
  }

  lemma {:induction false} LinkedRoot<T(!new)>(uf: map<T, T>, rank: map<T, nat>, ra: T, rb: T,
      k: map<T, nat>, y: T)
    requires Forest(uf, rank) && ra in uf && rb in uf && uf[ra] == ra && uf[rb] == rb && ra != rb
    requires Forest(uf[ra := rb], k) && y in uf
    ensures Root(uf[ra := rb], k, y) == if Root(uf, rank, y) == ra then rb else Root(uf, rank, y)
    decreases rank[y]
  {
    assert Climbs(uf, rank, y);
    if uf[y] != y { LinkedRoot(uf, rank, ra, rb, k, uf[y]); }
  }
}
