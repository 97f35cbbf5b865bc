/** Connected components of the undirected graph of parent links. */
module Components {
  import opened UnionFind

  ghost predicate Linked<T(!new)>(parent: map<T, T>, a: T, b: T) {
    (a in parent && parent[a] == b) || (b in parent && parent[b] == a)
  }

  ghost predicate IsWalk<T(!new)>(parent: map<T, T>, p: seq<T>, a: T, b: T) {
    && |p| > 0 && p[0] == a && p[|p| - 1] == b
    && forall i :: 0 <= i < |p| - 1 ==> Linked(parent, p[i], p[i + 1])
  }

  ghost predicate Connected<T(!new)>(parent: map<T, T>, a: T, b: T) {
    exists p :: IsWalk(parent, p, a, b)
  }

  lemma Reflexive<T(!new)>(parent: map<T, T>, a: T)
    ensures Connected(parent, a, a)
  {
    assert IsWalk(parent, [a], a, a);
  }

  lemma Step<T(!new)>(parent: map<T, T>, a: T, b: T)
    requires Linked(parent, a, b)
    ensures Connected(parent, a, b)
  {
    assert IsWalk(parent, [a, b], a, b);
  }

  lemma Transitive<T(!new)>(parent: map<T, T>, a: T, b: T, c: T)
    requires Connected(parent, a, b) && Connected(parent, b, c)
    ensures Connected(parent, a, c)
  {
    var p :| IsWalk(parent, p, a, b);
    var q :| IsWalk(parent, q, b, c);
    var r := p + q[1..];
    forall i | 0 <= i < |r| - 1 ensures Linked(parent, r[i], r[i + 1]) {
      if i >= |p| - 1 { assert r[i] == q[i + 1 - |p|] && r[i + 1] == q[i + 2 - |p|]; }
    }
    assert IsWalk(parent, r, a, c);
  }

  lemma Symmetric<T(!new)>(parent: map<T, T>, a: T, b: T)
    requires Connected(parent, a, b)
    ensures Connected(parent, b, a)
  {
    var p :| IsWalk(parent, p, a, b);
    var r := seq(|p|, i requires 0 <= i < |p| => p[|p| - 1 - i]);
    forall i | 0 <= i < |r| - 1 ensures Linked(parent, r[i], r[i + 1]) {
      assert Linked(parent, p[|p| - 2 - i], p[|p| - 1 - i]);
    }
    assert IsWalk(parent, r, b, a);
  }

  /** A labelling that agrees across every link agrees along every walk. */
  lemma {:induction false} SameAlongWalk<T(!new)>(parent: map<T, T>, m: map<T, T>, p: seq<T>, a: T, b: T)
    requires IsWalk(parent, p, a, b) && a in m && Respects(parent, m)
    ensures b in m && m[a] == m[b]
    decreases |p|
  {
    if |p| > 1 {
      assert Linked(parent, p[0], p[1]);
      assert p[0] in parent ==> Settled(parent, m, p[0]);
      assert p[1] in parent ==> Settled(parent, m, p[1]);
      forall i | 0 <= i < |p[1..]| - 1 ensures Linked(parent, p[1..][i], p[1..][i + 1]) {
        assert Linked(parent, p[i + 1], p[i + 2]);
      }
      SameAlongWalk(parent, m, p[1..], p[1], b);
    }
  }

  ghost predicate Settled<T(!new)>(parent: map<T, T>, m: map<T, T>, x: T)
    requires x in parent
  {
    x in m && parent[x] in m && m[x] == m[parent[x]]
  }

  ghost predicate Respects<T(!new)>(parent: map<T, T>, m: map<T, T>) {
    forall x {:trigger Settled(parent, m, x)} :: x in parent ==> Settled(parent, m, x)
  }

  /** m's classes are the connected components. */
  ghost predicate IsComponents<T(!new)>(parent: map<T, T>, m: map<T, T>) {
    forall a, b :: a in m && b in m ==> (m[a] == m[b] <==> Connected(parent, a, b))
  }

  ghost predicate Sound<T(!new)>(parent: map<T, T>, m: map<T, T>) {
    forall a, b :: a in m && b in m && m[a] == m[b] ==> Connected(parent, a, b)
  }

  lemma SoundAndRespects<T(!new)>(parent: map<T, T>, m: map<T, T>)
    requires Sound(parent, m) && Respects(parent, m)
    ensures IsComponents(parent, m)
  {
    forall a, b | a in m && b in m && Connected(parent, a, b) ensures m[a] == m[b] {
      var p :| IsWalk(parent, p, a, b);
      SameAlongWalk(parent, m, p, a, b);
    }
  }

  lemma MergeIsSound<T(!new)>(parent: map<T, T>, m: map<T, T>, x: T)
    requires Sound(parent, m) && x in parent && x in m && parent[x] in m
    ensures Sound(parent, Merged(m, x, parent[x]))
  {
    var y := parent[x];
    var n := Merged(m, x, y);
    Step(parent, x, y);
    Step(parent, y, x);
    forall a, b | a in n && b in n && n[a] == n[b] ensures Connected(parent, a, b) {
      if m[a] == m[b] {
      } else if m[a] == m[x] {
        assert m[b] == m[y];
        Transitive(parent, a, x, y);
        Transitive(parent, a, y, b);
      } else {
        assert m[b] == m[x] && m[a] == m[y];
        Transitive(parent, a, y, x);
        Transitive(parent, a, x, b);
      }
    }
  }

  lemma MergeSettles<T(!new)>(parent: map<T, T>, m: map<T, T>, x: T, y: T)
    requires x in parent && y in parent && x in m && parent[x] in m
    requires y == x || Settled(parent, m, y)
    ensures Settled(parent, Merged(m, x, parent[x]), y)
  {
  }

  /** Registers every node, then unites along every link, each in any order. */
  method Unite<T(==,!new)>(nodes: set<T>, parent: map<T, T>) returns (c: Classes<T>)
    requires parent.Keys <= nodes && parent.Values <= nodes
    ensures fresh(c) && c.Valid() && c.Rep().Keys == nodes
    ensures IsComponents(parent, c.Rep())
  {
    c := Register(nodes);
    ghost var m := c.Rep();
    SingletonsSound(parent, m);
    var todo := parent.Keys;
    while todo != {}
      invariant fresh(c) && c.Valid() && todo <= parent.Keys && m == c.Rep() && m.Keys == nodes
      invariant Sound(parent, m)
      invariant forall x {:trigger Settled(parent, m, x)} :: x in parent && x !in todo ==> Settled(parent, m, x)
      decreases todo
    {
      var id :| id in todo;
      todo := todo - {id};
      assert parent[id] in parent.Values;
      MergeIsSound(parent, m, id);
      c.Union(id, parent[id]);
      ghost var n := Merged(m, id, parent[id]);
      forall x | x in parent && x !in todo ensures Settled(parent, n, x) {
        MergeSettles(parent, m, id, x);
      }
      m := n;
    }
    SoundAndRespects(parent, m);
  }

  lemma SingletonsSound<T(!new)>(parent: map<T, T>, m: map<T, T>)
    requires forall x :: x in m ==> m[x] == x
    ensures Sound(parent, m)
  {
    forall a, b | a in m && b in m && m[a] == m[b] ensures Connected(parent, a, b) { Reflexive(parent, a); }
  }

  method Register<T(==,!new)>(nodes: set<T>) returns (c: Classes<T>)
    ensures fresh(c) && c.Valid() && c.Rep() == map x | x in nodes :: x
  {
    c := new Classes();
    var todo := nodes;
    ghost var m: map<T, T> := map[];
    while todo != {}
      invariant fresh(c) && c.Valid() && todo <= nodes && m == c.Rep() && m.Keys == nodes - todo
      invariant forall x :: x in m ==> m[x] == x
      decreases todo
    {
      var id :| id in todo;
      todo := todo - {id};
      var r := c.Find(id);
      m := m[id := r];
    }
    SameMap(m, map x | x in nodes :: x);
  }
}
