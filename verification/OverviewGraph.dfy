/** The table rows, graph nodes and graph edges drawn from a finished scan. */
module OverviewGraph {
  import opened Sorting
  import opened Tally
  import opened OverviewScan

  datatype TopContact<A> = TopContact(address: A, count: int)

  datatype Kind = Self | Sub | External

  datatype Node<A> = Node(address: A, kind: Kind, volume: int)

  datatype Edge<A> = Edge(a: A, b: A, aToB: int, bToA: int, lastAt: int)

  // ---- orders ----

  ghost predicate TotalOrder<A(!new)>(less: (A, A) -> bool) {
    && (forall a :: !less(a, a))
    && (forall a, b :: a == b || less(a, b) || less(b, a))
    && (forall a, b, c :: less(a, b) && less(b, c) ==> less(a, c))
  }

  /** Most mail first; among equals the smaller address. */
  function ByCount<A>(less: (A, A) -> bool): (TopContact<A>, TopContact<A>) -> bool {
    (p: TopContact<A>, q: TopContact<A>) =>
      if p.count != q.count then p.count > q.count else less(p.address, q.address)
  }

  function ByPair<A(==)>(less: (A, A) -> bool): ((A, A), (A, A)) -> bool {
    (p: (A, A), q: (A, A)) => if p.0 != q.0 then less(p.0, q.0) else less(p.1, q.1)
  }

  /** One key for an unordered pair. */
  function PairKey<A>(less: (A, A) -> bool): (A, A) -> (A, A) {
    (a: A, b: A) => if less(b, a) then (b, a) else (a, b)
  }

  lemma CountOrder<A(!new)>(less: (A, A) -> bool, s: set<TopContact<A>>)
    requires TotalOrder(less)
    ensures StrictOrderOn(ByCount(less), s)
  {
    forall p, q | p in s && q in s
      ensures !ByCount(less)(p, p) && (p == q || ByCount(less)(p, q) || ByCount(less)(q, p))
    { assert !less(p.address, p.address); }
    forall p, q, r | p in s && q in s && r in s && ByCount(less)(p, q) && ByCount(less)(q, r)
      ensures ByCount(less)(p, r)
    { }
  }

  lemma PairOrder<A(!new)>(less: (A, A) -> bool, s: set<(A, A)>)
    requires TotalOrder(less)
    ensures StrictOrderOn(ByPair(less), s)
  {
    forall p, q | p in s && q in s
      ensures !ByPair(less)(p, p) && (p == q || ByPair(less)(p, q) || ByPair(less)(q, p))
    { assert !less(p.1, p.1); }
    forall p, q, r | p in s && q in s && r in s && ByPair(less)(p, q) && ByPair(less)(q, r)
      ensures ByPair(less)(p, r)
    { }
  }

  lemma PairKeyIsUnordered<A(!new)>(less: (A, A) -> bool, a: A, b: A, c: A, d: A)
    requires TotalOrder(less)
    ensures PairKey(less)(a, b) == PairKey(less)(c, d) <==> (a == c && b == d) || (a == d && b == c)
  {
  }

  // ---- the three busiest contacts ----

  ghost function ContactSet<A(!new)>(contacts: Table<A>, c: A): set<TopContact<A>> {
    if c in contacts then set x | x in contacts[c] :: TopContact(x, contacts[c][x]) else {}
  }

  ghost function Ranking<A(!new)>(contacts: Table<A>, c: A, less: (A, A) -> bool): (r: seq<TopContact<A>>)
    requires TotalOrder(less)
    ensures Lists(r, ContactSet(contacts, c), ByCount(less))
  {
    CountOrder(less, ContactSet(contacts, c));
    Enumerate(ContactSet(contacts, c), ByCount(less))
  }

  ghost function TopOf<A(!new)>(contacts: Table<A>, c: A, less: (A, A) -> bool): seq<TopContact<A>>
    requires TotalOrder(less)
  {
    var r := Ranking(contacts, c, less);
    if |r| > 3 then r[..3] else r
  }

  method Top<A(==,!new)>(contacts: Table<A>, c: A, less: (A, A) -> bool) returns (list: seq<TopContact<A>>)
    requires TotalOrder(less)
    ensures list == TopOf(contacts, c, less)
  {
    list := [];
    if c in contacts {
      var todo := contacts[c].Keys;
      while todo != {}
        invariant todo <= contacts[c].Keys
        invariant forall p :: p in list <==> p.address in contacts[c] && p.address !in todo
                                                 && p.count == contacts[c][p.address]
        decreases todo
      {
        var x :| x in todo;
        todo := todo - {x};
        list := list + [TopContact(x, contacts[c][x])];
      }
    }
    SameContacts(contacts, c, list);
    CountOrder(less, Elements(list));
    list := Enumerate(Elements(list), ByCount(less));
    ListsUnique(list, Ranking(contacts, c, less), ContactSet(contacts, c), ByCount(less));
    if |list| > 3 { list := list[..3]; }
  }

  lemma SameContacts<A(!new)>(contacts: Table<A>, c: A, list: seq<TopContact<A>>)
    requires forall p :: p in list <==> c in contacts && p.address in contacts[c] && p.count == contacts[c][p.address]
    ensures Elements(list) == ContactSet(contacts, c)
  {
    forall p ensures p in Elements(list) <==> p in ContactSet(contacts, c) {
      if p in list { assert p == TopContact(p.address, contacts[c][p.address]); }
    }
  }

  /** What the list says of the messages s: c's contacts with most mail, in order. A
      contact that is missing has been beaten by three others. */
  ghost predicate IsTop<A(!new)>(list: seq<TopContact<A>>, s: multiset<Event<A>>, core: set<A>, lo: int, c: A,
      less: (A, A) -> bool)
  {
    && |list| <= 3 && Sorted(list, ByCount(less))
    && (forall p :: p in list ==> p.count > 0 && p.count == Sum(s, OnContact(core, lo, c, p.address)))
    && (forall x {:trigger Sum(s, OnContact(core, lo, c, x))} ::
          Sum(s, OnContact(core, lo, c, x)) > 0 ==>
            var p := TopContact(x, Sum(s, OnContact(core, lo, c, x)));
            p in list || (|list| == 3 && ByCount(less)(list[2], p)))
  }

  lemma TopMeaning<A(!new)>(t: Tallies<A>, s: multiset<Event<A>>, core: set<A>, lo: int, pk: (A, A) -> (A, A),
      c: A, less: (A, A) -> bool)
    requires Tallied(t, s, core, lo, pk) && TotalOrder(less)
    ensures IsTop(TopOf(t.contacts, c, less), s, core, lo, c, less)
  {
    var r := Ranking(t.contacts, c, less);
    var list := TopOf(t.contacts, c, less);
    forall p | p in list ensures p.count > 0 && p.count == Sum(s, OnContact(core, lo, c, p.address)) {
      assert p in r;
      assert p in ContactSet(t.contacts, c);
      assert CellsOk(t, s, core, lo, c, p.address);
    }
    forall x | Sum(s, OnContact(core, lo, c, x)) > 0
      ensures var p := TopContact(x, Sum(s, OnContact(core, lo, c, x)));
        p in list || (|list| == 3 && ByCount(less)(list[2], p))
    {
      assert CellsOk(t, s, core, lo, c, x);
      var p := TopContact(x, Sum(s, OnContact(core, lo, c, x)));
      assert p in ContactSet(t.contacts, c);
      var i :| 0 <= i < |r| && r[i] == p;
      if i >= 3 { assert ByCount(less)(r[2], r[i]); } else { assert list[i] == p; }
    }
  }

  // ---- external nodes ----

  /** How often x appears in c's list; nothing when c does not list it. */
  ghost function ListedBy<A(!new)>(contacts: Table<A>, less: (A, A) -> bool, x: A): A -> int
    requires TotalOrder(less)
  {
    c => Listed(TopOf(contacts, c, less), x)
  }

  ghost function Listed<A(!new)>(list: seq<TopContact<A>>, x: A): int {
    if list == [] then 0
    else Listed(list[..|list| - 1], x) + if list[|list| - 1].address == x then list[|list| - 1].count else 0
  }

  ghost function IsListed<A(!new)>(list: seq<TopContact<A>>, x: A): bool {
    exists p :: p in list && p.address == x
  }

  /** vol holds the external addresses that the core addresses in done list, with the
      sum of what those lists say. */
  ghost predicate VolumesOk<A(!new)>(vol: map<A, int>, core: set<A>, done: set<A>, contacts: Table<A>,
      less: (A, A) -> bool)
    requires TotalOrder(less)
  {
    && (forall x :: x in vol <==> x !in core && exists c :: c in done && IsListed(TopOf(contacts, c, less), x))
    && (forall x :: x !in core ==> Volume(vol, x) == Sum(multiset(done), ListedBy(contacts, less, x)))
  }

  method Externals<A(==,!new)>(core: set<A>, contacts: Table<A>, less: (A, A) -> bool) returns (vol: map<A, int>)
    requires TotalOrder(less)
    ensures VolumesOk(vol, core, core, contacts, less)
  {
    vol := map[];
    var todo := core;
    ghost var done: set<A> := {};
    assert multiset(done) == multiset{};
    while todo != {}
      invariant done !! todo && done + todo == core
      invariant VolumesOk(vol, core, done, contacts, less)
      decreases todo
    {
      var c :| c in todo;
      todo := todo - {c};
      var list := Top(contacts, c, less);
      ghost var before := vol;
      vol := AddListed(core, vol, list);
      AddVolumes(before, vol, core, done, contacts, less, c);
      done := done + {c};
    }
  }

  lemma AddVolumes<A(!new)>(vol: map<A, int>, next: map<A, int>, core: set<A>, done: set<A>, contacts: Table<A>,
      less: (A, A) -> bool, c: A)
    requires TotalOrder(less) && VolumesOk(vol, core, done, contacts, less) && c !in done
    requires forall x :: x in next <==> x in vol || (x !in core && IsListed(TopOf(contacts, c, less), x))
    requires forall x :: x !in core ==> Volume(next, x) == Volume(vol, x) + Listed(TopOf(contacts, c, less), x)
    ensures VolumesOk(next, core, done + {c}, contacts, less)
  {
    assert multiset(done + {c}) == multiset(done) + multiset{c};
    forall x | x !in core ensures Volume(next, x) == Sum(multiset(done + {c}), ListedBy(contacts, less, x)) {
      SumAdd(multiset(done), ListedBy(contacts, less, x), c);
    }
  }

  ghost function Volume<A(!new)>(vol: map<A, int>, x: A): int {
    if x in vol then vol[x] else 0
  }

  method AddListed<A(==,!new)>(core: set<A>, vol0: map<A, int>, list: seq<TopContact<A>>) returns (vol: map<A, int>)
    ensures forall x :: x in vol <==> x in vol0 || (x !in core && IsListed(list, x))
    ensures forall x :: x !in core ==> Volume(vol, x) == Volume(vol0, x) + Listed(list, x)
  {
    vol := vol0;
    for i := 0 to |list|
      invariant forall x :: x in vol <==> x in vol0 || (x !in core && IsListed(list[..i], x))
      invariant forall x :: x !in core ==> Volume(vol, x) == Volume(vol0, x) + Listed(list[..i], x)
    {
      assert list[..i + 1][..i] == list[..i];
      assert forall p :: p in list[..i + 1] <==> p in list[..i] || p == list[i];
      var x := list[i].address;
      if x !in core {
        vol := vol[x := (if x in vol then vol[x] else 0) + list[i].count];
      }
    }
    assert list[..|list|] == list;
  }

  // ---- edges ----

  /** The keys of all pairs with traffic in the window. */
  ghost predicate IsEdgeKeys<A(!new)>(keys: set<(A, A)>, dir: Table<A>, less: (A, A) -> bool) {
    && (forall x, y :: x in dir && y in dir[x] ==> PairKey(less)(x, y) in keys)
    && (forall k :: k in keys ==> exists x, y :: x in dir && y in dir[x] && PairKey(less)(x, y) == k)
  }

  method EdgeKeys<A(==,!new)>(dir: Table<A>, less: (A, A) -> bool) returns (keys: set<(A, A)>)
    ensures IsEdgeKeys(keys, dir, less)
  {
    keys := {};
    var froms := dir.Keys;
    while froms != {}
      invariant froms <= dir.Keys
      invariant forall x, y :: x in dir && x !in froms && y in dir[x] ==> PairKey(less)(x, y) in keys
      invariant forall k :: k in keys ==> exists x, y :: x in dir && y in dir[x] && PairKey(less)(x, y) == k
      decreases froms
    {
      var from :| from in froms;
      froms := froms - {from};
      keys := keys + set to | to in dir[from] :: PairKey(less)(from, to);
    }
  }

  /** Edges between rendered nodes, in key order. */
  method Edges<A(==,!new)>(t: Tallies<A>, rendered: set<A>, less: (A, A) -> bool) returns (edges: seq<Edge<A>>)
    requires TotalOrder(less)
    ensures EdgesOk(edges, t, rendered, less)
  {
    var keys := EdgeKeys(t.dir, less);
    PairOrder(less, keys);
    var sorted := Enumerate(keys, ByPair(less));
    edges := [];
    for i := 0 to |sorted|
      invariant Ends(edges) == Kept(sorted[..i], rendered)
      invariant forall e :: e in edges ==> EdgeOk(e, t)
    {
      var k := sorted[i];
      assert sorted[..i + 1][..i] == sorted[..i];
      if k.0 in rendered && k.1 in rendered {
        edges := edges + [Edge(k.0, k.1, At(t.dir, k.0, k.1), At(t.dir, k.1, k.0), Latest(t.last, k))];
      }
    }
    assert sorted[..|sorted|] == sorted;
    KeptIsListing(edges, t, rendered, less, keys, sorted);
  }

  ghost function Ends<A(!new)>(edges: seq<Edge<A>>): (r: seq<(A, A)>)
    ensures |r| == |edges|
  {
    seq(|edges|, i requires 0 <= i < |edges| => (edges[i].a, edges[i].b))
  }

  ghost function Kept<A(!new)>(ks: seq<(A, A)>, rendered: set<A>): seq<(A, A)> {
    if ks == [] then [] else
      var k := ks[|ks| - 1];
      Kept(ks[..|ks| - 1], rendered) + if k.0 in rendered && k.1 in rendered then [k] else []
  }

  ghost predicate EdgeOk<A(!new)>(e: Edge<A>, t: Tallies<A>) {
    e.aToB == At(t.dir, e.a, e.b) && e.bToA == At(t.dir, e.b, e.a) && e.lastAt == Latest(t.last, (e.a, e.b))
  }

  /** One edge per unordered pair of rendered nodes with traffic, in ascending order. */
  ghost predicate EdgesOk<A(!new)>(edges: seq<Edge<A>>, t: Tallies<A>, rendered: set<A>, less: (A, A) -> bool) {
    && Sorted(Ends(edges), ByPair(less))
    && (forall e :: e in edges ==> EdgeOk(e, t))
    && (forall k :: k in Ends(edges) <==>
          k.0 in rendered && k.1 in rendered &&
          exists x, y :: x in t.dir && y in t.dir[x] && PairKey(less)(x, y) == k)
  }

  lemma {:induction false} KeptMembers<A(!new)>(ks: seq<(A, A)>, rendered: set<A>, less: (A, A) -> bool)
    requires Sorted(ks, ByPair(less))
    ensures Sorted(Kept(ks, rendered), ByPair(less))
    ensures forall k :: k in Kept(ks, rendered) <==> k in ks && k.0 in rendered && k.1 in rendered
  {
    if ks != [] {
      var init, k := ks[..|ks| - 1], ks[|ks| - 1];
      KeptMembers(init, rendered, less);
      assert ks == init + [k];
      var r := Kept(init, rendered);
      forall i, j | 0 <= i < j < |Kept(ks, rendered)|
        ensures ByPair(less)(Kept(ks, rendered)[i], Kept(ks, rendered)[j])
      {
        if j == |r| { assert r[i] in init; }
      }
    }
  }

  lemma KeptIsListing<A(!new)>(edges: seq<Edge<A>>, t: Tallies<A>, rendered: set<A>, less: (A, A) -> bool,
      keys: set<(A, A)>, sorted: seq<(A, A)>)
    requires Ends(edges) == Kept(sorted, rendered) && Lists(sorted, keys, ByPair(less))
    requires forall e :: e in edges ==> EdgeOk(e, t)
    requires IsEdgeKeys(keys, t.dir, less)
    ensures EdgesOk(edges, t, rendered, less)
  {
    KeptMembers(sorted, rendered, less);
  }
}
