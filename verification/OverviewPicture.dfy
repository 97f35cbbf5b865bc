/** The contacts, nodes and edges of the report in terms of the stored messages. */
module OverviewPicture {
  import opened Text
  import opened Sorting
  import opened Tally
  import opened Mail
  import opened OverviewScan
  import opened OverviewGraph
  import opened Overview
  import opened OverviewMeaning

  /** A question: whose report, over which declarations, messages and window. */
  datatype Query = Query(me: string, edges: seq<SubEdge<string>>, msgs: seq<Message>, days: int, now: int)

  ghost predicate Reports(r: Report<string>, q: Query, lastRead: map<string, int>) {
    ReportOf(r, q.me, q.days, q.now, q.edges, q.msgs, lastRead)
  }

  ghost function Contacts(q: Query, c: string, x: string): nat {
    |Where(q.msgs, ContactWith(c, x, q.me, q.edges, q.days, q.now))|
  }

  ghost function Mails(q: Query, x: string, y: string): nat {
    |Where(q.msgs, Mailed(x, y, q.me, q.edges, q.days, q.now))|
  }

  ghost function Volume(q: Query, c: string): nat {
    |Where(q.msgs, Received(c, q.days, q.now))| + |Where(q.msgs, SentBy(c, q.days, q.now))|
  }

  /** More mail, or as much and the smaller address. */
  predicate Beats(p: TopContact<string>, n: int, x: string) {
    p.count > n || (p.count == n && Less(p.address, x))
  }

  /** The busiest contacts of c, at most three, the busiest first; who is missing has had no mail
      or is beaten by three. */
  ghost predicate TopSays(list: seq<TopContact<string>>, c: string, q: Query) {
    && |list| <= 3
    && (forall i, j :: 0 <= i < j < |list| ==> Beats(list[i], list[j].count, list[j].address))
    && (forall p :: p in list ==> p.count == Contacts(q, c, p.address) > 0)
    && (forall x :: Contacts(q, c, x) > 0 ==>
         (exists p :: p in list && p.address == x) || (|list| == 3 && Beats(list[2], Contacts(q, c, x), x)))
  }

  lemma TopMeans(list: seq<TopContact<string>>, c: string, q: Query)
    requires c in CoreOf(q.me, q.edges)
    requires IsTop(list, multiset(Events(q.msgs)), CoreOf(q.me, q.edges), WindowStart(q.days, q.now), c, Less)
    ensures TopSays(list, c, q)
  {
    var s, core, lo := multiset(Events(q.msgs)), CoreOf(q.me, q.edges), WindowStart(q.days, q.now);
    forall x ensures Sum(s, OnContact(core, lo, c, x)) == Contacts(q, c, x) {
      ContactCount(q.msgs, q.me, q.edges, q.days, q.now, c, x);
    }
    forall i, j | 0 <= i < j < |list| ensures Beats(list[i], list[j].count, list[j].address) {
      assert ByCount(Less)(list[i], list[j]);
    }
    forall x | Contacts(q, c, x) > 0
      ensures (exists p :: p in list && p.address == x) || (|list| == 3 && Beats(list[2], Contacts(q, c, x), x))
    {
      var p := TopContact(x, Sum(s, OnContact(core, lo, c, x)));
      assert p in list || (|list| == 3 && ByCount(Less)(list[2], p));
    }
  }

  lemma RowContacts(r: Report<string>, q: Query, lastRead: map<string, int>, i: nat)
    requires Reports(r, q, lastRead) && i < |q.edges|
    ensures |r.subs| == |q.edges| && TopSays(r.subs[i].top, ToLower(q.edges[i].address), q)
  {
    assert AllLowered(q.edges)[i] in AllLowered(q.edges);
    assert AllLowered(q.edges)[i].address == ToLower(q.edges[i].address);
    TopMeans(r.subs[i].top, ToLower(q.edges[i].address), q);
  }

  // ---- nodes ----

  /** The contact lists of the reader and of each subordinate. */
  ghost predicate AllTops(tops: map<string, seq<TopContact<string>>>, q: Query) {
    && (forall c :: c in tops <==> IsLower(c) && OneOfUs(c, q.me, q.edges))
    && (forall c :: c in tops ==> TopSays(tops[c], c, q))
  }

  ghost predicate IsListedFor(tops: map<string, seq<TopContact<string>>>, c: string, x: string, n: int) {
    c in tops && exists p :: p in tops[c] && p.address == x && p.count == n
  }

  /** What the lists say of x, one share for each list. */
  ghost predicate SharesOf(share: string -> int, tops: map<string, seq<TopContact<string>>>, x: string) {
    forall c :: IsListedFor(tops, c, x, share(c)) || (share(c) == 0 && !exists n :: IsListedFor(tops, c, x, n))
  }

  /** The reader's node, one for each subordinate, and one for each outside address on some list,
      with the mail it had, or for an outside address the sum of what the lists say. */
  ghost predicate NodeSays(n: Node<string>, tops: map<string, seq<TopContact<string>>>, q: Query) {
    match n.kind
    case Self => n.address == ToLower(q.me) && n.volume == Volume(q, q.me)
    case Sub => (exists e :: e in q.edges && n.address == ToLower(e.address)) && n.volume == Volume(q, n.address)
    case External =>
      && !OneOfUs(n.address, q.me, q.edges) && (exists c, k :: IsListedFor(tops, c, n.address, k))
      && exists share :: SharesOf(share, tops, n.address) && n.volume == Sum(multiset(tops.Keys), share)
  }

  predicate Rank(k: Kind, l: Kind) {
    (k.Self? && !l.Self?) || (k.Sub? && l.External?)
  }

  ghost predicate NodesSay(nodes: seq<Node<string>>, tops: map<string, seq<TopContact<string>>>, q: Query) {
    && AllTops(tops, q) && (forall n :: n in nodes ==> NodeSays(n, tops, q))
    && (forall i, j :: 0 <= i < j < |nodes| ==>
         Rank(nodes[i].kind, nodes[j].kind)
         || (nodes[i].kind == nodes[j].kind && Less(nodes[i].address, nodes[j].address)))
    && nodes != [] && nodes[0].kind.Self?
    && (forall e :: e in q.edges ==> exists n :: n in nodes && n.kind.Sub? && n.address == ToLower(e.address))
    && (forall x, c, k :: !OneOfUs(x, q.me, q.edges) && IsListedFor(tops, c, x, k) ==>
         exists n :: n in nodes && n.kind.External? && n.address == x)
  }

  /** The nodes as the report puts them together. */
  ghost function NodesFor(subs: seq<string>, externals: seq<string>, tops: map<string, seq<TopContact<string>>>,
      q: Query): seq<Node<string>>
  {
    var s, lo := multiset(Events(q.msgs)), WindowStart(q.days, q.now);
    [Node(ToLower(q.me), Self, Traffic(s, ToLower(q.me), lo))] + SubNodes(subs, s, lo)
    + ExternalNodes(externals, tops, CoreOf(q.me, q.edges))
  }

  ghost predicate Parts(subs: seq<string>, externals: seq<string>, tops: map<string, seq<TopContact<string>>>,
      q: Query)
  {
    && AllTops(tops, q) && tops.Keys == CoreOf(q.me, q.edges)
    && Lists(subs, Addresses(AllLowered(q.edges)), Less) && Sorted(externals, Less)
    && (forall x :: x in externals <==> IsExternal(tops, CoreOf(q.me, q.edges), x))
  }

  /** The nodes are these, the reader first, then the subordinates and the outsiders by address. */
  lemma NodesMeaning(r: Report<string>, q: Query, lastRead: map<string, int>)
    returns (tops: map<string, seq<TopContact<string>>>)
    requires Reports(r, q, lastRead) && q.edges != []
    ensures NodesSay(r.nodes, tops, q)
  {
    var subs, externals;
    tops, subs, externals := NodeParts(r, q, lastRead);
    var s, lo := multiset(Events(q.msgs)), WindowStart(q.days, q.now);
    var self := Node(ToLower(q.me), Self, Traffic(s, ToLower(q.me), lo));
    var middle, back := SubNodes(subs, s, lo), ExternalNodes(externals, tops, CoreOf(q.me, q.edges));
    SelfSays(tops, q);
    forall i | 0 <= i < |middle| ensures NodeSays(middle[i], tops, q) { SubSays(tops, q, subs, i); }
    forall i | 0 <= i < |back| ensures NodeSays(back[i], tops, q) { ExternalSays(tops, q, externals, i); }
    InParts(self, middle, back);
    NodesOrdered(self, middle, back, subs, externals);
    SubsShown(middle, subs, q);
    ExternalsShown(back, externals, tops, q);
  }

  lemma InParts<T>(x: T, middle: seq<T>, back: seq<T>)
    ensures forall y :: y in [x] + middle + back <==> y == x || y in middle || y in back
  {
  }

  lemma NodeParts(r: Report<string>, q: Query, lastRead: map<string, int>)
    returns (tops: map<string, seq<TopContact<string>>>, subs: seq<string>, externals: seq<string>)
    requires Reports(r, q, lastRead) && q.edges != []
    ensures Parts(subs, externals, tops, q) && r.nodes == NodesFor(subs, externals, tops, q)
  {
    var core, s, lo := CoreOf(q.me, q.edges), multiset(Events(q.msgs)), WindowStart(q.days, q.now);
    assert AllLowered(q.edges) != [];
    tops, subs, externals :| IsTops(tops, s, core, lo, Less)
      && NodesOk(r.nodes, subs, externals, ToLower(q.me), AllLowered(q.edges), tops, s, core, lo, Less);
    TopsSay(tops, q);
  }

  ghost predicate Labelled(nodes: seq<Node<string>>, kind: Kind, names: seq<string>) {
    |nodes| == |names| && forall i :: 0 <= i < |names| ==> nodes[i].kind == kind && nodes[i].address == names[i]
  }

  lemma NodesOrdered(self: Node<string>, middle: seq<Node<string>>, back: seq<Node<string>>,
      subs: seq<string>, externals: seq<string>)
    requires self.kind.Self? && Labelled(middle, Sub, subs) && Labelled(back, External, externals)
    requires Sorted(subs, Less) && Sorted(externals, Less)
    ensures var nodes := [self] + middle + back;
      forall i, j :: 0 <= i < j < |nodes| ==>
        Rank(nodes[i].kind, nodes[j].kind)
        || (nodes[i].kind == nodes[j].kind && Less(nodes[i].address, nodes[j].address))
  {
    var nodes := [self] + middle + back;
    forall i, j | 0 <= i < j < |nodes|
      ensures Rank(nodes[i].kind, nodes[j].kind)
              || (nodes[i].kind == nodes[j].kind && Less(nodes[i].address, nodes[j].address))
    {
      if 1 <= i && j <= |middle| {
        assert nodes[i] == middle[i - 1] && nodes[j] == middle[j - 1];
        assert Less(subs[i - 1], subs[j - 1]);
      } else if i > |middle| {
        var k := 1 + |middle|;
        assert nodes[i] == back[i - k] && nodes[j] == back[j - k];
        assert Less(externals[i - k], externals[j - k]);
      }
    }
  }

  lemma SubsShown(middle: seq<Node<string>>, subs: seq<string>, q: Query)
    requires Lists(subs, Addresses(AllLowered(q.edges)), Less) && Labelled(middle, Sub, subs)
    ensures forall e :: e in q.edges ==> exists n :: n in middle && n.kind.Sub? && n.address == ToLower(e.address)
  {
    forall e | e in q.edges ensures exists n :: n in middle && n.kind.Sub? && n.address == ToLower(e.address) {
      SubOfEdge(q, ToLower(e.address));
      assert ToLower(e.address) in subs;
      var i :| 0 <= i < |subs| && subs[i] == ToLower(e.address);
      assert middle[i] in middle;
    }
  }

  lemma ExternalsShown(back: seq<Node<string>>, externals: seq<string>, tops: map<string, seq<TopContact<string>>>,
      q: Query)
    requires tops.Keys == CoreOf(q.me, q.edges) && Labelled(back, External, externals) && AllTops(tops, q)
    requires forall x :: x in externals <==> IsExternal(tops, CoreOf(q.me, q.edges), x)
    ensures forall x, c, k :: !OneOfUs(x, q.me, q.edges) && IsListedFor(tops, c, x, k) ==>
      exists n :: n in back && n.kind.External? && n.address == x
  {
    forall x, c, k | !OneOfUs(x, q.me, q.edges) && IsListedFor(tops, c, x, k)
      ensures exists n :: n in back && n.kind.External? && n.address == x
    {
      CoreKeys(x, q);
      assert IsListed(tops[c], x) && x in externals;
      var i :| 0 <= i < |externals| && externals[i] == x;
      assert back[i] in back;
    }
  }

  lemma CoreKeys(c: string, q: Query)
    ensures c in CoreOf(q.me, q.edges) <==> IsLower(c) && OneOfUs(c, q.me, q.edges)
  {
    CoreMeaning(q.me, q.edges, c);
    LowerIsLower(q.me);
    if c in Addresses(AllLowered(q.edges)) {
      var e :| e in AllLowered(q.edges) && e.address == c;
      var i :| 0 <= i < |q.edges| && AllLowered(q.edges)[i] == e;
      LowerIsLower(q.edges[i].address);
    }
  }

  lemma TopsSay(tops: map<string, seq<TopContact<string>>>, q: Query)
    requires IsTops(tops, multiset(Events(q.msgs)), CoreOf(q.me, q.edges), WindowStart(q.days, q.now), Less)
    ensures AllTops(tops, q)
  {
    forall c ensures c in tops <==> IsLower(c) && OneOfUs(c, q.me, q.edges) { CoreKeys(c, q); }
    forall c | c in tops ensures TopSays(tops[c], c, q) { TopMeans(tops[c], c, q); }
  }

  lemma VolumeIs(q: Query, c: string, l: string)
    requires l == ToLower(c)
    ensures Traffic(multiset(Events(q.msgs)), l, WindowStart(q.days, q.now)) == Volume(q, c)
  {
    LowerIsLower(c);
    CountsOf(q.msgs, c, l, q.days, q.now);
  }

  lemma SelfSays(tops: map<string, seq<TopContact<string>>>, q: Query)
    ensures var s, lo := multiset(Events(q.msgs)), WindowStart(q.days, q.now);
      NodeSays(Node(ToLower(q.me), Self, Traffic(s, ToLower(q.me), lo)), tops, q)
  {
    VolumeIs(q, q.me, ToLower(q.me));
  }

  lemma SubOfEdge(q: Query, x: string)
    ensures x in Addresses(AllLowered(q.edges)) <==> exists e :: e in q.edges && x == ToLower(e.address)
  {
    if x in Addresses(AllLowered(q.edges)) {
      var e :| e in AllLowered(q.edges) && e.address == x;
      var i :| 0 <= i < |q.edges| && AllLowered(q.edges)[i] == e;
      assert q.edges[i] in q.edges;
    }
    if e :| e in q.edges && x == ToLower(e.address) {
      var i :| 0 <= i < |q.edges| && q.edges[i] == e;
      assert AllLowered(q.edges)[i] in AllLowered(q.edges);
    }
  }

  lemma SubSays(tops: map<string, seq<TopContact<string>>>, q: Query, subs: seq<string>, i: nat)
    requires Lists(subs, Addresses(AllLowered(q.edges)), Less) && i < |subs|
    ensures NodeSays(SubNodes(subs, multiset(Events(q.msgs)), WindowStart(q.days, q.now))[i], tops, q)
  {
    assert subs[i] in subs;
    SubOfEdge(q, subs[i]);
    var e :| e in q.edges && subs[i] == ToLower(e.address);
    LowerIsLower(e.address);
    VolumeIs(q, subs[i], subs[i]);
  }

  lemma {:induction false} ListedNone<A(!new)>(list: seq<TopContact<A>>, x: A)
    requires forall i :: 0 <= i < |list| ==> list[i].address != x
    ensures Listed(list, x) == 0
  {
    if list != [] { ListedNone(list[..|list| - 1], x); }
  }

  lemma {:induction false} ListedOnce<A(!new)>(list: seq<TopContact<A>>, x: A, k: nat)
    requires k < |list| && list[k].address == x && forall i :: 0 <= i < |list| && i != k ==> list[i].address != x
    ensures Listed(list, x) == list[k].count
  {
    var n := |list| - 1;
    if k == n { ListedNone(list[..n], x); } else { ListedOnce(list[..n], x, k); }
  }

  lemma SharesAre(tops: map<string, seq<TopContact<string>>>, q: Query, x: string)
    requires AllTops(tops, q)
    ensures SharesOf(ListedIn(tops, x), tops, x)
  {
    forall c
      ensures IsListedFor(tops, c, x, ListedIn(tops, x)(c))
              || (ListedIn(tops, x)(c) == 0 && !exists n :: IsListedFor(tops, c, x, n))
    {
      if c in tops { ShareIs(tops[c], c, q, x); }
    }
  }

  lemma ShareIs(list: seq<TopContact<string>>, c: string, q: Query, x: string)
    requires TopSays(list, c, q)
    ensures (exists p :: p in list && p.address == x && p.count == Listed(list, x))
            || (Listed(list, x) == 0 && forall p :: p in list ==> p.address != x)
  {
    forall i, j | 0 <= i < j < |list| ensures list[i].address != list[j].address {
      assert Beats(list[i], list[j].count, list[j].address);
      assert list[i] in list && list[j] in list;
      LessIrreflexive(list[i].address);
    }
    if k :| 0 <= k < |list| && list[k].address == x {
      ListedOnce(list, x, k);
      assert list[k] in list;
    } else {
      ListedNone(list, x);
    }
  }

  /** Contacts are lowercased addresses of messages. */
  lemma ContactLower(q: Query, c: string, x: string)
    requires Contacts(q, c, x) > 0
    ensures IsLower(x)
  {
    var i :| i in Where(q.msgs, ContactWith(c, x, q.me, q.edges, q.days, q.now));
    var m := q.msgs[i];
    assert x == ToLower(m.from) || x == ToLower(m.to[0]);
    LowerIsLower(m.from);
    if m.to != [] { LowerIsLower(m.to[0]); }
  }

  lemma ExternalSays(tops: map<string, seq<TopContact<string>>>, q: Query, externals: seq<string>, i: nat)
    requires AllTops(tops, q) && tops.Keys == CoreOf(q.me, q.edges) && i < |externals|
    requires IsExternal(tops, CoreOf(q.me, q.edges), externals[i])
    ensures NodeSays(ExternalNodes(externals, tops, CoreOf(q.me, q.edges))[i], tops, q)
  {
    var x := externals[i];
    var c :| c in tops && IsListed(tops[c], x);
    var p :| p in tops[c] && p.address == x;
    ContactLower(q, c, x);
    CoreKeys(x, q);
    assert IsListedFor(tops, c, x, p.count);
    SharesAre(tops, q, x);
  }

  // ---- edges ----

  /** Mail both ways in the window, and the latest mail of all time either way. */
  ghost predicate EdgeSays(e: Edge<string>, q: Query) {
    && e.aToB == Mails(q, e.a, e.b) && e.bToA == Mails(q, e.b, e.a)
    && IsLatest(e.lastAt, q.msgs, EverBetween(e.a, e.b, q.me, q.edges))
  }

  ghost predicate Joins(e: Edge<string>, x: string, y: string) {
    (e.a == x && e.b == y) || (e.a == y && e.b == x)
  }

  ghost predicate Drawn(nodes: seq<Node<string>>, x: string) {
    exists n :: n in nodes && n.address == x
  }

  /** One edge for each two nodes with mail between them in the window, in order. */
  lemma EdgesMeaning(r: Report<string>, q: Query, lastRead: map<string, int>)
    requires Reports(r, q, lastRead) && q.edges != []
    ensures forall e :: e in r.edges ==> EdgeSays(e, q) && !Less(e.b, e.a)
    ensures forall x, y :: (exists e :: e in r.edges && Joins(e, x, y)) <==>
      Drawn(r.nodes, x) && Drawn(r.nodes, y) && Mails(q, x, y) + Mails(q, y, x) > 0
    ensures forall i, j :: 0 <= i < j < |r.edges| ==>
      Less(r.edges[i].a, r.edges[j].a) || (r.edges[i].a == r.edges[j].a && Less(r.edges[i].b, r.edges[j].b))
  {
    var core, s, lo := CoreOf(q.me, q.edges), multiset(Events(q.msgs)), WindowStart(q.days, q.now);
    assert AllLowered(q.edges) != [];
    assert EdgesMean(r.edges, s, core, lo, Rendered(r.nodes), Less);
    forall e | e in r.edges ensures EdgeSays(e, q) && !Less(e.b, e.a) { EdgeIs(e, r.edges, r.nodes, q); }
    forall x, y
      ensures (exists e :: e in r.edges && Joins(e, x, y)) <==>
        Drawn(r.nodes, x) && Drawn(r.nodes, y) && Mails(q, x, y) + Mails(q, y, x) > 0
    {
      EdgeBetween(r.edges, r.nodes, q, x, y);
    }
    forall i, j | 0 <= i < j < |r.edges|
      ensures Less(r.edges[i].a, r.edges[j].a) || (r.edges[i].a == r.edges[j].a && Less(r.edges[i].b, r.edges[j].b))
    {
      assert ByPair(Less)(Ends(r.edges)[i], Ends(r.edges)[j]);
    }
  }

  ghost predicate EdgesOf(edges: seq<Edge<string>>, nodes: seq<Node<string>>, q: Query) {
    EdgesMean(edges, multiset(Events(q.msgs)), CoreOf(q.me, q.edges), WindowStart(q.days, q.now), Rendered(nodes), Less)
  }

  ghost predicate TrafficBetween(q: Query, x: string, y: string) {
    HasTraffic(multiset(Events(q.msgs)), CoreOf(q.me, q.edges), WindowStart(q.days, q.now), Less, PairKey(Less)(x, y))
  }

  /** There is traffic under the key of x and y exactly if they mailed. */
  lemma TrafficIs(q: Query, x: string, y: string)
    ensures TrafficBetween(q, x, y) <==> Mails(q, x, y) + Mails(q, y, x) > 0
  {
    var core, s, lo := CoreOf(q.me, q.edges), multiset(Events(q.msgs)), WindowStart(q.days, q.now);
    LessIsTotalOrder();
    forall a, b ensures Sum(s, OnPair(core, lo, a, b)) == Mails(q, a, b) {
      MailCount(q.msgs, q.me, q.edges, q.days, q.now, a, b);
    }
    PairKeyIsUnordered(Less, x, y, y, x);
    if HasTraffic(s, core, lo, Less, PairKey(Less)(x, y)) {
      var a, b :| Sum(s, OnPair(core, lo, a, b)) > 0 && PairKey(Less)(a, b) == PairKey(Less)(x, y);
      PairKeyIsUnordered(Less, a, b, x, y);
    }
  }

  lemma EdgeIs(e: Edge<string>, edges: seq<Edge<string>>, nodes: seq<Node<string>>, q: Query)
    requires EdgesOf(edges, nodes, q) && e in edges
    ensures EdgeSays(e, q) && !Less(e.b, e.a)
  {
    var core, s, lo := CoreOf(q.me, q.edges), multiset(Events(q.msgs)), WindowStart(q.days, q.now);
    assert EdgeMeans(e, s, core, lo, Less);
    MailCount(q.msgs, q.me, q.edges, q.days, q.now, e.a, e.b);
    MailCount(q.msgs, q.me, q.edges, q.days, q.now, e.b, e.a);
    KeyInOrder(e, edges, nodes, q);
    LatestBetween(q, e.a, e.b);
  }

  lemma KeyInOrder(e: Edge<string>, edges: seq<Edge<string>>, nodes: seq<Node<string>>, q: Query)
    requires EdgesOf(edges, nodes, q) && e in edges
    ensures !Less(e.b, e.a)
  {
    var i :| 0 <= i < |edges| && edges[i] == e;
    assert Ends(edges)[i] == (e.a, e.b) && Ends(edges)[i] in Ends(edges);
    LessIsTotalOrder();
    var core, s, lo := CoreOf(q.me, q.edges), multiset(Events(q.msgs)), WindowStart(q.days, q.now);
    var x, y :| Sum(s, OnPair(core, lo, x, y)) > 0 && PairKey(Less)(x, y) == (e.a, e.b);
  }

  lemma LatestBetween(q: Query, a: string, b: string)
    requires !Less(b, a)
    ensures IsLatest(Max0(multiset(Events(q.msgs)), PairAt(CoreOf(q.me, q.edges), PairKey(Less), (a, b))),
              q.msgs, EverBetween(a, b, q.me, q.edges))
  {
    var core := CoreOf(q.me, q.edges);
    LessIsTotalOrder();
    forall m
      ensures PairAt(core, PairKey(Less), (a, b))(EventOf(m)) ==
        if EverBetween(a, b, q.me, q.edges)(m) then m.receivedAt else 0
    {
      BetweenIs(m, q, a, b);
    }
    MaxIsLatest(q.msgs, PairAt(core, PairKey(Less), (a, b)), EverBetween(a, b, q.me, q.edges));
  }

  lemma BetweenIs(m: Message, q: Query, a: string, b: string)
    requires !Less(b, a) && TotalOrder(Less)
    ensures PairAt(CoreOf(q.me, q.edges), PairKey(Less), (a, b))(EventOf(m)) ==
      if EverBetween(a, b, q.me, q.edges)(m) then m.receivedAt else 0
  {
    PairMeaning(m, q.me, q.edges, a, b);
    PairMeaning(m, q.me, q.edges, b, a);
    EventMeaning(m, a);
    var p := PairOf(EventOf(m), CoreOf(q.me, q.edges));
    if p.Some? { PairKeyIsUnordered(Less, p.value.0, p.value.1, a, b); }
  }

  lemma EdgeBetween(edges: seq<Edge<string>>, nodes: seq<Node<string>>, q: Query, x: string, y: string)
    requires EdgesOf(edges, nodes, q)
    ensures (exists e :: e in edges && Joins(e, x, y)) <==>
      Drawn(nodes, x) && Drawn(nodes, y) && Mails(q, x, y) + Mails(q, y, x) > 0
  {
    LessIsTotalOrder();
    var k := PairKey(Less)(x, y);
    TrafficIs(q, x, y);
    forall z ensures z in Rendered(nodes) <==> Drawn(nodes, z) { }
    if e :| e in edges && Joins(e, x, y) {
      KeyInOrder(e, edges, nodes, q);
      var i :| 0 <= i < |edges| && edges[i] == e;
      assert Ends(edges)[i] == (e.a, e.b) && Ends(edges)[i] in Ends(edges);
      assert k == (e.a, e.b);
    }
    if k in Ends(edges) {
      var i :| 0 <= i < |edges| && Ends(edges)[i] == k;
      assert Joins(edges[i], x, y);
    }
  }
}
