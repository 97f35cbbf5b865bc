/** The management overview: a table of subordinates and a graph of who mails whom. */
module Overview {
  import opened Wrappers
  import opened Text
  import opened Sorting
  import opened Tally
  import opened Mail
  import opened OverviewScan
  import opened OverviewGraph

  datatype SubEdge<A> = SubEdge(address: A, scope: string, createdAt: int, signature: string)

  datatype Row<A> = Row(
    address: A, signature: string, lastInAt: int, lastOutAt: int, countIn: int, countOut: int,
    avgLenIn: int, avgLenOut: int, top: seq<TopContact<A>>, lastReadAt: int)

  datatype Report<A> = Report(windowDays: int, subs: seq<Row<A>>, nodes: seq<Node<A>>, edges: seq<Edge<A>>)

  // ---- what a report says of the messages s ----

  function Mean(sum: int, count: int): int {
    if count > 0 then sum / count else 0
  }

  ghost predicate RowOk<A(!new)>(r: Row<A>, e: SubEdge<A>, s: multiset<Event<A>>, core: set<A>, lo: int,
      less: (A, A) -> bool, lastRead: map<A, int>) {
    var a := AccOf(s, e.address, lo);
    && r.address == e.address && r.signature == e.signature
    && r.lastInAt == a.lastIn && r.lastOutAt == a.lastOut && r.countIn == a.countIn && r.countOut == a.countOut
    && r.avgLenIn == Mean(a.sumIn, a.countIn) && r.avgLenOut == Mean(a.sumOut, a.countOut)
    && IsTop(r.top, s, core, lo, e.address, less)
    && r.lastReadAt == Latest(lastRead, e.address)
  }

  ghost function Traffic<A(!new)>(s: multiset<Event<A>>, c: A, lo: int): int {
    Sum(s, Got(c, lo)) + Sum(s, Sent(c, lo))
  }

  /** The three busiest contacts of every core address. */
  ghost predicate IsTops<A(!new)>(tops: map<A, seq<TopContact<A>>>, s: multiset<Event<A>>, core: set<A>, lo: int,
      less: (A, A) -> bool)
  {
    tops.Keys == core && forall c :: c in core ==> IsTop(tops[c], s, core, lo, c, less)
  }

  ghost function ListedIn<A(!new)>(tops: map<A, seq<TopContact<A>>>, x: A): A -> int {
    c => if c in tops then Listed(tops[c], x) else 0
  }

  ghost predicate IsExternal<A(!new)>(tops: map<A, seq<TopContact<A>>>, core: set<A>, x: A) {
    x !in core && exists c :: c in core && c in tops && IsListed(tops[c], x)
  }

  /** The reader, then the subordinates, then every outside address that some core address
      lists among its top three, weighted by all the lists it is on. */
  ghost predicate NodesOk<A(!new)>(nodes: seq<Node<A>>, subs: seq<A>, externals: seq<A>, me: A, edges: seq<SubEdge<A>>,
      tops: map<A, seq<TopContact<A>>>, s: multiset<Event<A>>, core: set<A>, lo: int, less: (A, A) -> bool) {
    && Lists(subs, Addresses(edges), less)
    && Sorted(externals, less)
    && (forall x :: x in externals <==> IsExternal(tops, core, x))
    && nodes == [Node(me, Self, Traffic(s, me, lo))] + SubNodes(subs, s, lo) + ExternalNodes(externals, tops, core)
  }

  ghost function SubNodes<A(!new)>(subs: seq<A>, s: multiset<Event<A>>, lo: int): seq<Node<A>> {
    seq(|subs|, i requires 0 <= i < |subs| => Node(subs[i], Sub, Traffic(s, subs[i], lo)))
  }

  ghost function ExternalNodes<A(!new)>(externals: seq<A>, tops: map<A, seq<TopContact<A>>>,
      core: set<A>): seq<Node<A>>
  {
    seq(|externals|, i requires 0 <= i < |externals| =>
      Node(externals[i], External, Sum(multiset(core), ListedIn(tops, externals[i]))))
  }

  ghost function Addresses<A(!new)>(edges: seq<SubEdge<A>>): set<A> {
    set e | e in edges :: e.address
  }

  ghost function Rendered<A(!new)>(nodes: seq<Node<A>>): set<A> {
    set n | n in nodes :: n.address
  }

  /** Window counts both ways and the latest time of all, for each pair of rendered nodes
      that had traffic in the window. */
  ghost predicate EdgesMean<A(!new)>(edges: seq<Edge<A>>, s: multiset<Event<A>>, core: set<A>, lo: int,
      rendered: set<A>,
      less: (A, A) -> bool) {
    && Sorted(Ends(edges), ByPair(less))
    && (forall e :: e in edges ==> EdgeMeans(e, s, core, lo, less))
    && (forall k :: k in Ends(edges) <==> k.0 in rendered && k.1 in rendered && HasTraffic(s, core, lo, less, k))
  }

  ghost predicate EdgeMeans<A(!new)>(e: Edge<A>, s: multiset<Event<A>>, core: set<A>, lo: int, less: (A, A) -> bool) {
    && e.aToB == Sum(s, OnPair(core, lo, e.a, e.b))
    && e.bToA == Sum(s, OnPair(core, lo, e.b, e.a))
    && e.lastAt == Max0(s, PairAt(core, PairKey(less), (e.a, e.b)))
  }

  ghost predicate HasTraffic<A(!new)>(s: multiset<Event<A>>, core: set<A>, lo: int, less: (A, A) -> bool, k: (A, A)) {
    exists x, y {:trigger OnPair(core, lo, x, y)} :: Sum(s, OnPair(core, lo, x, y)) > 0 && PairKey(less)(x, y) == k
  }

  ghost predicate HasNodes<A(!new)>(nodes: seq<Node<A>>, me: A, edges: seq<SubEdge<A>>, s: multiset<Event<A>>,
      core: set<A>,
      lo: int, less: (A, A) -> bool) {
    exists tops, subs, externals ::
      IsTops(tops, s, core, lo, less) && NodesOk(nodes, subs, externals, me, edges, tops, s, core, lo, less)
  }

  ghost predicate IsReport<A(!new)>(r: Report<A>, me: A, days: int, edges: seq<SubEdge<A>>, s: multiset<Event<A>>,
      lo: int,
      less: (A, A) -> bool, lastRead: map<A, int>) {
    var core := {me} + Addresses(edges);
    && r.windowDays == days
    && if edges == [] then r.subs == [] && r.nodes == [] && r.edges == [] else
       && |r.subs| == |edges|
       && (forall i :: 0 <= i < |edges| ==> RowOk(r.subs[i], edges[i], s, core, lo, less, lastRead))
       && HasNodes(r.nodes, me, edges, s, core, lo, less)
       && EdgesMean(r.edges, s, core, lo, Rendered(r.nodes), less)
  }

  // ---- making it ----

  method Overview<A(==,!new)>(me: A, days: int, now: int, edges: seq<SubEdge<A>>, es: seq<Event<A>>,
      less: (A, A) -> bool, lastRead: map<A, int>)
    returns (r: Report<A>)
    requires TotalOrder(less) && forall e :: e in es ==> Readable(e)
    ensures IsReport(r, me, days, edges, multiset(es), WindowStart(days, now), less, lastRead)
  {
    if edges == [] { return Report(days, [], [], []); }
    var subSet := CollectAddresses(edges);
    var core := {me} + subSet;
    var t := Scan(es, core, WindowStart(days, now), PairKey(less));
    ghost var s, lo := multiset(es), WindowStart(days, now);
    var rows := Rows(t, edges, less, lastRead, s, core, lo);
    var nodes := Nodes(t, me, subSet, edges, less, s, core, lo);
    var rendered := set n | n in nodes :: n.address;
    var links := Edges(t, rendered, less);
    EdgesHaveMeaning(links, t, s, core, lo, rendered, less);
    r := Report(days, rows, nodes, links);
  }

  /** 0 days means all time; the bound is then the epoch. */
  function WindowStart(days: int, now: int): int {
    if days > 0 then now - days * 86400 else 0
  }

  method CollectAddresses<A(==,!new)>(edges: seq<SubEdge<A>>) returns (s: set<A>)
    ensures s == Addresses(edges)
  {
    s := {};
    for i := 0 to |edges|
      invariant s == Addresses(edges[..i])
    {
      assert edges[..i + 1] == edges[..i] + [edges[i]];
      s := s + {edges[i].address};
    }
    assert edges[..|edges|] == edges;
  }

  method Rows<A(==,!new)>(t: Tallies<A>, edges: seq<SubEdge<A>>, less: (A, A) -> bool, lastRead: map<A, int>,
      ghost s: multiset<Event<A>>, ghost core: set<A>, ghost lo: int)
    returns (rows: seq<Row<A>>)
    requires Tallied(t, s, core, lo, PairKey(less)) && TotalOrder(less) && Addresses(edges) <= core
    ensures |rows| == |edges|
    ensures forall i :: 0 <= i < |edges| ==> RowOk(rows[i], edges[i], s, core, lo, less, lastRead)
  {
    rows := [];
    for i := 0 to |edges|
      invariant |rows| == i
      invariant forall k :: 0 <= k < i ==> RowOk(rows[k], edges[k], s, core, lo, less, lastRead)
    {
      assert edges[i].address in Addresses(edges);
      var row := OneRow(t, edges[i], less, lastRead, s, core, lo);
      rows := rows + [row];
    }
  }

  method OneRow<A(==,!new)>(t: Tallies<A>, e: SubEdge<A>, less: (A, A) -> bool, lastRead: map<A, int>,
      ghost s: multiset<Event<A>>, ghost core: set<A>, ghost lo: int)
    returns (row: Row<A>)
    requires Tallied(t, s, core, lo, PairKey(less)) && TotalOrder(less) && e.address in core
    ensures RowOk(row, e, s, core, lo, less, lastRead)
  {
    assert AccOk(t, s, lo, e.address);
    var a := t.core[e.address];
    var top := Top(t.contacts, e.address, less);
    TopMeaning(t, s, core, lo, PairKey(less), e.address, less);
    row := Row(e.address, e.signature, a.lastIn, a.lastOut, a.countIn, a.countOut,
               Mean(a.sumIn, a.countIn), Mean(a.sumOut, a.countOut), top, Latest(lastRead, e.address));
  }

  method Nodes<A(==,!new)>(t: Tallies<A>, me: A, subSet: set<A>, ghost edges: seq<SubEdge<A>>, less: (A, A) -> bool,
      ghost s: multiset<Event<A>>, ghost core: set<A>, ghost lo: int)
    returns (nodes: seq<Node<A>>)
    requires Tallied(t, s, core, lo, PairKey(less)) && TotalOrder(less)
    requires subSet == Addresses(edges) && core == {me} + subSet
    ensures HasNodes(nodes, me, edges, s, core, lo, less)
  {
    var vol := Externals(t.core.Keys, t.contacts, less);
    OrderOn(less, subSet);
    OrderOn(less, vol.Keys);
    var subs := Enumerate(subSet, less);
    var externals := Enumerate(vol.Keys, less);
    CoreTraffic(t, s, core, lo, less, me);
    var v := t.core[me].countIn + t.core[me].countOut;
    var middle := MakeSubNodes(t, subs, s, core, lo, less);
    ghost var tops := MakeTops(t, s, core, lo, less);
    VolumesHaveMeaning(vol, t, tops, core, less);
    var back := MakeExternalNodes(vol, externals, tops, core);
    NodesFromParts(v, middle, back, subs, externals, me, edges, tops, s, core, lo, less, vol);
    nodes := [Node(me, Self, v)] + middle + back;
  }

  lemma OrderOn<A(!new)>(less: (A, A) -> bool, s: set<A>)
    requires TotalOrder(less)
    ensures StrictOrderOn(less, s)
  {
  }

  lemma NodesFromParts<A(!new)>(v: int, middle: seq<Node<A>>, back: seq<Node<A>>, subs: seq<A>, externals: seq<A>,
      me: A, edges: seq<SubEdge<A>>,
      tops: map<A, seq<TopContact<A>>>, s: multiset<Event<A>>, core: set<A>, lo: int,
      less: (A, A) -> bool, vol: map<A, int>)
    requires IsTops(tops, s, core, lo, less) && VolumesMean(vol, tops, core)
    requires Lists(subs, Addresses(edges), less) && Lists(externals, vol.Keys, less)
    requires v == Traffic(s, me, lo) && middle == SubNodes(subs, s, lo) && back == ExternalNodes(externals, tops, core)
    ensures HasNodes([Node(me, Self, v)] + middle + back, me, edges, s, core, lo, less)
  {
    forall x ensures x in externals <==> IsExternal(tops, core, x) {
      assert x in externals <==> x in vol;
    }
    assert NodesOk([Node(me, Self, v)] + middle + back, subs, externals, me, edges, tops, s, core, lo, less);
  }

  lemma CoreTraffic<A(!new)>(t: Tallies<A>, s: multiset<Event<A>>, core: set<A>, lo: int, less: (A, A) -> bool, c: A)
    requires Tallied(t, s, core, lo, PairKey(less)) && c in core
    ensures t.core[c].countIn + t.core[c].countOut == Traffic(s, c, lo)
  {
    assert AccOk(t, s, lo, c);
  }

  method MakeSubNodes<A(==,!new)>(t: Tallies<A>, subs: seq<A>, ghost s: multiset<Event<A>>, ghost core: set<A>,
      ghost lo: int,
      ghost less: (A, A) -> bool) returns (nodes: seq<Node<A>>)
    requires Tallied(t, s, core, lo, PairKey(less)) && forall x :: x in subs ==> x in core
    ensures nodes == SubNodes(subs, s, lo)
  {
    nodes := [];
    for i := 0 to |subs|
      invariant |nodes| == i && forall k :: 0 <= k < i ==> nodes[k] == SubNodes(subs, s, lo)[k]
    {
      assert subs[i] in subs;
      CoreTraffic(t, s, core, lo, less, subs[i]);
      nodes := nodes + [Node(subs[i], Sub, t.core[subs[i]].countIn + t.core[subs[i]].countOut)];
    }
  }

  method MakeExternalNodes<A(==,!new)>(vol: map<A, int>, externals: seq<A>, ghost tops: map<A, seq<TopContact<A>>>,
      ghost core: set<A>)
    returns (nodes: seq<Node<A>>)
    requires VolumesMean(vol, tops, core) && forall x :: x in externals ==> x in vol
    ensures nodes == ExternalNodes(externals, tops, core)
  {
    nodes := [];
    for i := 0 to |externals|
      invariant |nodes| == i && forall k :: 0 <= k < i ==> nodes[k] == ExternalNodes(externals, tops, core)[k]
    {
      assert externals[i] in externals;
      nodes := nodes + [Node(externals[i], External, vol[externals[i]])];
    }
  }

  ghost predicate VolumesMean<A(!new)>(vol: map<A, int>, tops: map<A, seq<TopContact<A>>>, core: set<A>) {
    && (forall x :: x in vol <==> IsExternal(tops, core, x))
    && (forall x :: x in vol ==> vol[x] == Sum(multiset(core), ListedIn(tops, x)))
  }

  lemma VolumesHaveMeaning<A(!new)>(vol: map<A, int>, t: Tallies<A>, tops: map<A, seq<TopContact<A>>>, core: set<A>,
      less: (A, A) -> bool)
    requires TotalOrder(less) && VolumesOk(vol, core, core, t.contacts, less)
    requires tops.Keys == core && forall c :: c in core ==> tops[c] == TopOf(t.contacts, c, less)
    ensures VolumesMean(vol, tops, core)
  {
    forall x ensures x in vol <==> IsExternal(tops, core, x) { ExternalSame(vol, t, tops, core, less, x); }
    forall x | x in vol ensures vol[x] == Sum(multiset(core), ListedIn(tops, x)) {
      SameLists(t, tops, core, less, x);
      assert vol[x] == Volume(vol, x);
    }
  }

  lemma ExternalSame<A(!new)>(vol: map<A, int>, t: Tallies<A>, tops: map<A, seq<TopContact<A>>>, core: set<A>,
      less: (A, A) -> bool, x: A)
    requires TotalOrder(less) && VolumesOk(vol, core, core, t.contacts, less)
    requires tops.Keys == core && forall c :: c in core ==> tops[c] == TopOf(t.contacts, c, less)
    ensures x in vol <==> IsExternal(tops, core, x)
  {
    if x in vol {
      var c :| c in core && IsListed(TopOf(t.contacts, c, less), x);
      assert IsListed(tops[c], x);
    }
    if IsExternal(tops, core, x) {
      var c :| c in core && c in tops && IsListed(tops[c], x);
      assert IsListed(TopOf(t.contacts, c, less), x);
    }
  }

  lemma MakeTops<A(!new)>(t: Tallies<A>, s: multiset<Event<A>>, core: set<A>, lo: int, less: (A, A) -> bool)
    returns (tops: map<A, seq<TopContact<A>>>)
    requires Tallied(t, s, core, lo, PairKey(less)) && TotalOrder(less)
    ensures IsTops(tops, s, core, lo, less)
    ensures forall c :: c in core ==> tops[c] == TopOf(t.contacts, c, less)
  {
    tops := map c | c in core :: TopOf(t.contacts, c, less);
    forall c | c in core ensures IsTop(tops[c], s, core, lo, c, less) {
      TopMeaning(t, s, core, lo, PairKey(less), c, less);
    }
  }

  lemma SameLists<A(!new)>(t: Tallies<A>, tops: map<A, seq<TopContact<A>>>, core: set<A>, less: (A, A) -> bool, x: A)
    requires TotalOrder(less) && tops.Keys == core && forall c :: c in core ==> tops[c] == TopOf(t.contacts, c, less)
    ensures Sum(multiset(core), ListedIn(tops, x)) == Sum(multiset(core), ListedBy(t.contacts, less, x))
  {
    SumSame(multiset(core), ListedIn(tops, x), ListedBy(t.contacts, less, x));
  }

  lemma EdgesHaveMeaning<A(!new)>(edges: seq<Edge<A>>, t: Tallies<A>, s: multiset<Event<A>>, core: set<A>, lo: int,
      rendered: set<A>, less: (A, A) -> bool)
    requires Tallied(t, s, core, lo, PairKey(less)) && EdgesOk(edges, t, rendered, less)
    ensures EdgesMean(edges, s, core, lo, rendered, less)
  {
    forall e | e in edges ensures EdgeMeans(e, s, core, lo, less) {
      assert CellsOk(t, s, core, lo, e.a, e.b) && CellsOk(t, s, core, lo, e.b, e.a);
      assert LastOk(t, s, core, PairKey(less), (e.a, e.b));
    }
    forall k
      ensures (exists x, y :: x in t.dir && y in t.dir[x] && PairKey(less)(x, y) == k)
        <==> HasTraffic(s, core, lo, less, k)
    {
      if x, y :| x in t.dir && y in t.dir[x] && PairKey(less)(x, y) == k {
        assert CellsOk(t, s, core, lo, x, y);
        assert Sum(s, OnPair(core, lo, x, y)) > 0;
      }
      if HasTraffic(s, core, lo, less, k) {
        var x, y :| Sum(s, OnPair(core, lo, x, y)) > 0 && PairKey(less)(x, y) == k;
        assert CellsOk(t, s, core, lo, x, y);
      }
    }
  }

  // ---- on stored messages ----

  /** What the scan reads of a message; addresses are compared in lower case. */
  function EventOf(m: Message): (e: Event<string>)
    ensures Readable(e)
  {
    var recips := set a | a in m.to + m.cc :: ToLower(a);
    var first := if m.to != [] && ToLower(m.to[0]) != "" then Some(ToLower(m.to[0])) else None;
    assert m.to != [] ==> m.to[0] in m.to + m.cc;
    Event(ToLower(m.from), recips, first, |m.body|, m.receivedAt)
  }

  function Lowered(e: SubEdge<string>): SubEdge<string> {
    e.(address := ToLower(e.address))
  }

  ghost function Events(msgs: seq<Message>): seq<Event<string>> {
    seq(|msgs|, i requires 0 <= i < |msgs| => EventOf(msgs[i]))
  }

  ghost function AllLowered(edges: seq<SubEdge<string>>): seq<SubEdge<string>> {
    seq(|edges|, i requires 0 <= i < |edges| => Lowered(edges[i]))
  }

  method MgmtSubsOverviewWindow(me: string, days: int, now: int, edges: seq<SubEdge<string>>, msgs: seq<Message>,
      lastRead: map<string, int>)
    returns (r: Report<string>)
    requires me != "" && forall e :: e in edges ==> e.address != ""
    ensures IsReport(r, ToLower(me), days, AllLowered(edges), multiset(Events(msgs)), WindowStart(days, now),
      Less, lastRead)
  {
    LessIsTotalOrder();
    var lowered := seq(|edges|, i requires 0 <= i < |edges| => Lowered(edges[i]));
    var events := seq(|msgs|, i requires 0 <= i < |msgs| => EventOf(msgs[i]));
    assert lowered == AllLowered(edges) && events == Events(msgs);
    r := Overview(ToLower(me), days, now, lowered, events, Less, lastRead);
  }

  lemma LessIsTotalOrder()
    ensures TotalOrder(Less)
  {
    forall a: string, b: string ensures !Less(a, a) && (a == b || Less(a, b) || Less(b, a)) {
      LessIrreflexive(a);
      LessTotal(a, b);
    }
    forall a: string, b: string, c: string | Less(a, b) && Less(b, c) ensures Less(a, c) { LessTransitive(a, b, c); }
  }
}
