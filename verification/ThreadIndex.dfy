/** The topic index and the single-topic view over the derived components. */
module ThreadIndex {
  import opened Wrappers
  import opened Text
  import opened Sorting
  import opened Sequences
  import opened Mail
  import opened Components
  import opened ThreadComponents

  // ---- what components are to each other ----

  /** Two visible messages share a topic exactly when reply links connect them, and a
      topic's members are exactly the messages connected to it. */
  lemma SameTopic(msgs: map<string, Message>, a: string, b: string)
    requires Keyed(msgs) && a in msgs && b in msgs
    ensures ComponentOf(msgs, a) == ComponentOf(msgs, b) <==> Connected(ReplyLinks(msgs), a, b)
    ensures msgs[b] in ComponentOf(msgs, a).members <==> Connected(ReplyLinks(msgs), a, b)
  {
    MemberIds(msgs, Block(msgs, a), b);
    MemberIds(msgs, Block(msgs, b), b);
    Reflexive(ReplyLinks(msgs), b);
    if Connected(ReplyLinks(msgs), a, b) { SameBlock(msgs, a, b); }
  }

  lemma SameBlock(msgs: map<string, Message>, a: string, b: string)
    requires Connected(ReplyLinks(msgs), a, b)
    ensures Block(msgs, a) == Block(msgs, b)
  {
    var links := ReplyLinks(msgs);
    Symmetric(links, a, b);
    forall x | x in msgs ensures Connected(links, a, x) <==> Connected(links, b, x) {
      if Connected(links, a, x) { Transitive(links, b, a, x); }
      if Connected(links, b, x) { Transitive(links, a, b, x); }
    }
  }

  /** b is a member of a's topic exactly when the topic is b's own. */
  ghost predicate OwnTopic(comp: map<string, Component>, msgs: map<string, Message>, a: string, b: string)
    requires comp.Keys == msgs.Keys && a in comp && b in comp
  {
    msgs[b] in comp[a].members <==> comp[a] == comp[b]
  }

  /** a's topic consists of stored messages, its root among them, and has one member
      for each id that shares it. */
  ghost predicate WellFormed(comp: map<string, Component>, msgs: map<string, Message>, a: string)
    requires a in comp
  {
    && (forall m :: m in comp[a].members ==> m.id in msgs && msgs[m.id] == m)
    && comp[a].root in comp[a].members
    && |comp[a].members| == |SharedBy(comp, comp[a])|
  }

  ghost predicate Coherent(comp: map<string, Component>, msgs: map<string, Message>) {
    && comp.Keys == msgs.Keys
    && (forall a, b {:trigger OwnTopic(comp, msgs, a, b)} :: a in comp && b in comp ==> OwnTopic(comp, msgs, a, b))
    && (forall a {:trigger WellFormed(comp, msgs, a)} :: a in comp ==> WellFormed(comp, msgs, a))
  }

  ghost function SharedBy(comp: map<string, Component>, c: Component): set<string> {
    set b | b in comp && comp[b] == c
  }

  lemma ComponentsCoherent(comp: map<string, Component>, msgs: map<string, Message>)
    requires Keyed(msgs) && IsComponentMap(comp, msgs)
    ensures Coherent(comp, msgs)
  {
    forall a, b | a in msgs && b in msgs ensures OwnTopic(comp, msgs, a, b) {
      assert At(comp, msgs, a) && At(comp, msgs, b);
      SameTopic(msgs, a, b);
    }
    forall a | a in msgs ensures WellFormed(comp, msgs, a) { TopicWellFormed(comp, msgs, a); }
  }

  lemma TopicWellFormed(comp: map<string, Component>, msgs: map<string, Message>, a: string)
    requires Keyed(msgs) && IsComponentMap(comp, msgs) && a in msgs
    ensures WellFormed(comp, msgs, a)
  {
    assert At(comp, msgs, a);
    forall m | m in comp[a].members ensures m.id in msgs && msgs[m.id] == m { MemberIsVisible(msgs, a, m); }
    TopicSize(msgs, a);
    SharedIsBlock(comp, msgs, a);
  }

  lemma SharedIsBlock(comp: map<string, Component>, msgs: map<string, Message>, a: string)
    requires Keyed(msgs) && IsComponentMap(comp, msgs) && a in msgs
    ensures SharedBy(comp, ComponentOf(msgs, a)) == Block(msgs, a)
  {
    forall b | b in msgs ensures b in SharedBy(comp, ComponentOf(msgs, a)) <==> b in Block(msgs, a) {
      assert At(comp, msgs, b);
      SameTopic(msgs, a, b);
    }
  }

  lemma MemberIsVisible(msgs: map<string, Message>, a: string, m: Message)
    requires Keyed(msgs) && a in msgs && m in ComponentOf(msgs, a).members
    ensures m.id in msgs && msgs[m.id] == m
  {
    assert m in Pick(msgs, Block(msgs, a));
  }

  lemma TopicSize(msgs: map<string, Message>, a: string)
    requires Keyed(msgs) && a in msgs
    ensures |ComponentOf(msgs, a).members| == |Block(msgs, a)|
    ensures ComponentOf(msgs, a).root in ComponentOf(msgs, a).members
  {
    var ids := Block(msgs, a);
    ByIdIsOrder(msgs, ids);
    ListsLength(Members(msgs, ids), Pick(msgs, ids), ById);
    PickCount(msgs, ids);
  }

  lemma {:induction false} PickCount(msgs: map<string, Message>, ids: set<string>)
    requires Keyed(msgs) && ids <= msgs.Keys
    ensures |Pick(msgs, ids)| == |ids|
    decreases ids
  {
    if ids != {} {
      var id :| id in ids;
      PickCount(msgs, ids - {id});
      assert Pick(msgs, ids) == Pick(msgs, ids - {id}) + {msgs[id]};
      assert msgs[id] !in Pick(msgs, ids - {id});
    }
  }

  // ---- the topic view ----

  function ViewOf(c: Component): View {
    View(c.root.id, seq(|c.members|, i requires 0 <= i < |c.members| => Summarize(c.members[i])), |c.members|)
  }

  /** Any member names its whole topic; an invisible id names nothing. */
  method ThreadByRoot(msgs: map<string, Message>, id: string) returns (r: Option<View>)
    requires Keyed(msgs)
    ensures r == if id in msgs then Some(ViewOf(ComponentOf(msgs, id))) else None
  {
    if id !in msgs { return None; }
    var comps := DeriveComponents(msgs);
    ComponentsCoherent(ComponentMap(msgs), msgs);
    var c := FindTopic(comps, id, msgs, ComponentMap(msgs));
    assert At(ComponentMap(msgs), msgs, id);
    r := Some(ViewOf(c));
  }

  method FindTopic(comps: seq<Component>, id: string, ghost msgs: map<string, Message>, ghost comp: map<string,
      Component>)
    returns (c: Component)
    requires IsPartition(comps, comp) && Coherent(comp, msgs) && Keyed(msgs) && id in msgs
    ensures c == comp[id]
  {
    assert comp[id] in comp.Values;
    assert comp[id] in comps;
    for i := 0 to |comps|
      invariant forall k :: 0 <= k < i ==> comps[k] != comp[id]
    {
      assert comps[i] in comps;
      ghost var a :| a in comp && comp[a] == comps[i];
      assert OwnTopic(comp, msgs, a, id) && WellFormed(comp, msgs, a);
      var found := HasMember(comps[i].members, id);
      if found { return comps[i]; }
    }
    assert false;
  }

  method HasMember(ms: seq<Message>, id: string) returns (found: bool)
    ensures found <==> exists m :: m in ms && m.id == id
  {
    for j := 0 to |ms|
      invariant forall k :: 0 <= k < j ==> ms[k].id != id
    {
      if ms[j].id == id { return true; }
    }
    return false;
  }

  // ---- the topic index ----

  /** Latest activity first; among equals the smaller root id. */
  predicate TopicOrder(c: Component, d: Component) {
    if c.lastAt != d.lastAt then c.lastAt > d.lastAt else Less(c.root.id, d.root.id)
  }

  ghost function Topics(comp: map<string, Component>, minCount: int): set<Component> {
    set c | c in comp.Values && |c.members| >= minCount
  }

  lemma TopicsAreOrdered(msgs: map<string, Message>, comp: map<string, Component>, minCount: int)
    requires Coherent(comp, msgs)
    ensures StrictOrderOn(TopicOrder, Topics(comp, minCount))
  {
    var s := Topics(comp, minCount);
    forall c, d | c in s && d in s ensures !TopicOrder(c, c) && (c == d || TopicOrder(c, d) || TopicOrder(d, c)) {
      RootNamesTopic(msgs, comp, c, d);
      LessIrreflexive(c.root.id);
      LessTotal(c.root.id, d.root.id);
    }
    forall c, d, e | c in s && d in s && e in s && TopicOrder(c, d) && TopicOrder(d, e) ensures TopicOrder(c, e) {
      if c.lastAt == d.lastAt == e.lastAt { LessTransitive(c.root.id, d.root.id, e.root.id); }
    }
  }

  lemma RootNamesTopic(msgs: map<string, Message>, comp: map<string, Component>, c: Component, d: Component)
    requires Coherent(comp, msgs) && c in comp.Values && d in comp.Values
    ensures c.root.id == d.root.id ==> c == d
  {
    var a :| a in comp && comp[a] == c;
    var b :| b in comp && comp[b] == d;
    if c.root.id == d.root.id {
      assert WellFormed(comp, msgs, a) && WellFormed(comp, msgs, b);
      assert OwnTopic(comp, msgs, a, c.root.id) && OwnTopic(comp, msgs, b, c.root.id);
    }
  }

  /** The whole index: a function of the visible set alone. */
  ghost function Index(msgs: map<string, Message>, comp: map<string, Component>, minCount: int): (cs: seq<Component>)
    requires Coherent(comp, msgs)
    ensures Lists(cs, Topics(comp, minCount), TopicOrder)
  {
    TopicsAreOrdered(msgs, comp, minCount);
    Enumerate(Topics(comp, minCount), TopicOrder)
  }

  function TopicOf(c: Component): Topic {
    Topic(c.root.id, c.subject, c.parts, |c.members|, c.lastAt)
  }

  ghost function Rows(cs: seq<Component>): seq<Topic> {
    seq(|cs|, i requires 0 <= i < |cs| => TopicOf(cs[i]))
  }

  /** The rows [from, to) that a page asks for; limit <= 0 asks for all. */
  function Bounds(total: nat, limit: int, offset: int): (p: (nat, nat))
    ensures p.0 <= p.1 <= total
  {
    var o := if offset < 0 then 0 else if offset > total then total else offset;
    (o, if limit > 0 && o + limit < total then o + limit else total)
  }

  /** A page of the one index of the visible set, and the length of that index. */
  method Threads(msgs: map<string, Message>, limit: int, offset: int, minCount: int)
    returns (page: seq<Topic>, total: nat)
    requires Keyed(msgs)
    ensures Coherent(ComponentMap(msgs), msgs)
    ensures IsPage(page, total, limit, offset, Index(msgs, ComponentMap(msgs), minCount))
  {
    var comps := DeriveComponents(msgs);
    ComponentsCoherent(ComponentMap(msgs), msgs);
    page, total := SortAndCut(comps, limit, offset, minCount, msgs, ComponentMap(msgs));
  }

  ghost predicate IsPage(page: seq<Topic>, total: nat, limit: int, offset: int, all: seq<Component>) {
    total == |all| && page == Rows(all)[Bounds(total, limit, offset).0..Bounds(total, limit, offset).1]
  }

  method SortAndCut(comps: seq<Component>, limit: int, offset: int, minCount: int,
      ghost msgs: map<string, Message>, ghost comp: map<string, Component>)
    returns (page: seq<Topic>, total: nat)
    requires Coherent(comp, msgs) && IsPartition(comps, comp)
    ensures IsPage(page, total, limit, offset, Index(msgs, comp, minCount))
  {
    var sorted := SortTopics(comps, minCount, msgs, comp);
    total := |sorted|;
    var b := Bounds(total, limit, offset);
    page := [];
    for i := b.0 to b.1
      invariant page == Rows(sorted)[b.0..i]
    {
      SliceOne(Rows(sorted), b.0, i);
      page := page + [TopicOf(sorted[i])];
    }
  }

  method SortTopics(comps: seq<Component>, minCount: int, ghost msgs: map<string, Message>, ghost comp: map<string,
      Component>)
    returns (sorted: seq<Component>)
    requires Coherent(comp, msgs) && IsPartition(comps, comp)
    ensures sorted == Index(msgs, comp, minCount)
  {
    var filtered: seq<Component> := [];
    for i := 0 to |comps|
      invariant forall c :: c in filtered <==> c in comps[..i] && |c.members| >= minCount
    {
      assert comps[..i + 1] == comps[..i] + [comps[i]];
      if |comps[i].members| >= minCount { filtered := filtered + [comps[i]]; }
    }
    assert comps[..|comps|] == comps;
    TopicsAreOrdered(msgs, comp, minCount);
    assert Elements(filtered) == Topics(comp, minCount);
    sorted := Enumerate(Elements(filtered), TopicOrder);
    ListsUnique(sorted, Index(msgs, comp, minCount), Topics(comp, minCount), TopicOrder);
  }

  // ---- conservation ----

  ghost function SumCounts(cs: seq<Component>): nat {
    if cs == [] then 0 else SumCounts(cs[..|cs| - 1]) + |cs[|cs| - 1].members|
  }

  /** The member counts of all topics add up to the number of visible messages. */
  lemma CountsAddUp(msgs: map<string, Message>, out: seq<Component>)
    requires Keyed(msgs) && IsPartition(out, ComponentMap(msgs))
    ensures SumCounts(out) == |msgs|
  {
    ComponentsCoherent(ComponentMap(msgs), msgs);
    AllCovered(ComponentMap(msgs), msgs, out);
  }

  lemma AllCovered(comp: map<string, Component>, msgs: map<string, Message>, out: seq<Component>)
    requires Coherent(comp, msgs) && IsPartition(out, comp)
    ensures SumCounts(out) == |msgs|
  {
    CoveredCount(comp, msgs, out, |out|);
    assert out[..|out|] == out;
    forall id | id in comp ensures id in Covered(comp, out, |out|) {
      assert comp[id] in comp.Values;
      assert comp[id] in out;
    }
    assert Covered(comp, out, |out|) == msgs.Keys;
  }

  ghost function Covered(comp: map<string, Component>, out: seq<Component>, n: nat): set<string>
    requires n <= |out|
  {
    set id | id in comp && comp[id] in out[..n]
  }

  lemma {:induction false} CoveredCount(comp: map<string, Component>, msgs: map<string, Message>,
      out: seq<Component>, n: nat)
    requires Coherent(comp, msgs) && IsPartition(out, comp) && n <= |out|
    ensures |Covered(comp, out, n)| == SumCounts(out[..n])
  {
    if n > 0 {
      var c := out[n - 1];
      CoveredCount(comp, msgs, out, n - 1);
      assert out[..n][..n - 1] == out[..n - 1] && out[..n] == out[..n - 1] + [c];
      assert c in out;
      var a :| a in comp && comp[a] == c;
      assert WellFormed(comp, msgs, a);
      assert Covered(comp, out, n) == Covered(comp, out, n - 1) + SharedBy(comp, c);
      assert Covered(comp, out, n - 1) !! SharedBy(comp, c);
    }
  }
}
