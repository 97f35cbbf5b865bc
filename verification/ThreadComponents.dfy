/** Topics: connected components of the messages an account can see, linked by
    in_reply_to; the topic index and the single-topic view. */
module ThreadComponents {
  import opened Text
  import opened Sorting
  import opened Mail
  import opened UnionFind
  import opened Components

  datatype Component = Component(
    root: Message, members: seq<Message>, lastAt: int, subject: string, parts: seq<string>)

  datatype Topic = Topic(rootId: string, subject: string, participants: seq<string>, count: nat, lastAt: int)

  datatype View = View(root: string, messages: seq<Summary>, count: nat)

  // ---- what a component is ----

  /** Reply links between visible messages; a parent outside the set is no link. */
  function ReplyLinks(msgs: map<string, Message>): (parent: map<string, string>)
    ensures parent.Keys <= msgs.Keys && parent.Values <= msgs.Keys
  {
    map id | id in msgs && msgs[id].inReplyTo != "" && msgs[id].inReplyTo in msgs :: msgs[id].inReplyTo
  }

  ghost function Block(msgs: map<string, Message>, id: string): set<string> {
    set b | b in msgs && Connected(ReplyLinks(msgs), id, b)
  }

  predicate ById(a: Message, b: Message) {
    Less(a.id, b.id)
  }

  ghost function Pick(msgs: map<string, Message>, ids: set<string>): set<Message>
    requires ids <= msgs.Keys
  {
    set id | id in ids :: msgs[id]
  }

  lemma ByIdIsOrder(msgs: map<string, Message>, ids: set<string>)
    requires Keyed(msgs) && ids <= msgs.Keys
    ensures StrictOrderOn(ById, Pick(msgs, ids))
  {
    var s := Pick(msgs, ids);
    LessIsOrder(ids);
    forall a, b | a in s && b in s ensures !ById(a, a) && (a == b || ById(a, b) || ById(b, a)) {
      assert a.id in ids && b.id in ids && msgs[a.id] == a && msgs[b.id] == b;
    }
    forall a, b, c | a in s && b in s && c in s && ById(a, b) && ById(b, c) ensures ById(a, c) {
      assert a.id in ids && b.id in ids && c.id in ids;
    }
  }

  /** The latest arrival time among members. */
  function LastAt(ms: seq<Message>): (t: int)
    requires ms != []
    ensures (exists m :: m in ms && m.receivedAt == t) && forall m :: m in ms ==> m.receivedAt <= t
  {
    if |ms| == 1 then ms[0].receivedAt
    else
      var t := LastAt(ms[..|ms| - 1]);
      assert ms == ms[..|ms| - 1] + [ms[|ms| - 1]];
      if ms[|ms| - 1].receivedAt > t then ms[|ms| - 1].receivedAt else t
  }

  function Addresses(m: Message): seq<string> {
    [m.from] + m.to + m.cc
  }

  function AllAddresses(ms: seq<Message>): seq<string> {
    if ms == [] then [] else AllAddresses(ms[..|ms| - 1]) + Addresses(ms[|ms| - 1])
  }

  /** s without repeats, in order of first appearance. */
  function FirstAppearances(s: seq<string>): (r: seq<string>)
    ensures forall x :: x in r <==> x in s
    ensures forall i, j :: 0 <= i < j < |r| ==> r[i] != r[j]
  {
    if s == [] then []
    else
      var init, last := s[..|s| - 1], s[|s| - 1];
      assert s == init + [last];
      if last in init then FirstAppearances(init) else FirstAppearances(init) + [last]
  }

  /** The chosen messages, oldest first. */
  ghost function Members(msgs: map<string, Message>, ids: set<string>): (ms: seq<Message>)
    requires Keyed(msgs) && ids <= msgs.Keys
    ensures Lists(ms, Pick(msgs, ids), ById)
  {
    ByIdIsOrder(msgs, ids);
    Enumerate(Pick(msgs, ids), ById)
  }

  lemma MemberIds(msgs: map<string, Message>, ids: set<string>, id: string)
    requires Keyed(msgs) && ids <= msgs.Keys && id in msgs
    ensures msgs[id] in Members(msgs, ids) <==> id in ids
  {
    assert msgs[id] in Members(msgs, ids) <==> msgs[id] in Pick(msgs, ids);
  }

  ghost function SumOf(ms: seq<Message>): Component
    requires ms != []
  {
    Component(ms[0], ms, LastAt(ms), ms[0].subject, FirstAppearances(AllAddresses(ms)))
  }

  /** The component of a visible message: a function of the visible set alone. */
  ghost function ComponentOf(msgs: map<string, Message>, id: string): Component
    requires Keyed(msgs) && id in msgs
  {
    Reflexive(ReplyLinks(msgs), id);
    MemberIds(msgs, Block(msgs, id), id);
    SumOf(Members(msgs, Block(msgs, id)))
  }

  ghost predicate At(comp: map<string, Component>, msgs: map<string, Message>, id: string)
    requires Keyed(msgs) && id in msgs
  {
    id in comp && comp[id] == ComponentOf(msgs, id)
  }

  /** comp says which component each visible message belongs to. */
  ghost predicate IsComponentMap(comp: map<string, Component>, msgs: map<string, Message>)
    requires Keyed(msgs)
  {
    comp.Keys == msgs.Keys && forall id {:trigger At(comp, msgs, id)} :: id in msgs ==> At(comp, msgs, id)
  }

  ghost function ComponentMap(msgs: map<string, Message>): (comp: map<string, Component>)
    requires Keyed(msgs)
    ensures IsComponentMap(comp, msgs)
  {
    assert exists c :: IsComponentMap(c, msgs) by { var c := MakeComponentMap(msgs); }
    var c :| IsComponentMap(c, msgs);
    c
  }

  lemma MakeComponentMap(msgs: map<string, Message>) returns (comp: map<string, Component>)
    requires Keyed(msgs)
    ensures IsComponentMap(comp, msgs)
  {
    comp := map id | id in msgs :: ComponentOf(msgs, id);
  }

  /** out holds every component exactly once. */
  ghost predicate IsPartition(out: seq<Component>, comp: map<string, Component>) {
    && (forall i, j :: 0 <= i < j < |out| ==> out[i] != out[j])
    && (forall c :: c in out <==> c in comp.Values)
  }

  // ---- deriving them ----

  method DeriveComponents(msgs: map<string, Message>) returns (out: seq<Component>)
    requires Keyed(msgs)
    ensures IsPartition(out, ComponentMap(msgs))
  {
    var parent := CollectLinks(msgs);
    var uf := Unite(msgs.Keys, parent);
    var groups := Group(msgs, uf);
    out := Assemble(msgs, groups, uf.Rep(), ComponentMap(msgs));
  }

  method CollectLinks(msgs: map<string, Message>) returns (parent: map<string, string>)
    ensures parent == ReplyLinks(msgs)
  {
    parent := map[];
    var todo := msgs.Keys;
    while todo != {}
      invariant todo <= msgs.Keys
      invariant parent == map id | id in ReplyLinks(msgs) && id !in todo :: ReplyLinks(msgs)[id]
      decreases todo
    {
      var id :| id in todo;
      todo := todo - {id};
      if msgs[id].inReplyTo != "" {
        if msgs[id].inReplyTo in msgs {
          parent := parent[id := msgs[id].inReplyTo];
        }
      }
    }
  }

  /** The ids outside todo whose representative is r. */
  ghost function ClassOf(rep: map<string, string>, todo: set<string>, r: string): set<string> {
    set id | id in rep && id !in todo && rep[id] == r
  }

  ghost predicate IsGroup(ms: seq<Message>, msgs: map<string, Message>, ids: set<string>) {
    && (forall i, j :: 0 <= i < j < |ms| ==> ms[i] != ms[j])
    && ids <= msgs.Keys
    && forall m :: m in ms <==> m in Pick(msgs, ids)
  }

  /** The ids outside todo, grouped by representative. */
  ghost predicate IsGrouping(groups: map<string, seq<Message>>, msgs: map<string, Message>,
      rep: map<string, string>, todo: set<string>) {
    && (forall id :: id in rep && id !in todo ==> rep[id] in groups)
    && (forall r :: r in groups ==> ClassOf(rep, todo, r) != {} && IsGroup(groups[r], msgs, ClassOf(rep, todo, r)))
  }

  method Group(msgs: map<string, Message>, uf: Classes<string>) returns (groups: map<string, seq<Message>>)
    requires Keyed(msgs) && uf.Valid() && uf.Rep().Keys == msgs.Keys
    modifies uf
    ensures uf.Valid() && uf.Rep() == old(uf.Rep())
    ensures IsGrouping(groups, msgs, uf.Rep(), {})
  {
    groups := map[];
    ghost var rep := uf.Rep();
    var todo := msgs.Keys;
    while todo != {}
      invariant todo <= msgs.Keys
      invariant uf.Valid() && uf.Rep() == rep
      invariant IsGrouping(groups, msgs, rep, todo)
      decreases todo
    {
      var id :| id in todo;
      var r := uf.Find(id);
      SameEntry(rep, id);
      AddToGroup(groups, msgs, rep, todo, id);
      groups := groups[r := (if r in groups then groups[r] else []) + [msgs[id]]];
      todo := todo - {id};
    }
  }

  lemma AddToGroup(groups: map<string, seq<Message>>, msgs: map<string, Message>,
      rep: map<string, string>, todo: set<string>, id: string)
    requires Keyed(msgs) && rep.Keys == msgs.Keys && id in msgs && id in todo
    requires IsGrouping(groups, msgs, rep, todo)
    ensures var r := rep[id];
      IsGrouping(groups[r := (if r in groups then groups[r] else []) + [msgs[id]]], msgs, rep, todo - {id})
  {
    var r := rep[id];
    var before := if r in groups then groups[r] else [];
    if r !in groups { assert ClassOf(rep, todo, r) == {}; }
    assert ClassOf(rep, todo - {id}, r) == ClassOf(rep, todo, r) + {id};
    assert Pick(msgs, ClassOf(rep, todo - {id}, r)) == Pick(msgs, ClassOf(rep, todo, r)) + {msgs[id]};
    assert IsGroup(before + [msgs[id]], msgs, ClassOf(rep, todo - {id}, r));
    forall q | q in groups && q != r ensures ClassOf(rep, todo - {id}, q) == ClassOf(rep, todo, q) {
    }
  }

  /** Groups in any order; each is sorted by id and summed up. */
  method Assemble(ghost msgs: map<string, Message>, groups: map<string, seq<Message>>, ghost rep: map<string, string>,
      ghost comp: map<string, Component>)
    returns (out: seq<Component>)
    requires Keyed(msgs) && rep.Keys == msgs.Keys && IsComponents(ReplyLinks(msgs), rep)
    requires IsGrouping(groups, msgs, rep, {}) && IsComponentMap(comp, msgs)
    ensures IsPartition(out, comp)
  {
    out := [];
    ghost var keys: seq<string> := [];
    var todo := groups.Keys;
    while todo != {}
      invariant todo <= groups.Keys
      invariant forall r :: r in groups && r !in todo <==> r in keys
      invariant IsAssembly(out, msgs, rep, keys)
      decreases todo
    {
      var r :| r in todo;
      todo := todo - {r};
      var c := SumUpGroup(msgs, groups[r], ClassOf(rep, {}, r));
      ExtendAssembly(out, msgs, rep, keys, c, r);
      out := out + [c];
      keys := keys + [r];
    }
    PartitionFromKeys(out, msgs, rep, keys, comp);
  }

  ghost predicate IsSumOf(c: Component, msgs: map<string, Message>, ids: set<string>)
    requires Keyed(msgs)
  {
    ids <= msgs.Keys && Members(msgs, ids) != [] && c == SumOf(Members(msgs, ids))
  }

  /** out sums up the classes of the representatives keys, one by one. */
  ghost predicate IsAssembly(out: seq<Component>, msgs: map<string, Message>, rep: map<string, string>,
      keys: seq<string>)
    requires Keyed(msgs)
  {
    && |keys| == |out|
    && (forall i, j :: 0 <= i < j < |keys| ==> keys[i] != keys[j])
    && (forall i :: 0 <= i < |out| ==> IsSumOf(out[i], msgs, ClassOf(rep, {}, keys[i])))
  }

  lemma ExtendAssembly(out: seq<Component>, msgs: map<string, Message>, rep: map<string, string>, keys: seq<string>,
      c: Component, r: string)
    requires Keyed(msgs) && IsAssembly(out, msgs, rep, keys)
    requires r !in keys && IsSumOf(c, msgs, ClassOf(rep, {}, r))
    ensures IsAssembly(out + [c], msgs, rep, keys + [r])
  {
    var o, k := out + [c], keys + [r];
    forall i, j | 0 <= i < j < |k| ensures k[i] != k[j] {
      assert k[i] == keys[i] && keys[i] in keys;
    }
    forall i | 0 <= i < |o| ensures IsSumOf(o[i], msgs, ClassOf(rep, {}, k[i])) {
      if i < |out| { assert IsSumOf(out[i], msgs, ClassOf(rep, {}, keys[i])) && o[i] == out[i] && k[i] == keys[i]; }
    }
  }

  lemma PartitionFromKeys(out: seq<Component>, msgs: map<string, Message>, rep: map<string, string>, keys: seq<string>,
      comp: map<string, Component>)
    requires Keyed(msgs) && rep.Keys == msgs.Keys && IsComponents(ReplyLinks(msgs), rep) && IsComponentMap(comp, msgs)
    requires IsAssembly(out, msgs, rep, keys) && forall id :: id in msgs ==> rep[id] in keys
    ensures IsPartition(out, comp)
  {
    forall c | c in out ensures c in comp.Values {
      var i :| 0 <= i < |out| && out[i] == c;
      var id := SumIsComponent(c, msgs, rep, keys[i]);
      assert At(comp, msgs, id);
    }
    forall i, j | 0 <= i < j < |out| ensures out[i] != out[j] {
      SumsDiffer(out, msgs, rep, keys, i, j);
    }
    forall c | c in comp.Values ensures c in out {
      var id :| id in comp && comp[id] == c;
      assert At(comp, msgs, id);
      EveryIdSummed(out, msgs, rep, keys, id);
    }
  }

  lemma SumsDiffer(out: seq<Component>, msgs: map<string, Message>, rep: map<string, string>, keys: seq<string>,
      i: nat, j: nat)
    requires Keyed(msgs) && rep.Keys == msgs.Keys && IsComponents(ReplyLinks(msgs), rep)
    requires IsAssembly(out, msgs, rep, keys) && i < j < |out|
    ensures out[i] != out[j]
  {
    var id := SumIsComponent(out[i], msgs, rep, keys[i]);
    MemberIds(msgs, ClassOf(rep, {}, keys[i]), id);
    MemberIds(msgs, ClassOf(rep, {}, keys[j]), id);
  }

  lemma EveryIdSummed(out: seq<Component>, msgs: map<string, Message>, rep: map<string, string>, keys: seq<string>,
      id: string)
    requires Keyed(msgs) && rep.Keys == msgs.Keys && IsComponents(ReplyLinks(msgs), rep)
    requires IsAssembly(out, msgs, rep, keys) && id in msgs && rep[id] in keys
    ensures ComponentOf(msgs, id) in out
  {
    var i :| 0 <= i < |keys| && keys[i] == rep[id];
    assert IsSumOf(out[i], msgs, ClassOf(rep, {}, keys[i]));
    ClassIsBlock(msgs, rep, id);
  }

  lemma SumIsComponent(c: Component, msgs: map<string, Message>, rep: map<string, string>,
      r: string) returns (id: string)
    requires Keyed(msgs) && rep.Keys == msgs.Keys && IsComponents(ReplyLinks(msgs), rep)
    requires IsSumOf(c, msgs, ClassOf(rep, {}, r))
    ensures id in msgs && rep[id] == r && c == ComponentOf(msgs, id)
  {
    var ids := ClassOf(rep, {}, r);
    assert Members(msgs, ids)[0] in Members(msgs, ids);
    id :| id in ids;
    ClassIsBlock(msgs, rep, id);
  }

  lemma ClassIsBlock(msgs: map<string, Message>, rep: map<string, string>, id: string)
    requires rep.Keys == msgs.Keys && IsComponents(ReplyLinks(msgs), rep) && id in msgs
    ensures ClassOf(rep, {}, rep[id]) == Block(msgs, id)
  {
  }

  method SumUpGroup(ghost msgs: map<string, Message>, group: seq<Message>,
      ghost ids: set<string>)
    returns (c: Component)
    requires Keyed(msgs) && ids != {} && IsGroup(group, msgs, ids)
    ensures IsSumOf(c, msgs, ids)
  {
    ByIdIsOrder(msgs, ids);
    assert Elements(group) == Pick(msgs, ids);
    ghost var id :| id in ids;
    MemberIds(msgs, ids, id);
    var ms := Enumerate(Elements(group), ById);
    c := SumUp(ms);
  }

  method SumUp(ms: seq<Message>) returns (c: Component)
    requires ms != []
    ensures c == SumOf(ms)
  {
    var lastAt := ms[0].receivedAt;
    var parts: seq<string> := [];
    var seen: set<string> := {};
    for i := 0 to |ms|
      invariant lastAt == if i == 0 then ms[0].receivedAt else LastAt(ms[..i])
      invariant parts == FirstAppearances(AllAddresses(ms[..i]))
      invariant forall x :: x in seen <==> x in AllAddresses(ms[..i])
    {
      assert ms[..i + 1][..i] == ms[..i];
      if ms[i].receivedAt > lastAt { lastAt := ms[i].receivedAt; }
      parts, seen := AddAddresses(parts, seen, AllAddresses(ms[..i]), Addresses(ms[i]));
    }
    assert ms[..|ms|] == ms;
    c := Component(ms[0], ms, lastAt, ms[0].subject, parts);
  }

  method AddAddresses(parts0: seq<string>, seen0: set<string>, ghost before: seq<string>, addrs: seq<string>)
    returns (parts: seq<string>, seen: set<string>)
    requires parts0 == FirstAppearances(before) && forall x :: x in seen0 <==> x in before
    ensures parts == FirstAppearances(before + addrs) && forall x :: x in seen <==> x in before + addrs
  {
    parts, seen := parts0, seen0;
    assert before + addrs[..0] == before;
    for j := 0 to |addrs|
      invariant parts == FirstAppearances(before + addrs[..j])
      invariant forall x :: x in seen <==> x in before + addrs[..j]
    {
      assert before + addrs[..j + 1] == (before + addrs[..j]) + [addrs[j]];
      assert (before + addrs[..j + 1])[..|before| + j] == before + addrs[..j];
      if addrs[j] !in seen {
        seen := seen + {addrs[j]};
        parts := parts + [addrs[j]];
      }
    }
    assert addrs[..|addrs|] == addrs;
  }
}
