/** The rendering code of the panel: two lookup objects filled in loops, then a recursive walk
    that appends to the page. */
module ThreadPage {
  import opened Sorting
  import opened Sequences
  import opened Mail
  import opened ThreadView
  import opened ThreadViewLaws

  // ---- chronological order ----

  /** Arrival, and for equal times the place in the input: what a stable sort leaves. */
  predicate Before(msgs: seq<Message>, i: int, j: int) {
    if 0 <= i < |msgs| && 0 <= j < |msgs| && msgs[i].receivedAt != msgs[j].receivedAt
    then msgs[i].receivedAt < msgs[j].receivedAt else i < j
  }

  function Earlier(msgs: seq<Message>): (int, int) -> bool {
    (i: int, j: int) => Before(msgs, i, j)
  }

  function Indices(n: nat): (r: set<int>)
    ensures forall i :: i in r <==> 0 <= i < n
  {
    if n == 0 then {} else Indices(n - 1) + {n - 1}
  }

  function Positions(msgs: seq<Message>): (r: seq<int>)
    ensures Lists(r, Indices(|msgs|), Earlier(msgs))
    ensures forall k :: 0 <= k < |r| ==> 0 <= r[k] < |msgs|
  {
    var r := Enumerate(Indices(|msgs|), Earlier(msgs));
    assert forall k :: 0 <= k < |r| ==> r[k] in r;
    r
  }

  function Chronological(msgs: seq<Message>): seq<Message> {
    var ps := Positions(msgs);
    seq(|ps|, k requires 0 <= k < |ps| => msgs[ps[k]])
  }

  /** The same messages, in order of arrival. */
  lemma ChronologicalMeaning(msgs: seq<Message>)
    requires DistinctIds(msgs)
    ensures forall m :: m in Chronological(msgs) <==> m in msgs
    ensures DistinctIds(Chronological(msgs))
    ensures var r := Chronological(msgs); forall i, j :: 0 <= i < j < |r| ==> r[i].receivedAt <= r[j].receivedAt
  {
    var ps, r := Positions(msgs), Chronological(msgs);
    forall m | m in msgs ensures m in r {
      var i :| 0 <= i < |msgs| && msgs[i] == m;
      assert i in ps;
      var k :| 0 <= k < |ps| && ps[k] == i;
      assert r[k] == m;
    }
    forall i, j | 0 <= i < j < |r| ensures r[i].receivedAt <= r[j].receivedAt && r[i].id != r[j].id {
      assert Earlier(msgs)(ps[i], ps[j]);
    }
  }

  /** Two messages that arrived together keep the order they came in, and any other two go by
      arrival. */
  lemma ChronologicalStable(msgs: seq<Message>, a: nat, b: nat, i: nat, j: nat)
    requires DistinctIds(msgs) && a < |msgs| && b < |msgs| && i < |Chronological(msgs)| && j < |Chronological(msgs)|
    requires Chronological(msgs)[i] == msgs[a] && Chronological(msgs)[j] == msgs[b]
    ensures i < j <==> msgs[a].receivedAt < msgs[b].receivedAt || (msgs[a].receivedAt == msgs[b].receivedAt && a < b)
  {
    var ps := Positions(msgs);
    assert ps[i] == a && ps[j] == b by {
      SameMessage(msgs, ps[i], a);
      SameMessage(msgs, ps[j], b);
    }
    if i < j { assert Earlier(msgs)(ps[i], ps[j]); }
    if j < i { assert Earlier(msgs)(ps[j], ps[i]); }
  }

  lemma SameMessage(msgs: seq<Message>, a: nat, b: nat)
    requires DistinctIds(msgs) && a < |msgs| && b < |msgs| && msgs[a] == msgs[b]
    ensures a == b
  {
  }

  // ---- building the lookups ----

  ghost predicate IsLookup(byId: map<string, Message>, msgs: seq<Message>) {
    && (forall m :: m in msgs ==> m.id in byId && byId[m.id] == m)
    && (forall id :: id in byId ==> byId[id].id == id && byId[id] in msgs)
  }

  method Lookup(msgs: seq<Message>) returns (byId: map<string, Message>)
    requires DistinctIds(msgs)
    ensures IsLookup(byId, msgs)
  {
    byId := map[];
    for i := 0 to |msgs|
      invariant IsLookup(byId, msgs[..i])
    {
      TakeOne(msgs, i);
      LookupNext(byId, msgs[..i], msgs[i]);
      byId := byId[msgs[i].id := msgs[i]];
    }
    TakeAll(msgs);
  }

  lemma LookupNext(byId: map<string, Message>, init: seq<Message>, m: Message)
    requires IsLookup(byId, init) && forall x :: x in init ==> x.id != m.id
    ensures IsLookup(byId[m.id := m], init + [m])
  {
    InSnoc(init, m);
  }

  lemma ViewIsValid(byId: map<string, Message>, msgs: seq<Message>)
    requires DistinctIds(msgs) && IsLookup(byId, msgs) && forall m :: m in msgs ==> m.id != ""
    ensures ValidView(Visible(byId, Chronological(msgs)))
  {
    ChronologicalMeaning(msgs);
    forall id | id in byId ensures id != "" { assert byId[id] in msgs; }
  }

  ghost predicate IsBuckets(children: map<string, seq<Message>>, v: Visible, list: seq<Message>) {
    forall p {:trigger Bucket(children, p)} :: Bucket(children, p) == Under(v, list, p)
  }

  function Bucket(children: map<string, seq<Message>>, p: string): seq<Message> {
    if p in children then children[p] else []
  }

  method Buckets(v: Visible) returns (children: map<string, seq<Message>>)
    ensures IsBuckets(children, v, v.ordered)
  {
    children := map[];
    for i := 0 to |v.ordered|
      invariant IsBuckets(children, v, v.ordered[..i])
    {
      var m := v.ordered[i];
      var p := if m.inReplyTo != "" && m.inReplyTo in v.byId then m.inReplyTo else "";
      BucketNext(children, v, i);
      children := children[p := Bucket(children, p) + [m]];
    }
    TakeAll(v.ordered);
  }

  lemma BucketNext(children: map<string, seq<Message>>, v: Visible, i: nat)
    requires i < |v.ordered| && IsBuckets(children, v, v.ordered[..i])
    ensures var m := v.ordered[i];
      IsBuckets(children[Parent(v, m) := Bucket(children, Parent(v, m)) + [m]], v, v.ordered[..i + 1])
  {
    var m := v.ordered[i];
    var more := children[Parent(v, m) := Bucket(children, Parent(v, m)) + [m]];
    TakeOne(v.ordered, i);
    TakeInit(v.ordered[..i], m);
    forall p ensures Bucket(more, p) == Under(v, v.ordered[..i + 1], p) {
      assert Bucket(children, p) == Under(v, v.ordered[..i], p);
    }
  }

  function OutOfSight(v: Visible, list: seq<Message>): set<string> {
    set m | m in list && Dangling(v, m) :: m.id
  }

  // ---- the walk ----

  ghost predicate ShowsView(html: seq<Line>, before: seq<Line>, msgs: seq<Message>, byId: map<string, Message>) {
    && IsLookup(byId, msgs) && ValidView(Visible(byId, Chronological(msgs)))
    && html == before + Rendered(Visible(byId, Chronological(msgs)))
  }

  /** The page has gained the rendering of the messages in chronological order. */
  ghost predicate Shows(html: seq<Line>, before: seq<Line>, msgs: seq<Message>) {
    exists byId :: ShowsView(html, before, msgs, byId)
  }

  class Page {
    var html: seq<Line>
    var dangled: set<string>

    constructor ()
      ensures html == []
    {
      html, dangled := [], {};
    }

    /** Fills the lookups and walks from the root marker. Ids are distinct and not empty. */
    method RenderThreadDetail(msgs: seq<Message>)
      requires DistinctIds(msgs) && forall m :: m in msgs ==> m.id != ""
      modifies this
      ensures Shows(html, old(html), msgs)
    {
      var byId := Lookup(msgs);
      var v := Visible(byId, Chronological(msgs));
      ViewIsValid(byId, msgs);
      var children := Buckets(v);
      Dangle(v, msgs);
      ChronologicalMeaning(msgs);
      KidsAreSiblings(v, []);
      Walk(v, children, "", 0, []);
      assert ShowsView(html, old(html), msgs, byId);
    }

    method Dangle(v: Visible, msgs: seq<Message>)
      requires forall m :: m in v.ordered <==> m in msgs
      modifies this`dangled
      ensures dangled == OutOfSight(v, v.ordered)
    {
      dangled := {};
      for i := 0 to |msgs|
        invariant dangled == OutOfSight(v, msgs[..i])
      {
        TakeOne(msgs, i);
        InSnoc(msgs[..i], msgs[i]);
        if msgs[i].inReplyTo != "" && msgs[i].inReplyTo !in v.byId { dangled := dangled + {msgs[i].id}; }
      }
      TakeAll(msgs);
    }

    /** Ids out of sight are struck off as they are shown; they only occur below the root. */
    method Walk(v: Visible, children: map<string, seq<Message>>, id: string, depth: nat, ghost path: seq<string>)
      requires ValidView(v) && IsBuckets(children, v, v.ordered)
      requires IsPath(v, path) && Last(path) == id && Siblings(v, Kids(v, id), path)
      requires dangled <= OutOfSight(v, v.ordered) && (path == [] ==> dangled == OutOfSight(v, v.ordered))
      modifies this
      ensures html == old(html) + Lines(v, Kids(v, id), depth, path)
      ensures dangled <= old(dangled) && (path != [] ==> dangled == old(dangled))
      decreases |v.byId| - |path|, 1
    {
      assert Bucket(children, id) == Kids(v, id);
      var list := Bucket(children, id);
      for i := 0 to |list|
        invariant Siblings(v, list[..i], path) && html == old(html) + Lines(v, list[..i], depth, path)
        invariant dangled == Struck(v, list, path, i, old(dangled))
      {
        WalkNext(v, list, depth, path, i);
        StillDangling(v, list, path, i, old(dangled));
        Assoc(old(html), Lines(v, list[..i], depth, path), Block(v, list[i], depth, path));
        WalkOne(v, children, list[i], depth, path);
      }
      TakeAll(list);
    }

    /** The callback for one child: its lines, then its own children. */
    method WalkOne(v: Visible, children: map<string, seq<Message>>, m: Message, depth: nat, ghost path: seq<string>)
      requires ValidView(v) && IsBuckets(children, v, v.ordered) && Siblings(v, [m], path)
      requires dangled <= OutOfSight(v, v.ordered) && (m.id in dangled <==> Dangling(v, m))
      modifies this
      ensures html == old(html) + Block(v, m, depth, path)
      ensures dangled == if Dangling(v, m) then old(dangled) - {m.id} else old(dangled)
      decreases |v.byId| - |path|, 0
    {
      PathNext(v, [m], path, 0);
      Show(v, m, depth);
      assert Bucket(children, m.id) == Kids(v, m.id);
      var kids := Bucket(children, m.id);
      Walk(v, children, m.id, if |kids| > 1 then depth + 1 else depth, path + [m.id]);
      Assoc(old(html), Head(v, m, depth), Lines(v, Kids(v, m.id), KidDepth(v, m.id, depth), path + [m.id]));
    }

    method Show(v: Visible, m: Message, depth: nat)
      requires m.id in dangled <==> Dangling(v, m)
      modifies this
      ensures html == old(html) + Head(v, m, depth)
      ensures dangled == if Dangling(v, m) then old(dangled) - {m.id} else old(dangled)
    {
      if m.id in dangled {
        html := html + [Gap];
        dangled := dangled - {m.id};
      }
      html := html + [Row(m.id, depth)];
    }
  }

  lemma SiblingsPrefix(v: Visible, list: seq<Message>, path: seq<string>, i: nat)
    requires Siblings(v, list, path) && i <= |list|
    ensures Siblings(v, list[..i], path)
  {
    forall m | m in list[..i] ensures m in list { }
  }

  lemma LinesSnoc(v: Visible, init: seq<Message>, m: Message, depth: nat, path: seq<string>)
    requires ValidView(v) && Siblings(v, init + [m], path)
    ensures Siblings(v, init, path) && Siblings(v, [m], path)
    ensures Lines(v, init + [m], depth, path) == Lines(v, init, depth, path) + Block(v, m, depth, path)
  {
    TakeInit(init, m);
    SiblingsSplit(v, init + [m], path);
  }

  lemma WalkNext(v: Visible, list: seq<Message>, depth: nat, path: seq<string>, i: nat)
    requires ValidView(v) && Siblings(v, list, path) && i < |list|
    ensures Siblings(v, list[..i], path) && Siblings(v, list[..i + 1], path) && Siblings(v, [list[i]], path)
    ensures Lines(v, list[..i + 1], depth, path) == Lines(v, list[..i], depth, path) + Block(v, list[i], depth, path)
  {
    SiblingsPrefix(v, list, path, i + 1);
    TakeOne(list, i);
    LinesSnoc(v, list[..i], list[i], depth, path);
  }

  lemma PathNext(v: Visible, list: seq<Message>, path: seq<string>, i: nat)
    requires ValidView(v) && Siblings(v, list, path) && i < |list|
    ensures IsPath(v, path + [list[i].id]) && Last(path + [list[i].id]) == list[i].id && |path| < |v.byId|
    ensures Siblings(v, Kids(v, list[i].id), path + [list[i].id])
  {
    var m := list[i];
    assert m in list;
    PathExtends(v, path, m);
    KidsAreSiblings(v, path + [m.id]);
  }

  /** The ids struck off by the time list[i] is shown. */
  function Struck(v: Visible, list: seq<Message>, path: seq<string>, i: nat, before: set<string>): set<string>
    requires i <= |list|
  {
    if path == [] then before - OutOfSight(v, list[..i]) else before
  }

  lemma StillDangling(v: Visible, list: seq<Message>, path: seq<string>, i: nat, before: set<string>)
    requires ValidView(v) && Siblings(v, list, path) && i < |list|
    requires before <= OutOfSight(v, v.ordered) && (path == [] ==> before == OutOfSight(v, v.ordered))
    ensures list[i].id in Struck(v, list, path, i, before) <==> Dangling(v, list[i])
    ensures Struck(v, list, path, i + 1, before) ==
      if Dangling(v, list[i]) then Struck(v, list, path, i, before) - {list[i].id} else Struck(v, list, path, i, before)
  {
    var m := list[i];
    assert m in list;
    TakeOne(list, i);
    InSnoc(list[..i], m);
    assert OutOfSight(v, list[..i + 1]) == OutOfSight(v, list[..i]) + if Dangling(v, m) then {m.id} else {};
    DanglingIsRoot(v, m);
  }

  lemma DanglingIsRoot(v: Visible, m: Message)
    requires ValidView(v) && m.id in v.byId && v.byId[m.id] == m
    ensures m.id in OutOfSight(v, v.ordered) <==> Dangling(v, m)
    ensures Dangling(v, m) ==> Parent(v, m) == ""
  {
    assert m in v.ordered;
  }
}
