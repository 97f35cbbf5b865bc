/** What the rendered thread shows: every message once, below its parent, at the right depth. */
module ThreadViewLaws {
  import opened Mail
  import opened Sequences
  import opened Mailbox
  import opened ThreadView

  /** The whole rendering. */
  ghost function Rendered(v: Visible): seq<Line>
    requires ValidView(v)
  {
    KidsAreSiblings(v, []);
    Lines(v, Kids(v, ""), 0, [])
  }

  // ---- each message once ----

  function Count(lines: seq<Line>, id: string): nat {
    if lines == [] then 0
    else Count(lines[..|lines| - 1], id) + if lines[|lines| - 1].Row? && lines[|lines| - 1].id == id then 1 else 0
  }

  lemma {:induction false} CountConcat(a: seq<Line>, b: seq<Line>, id: string)
    ensures Count(a + b, id) == Count(a, id) + Count(b, id)
  {
    if b == [] {
      assert a + b == a;
    } else {
      var init := b[..|b| - 1];
      CountConcat(a, init, id);
      assert (a + b)[..|a + b| - 1] == a + init;
    }
  }

  /** A path is determined by its end. */
  lemma {:induction false} UniquePath(v: Visible, p: seq<string>, q: seq<string>)
    requires ValidView(v) && IsPath(v, p) && IsPath(v, q) && p != [] && q != [] && Last(p) == Last(q)
    ensures p == q
  {
    var x, y := p[..|p| - 1], q[..|q| - 1];
    PathInit(v, p);
    PathInit(v, q);
    EndNamed(v, x);
    EndNamed(v, y);
    if x != [] { UniquePath(v, x, y); }
    assert p == x + [Last(p)] && q == y + [Last(q)];
  }

  lemma EndNamed(v: Visible, p: seq<string>)
    requires ValidView(v) && IsPath(v, p)
    ensures Last(p) == "" <==> p == []
  {
    if p != [] { assert p[|p| - 1] in v.byId; }
  }

  lemma PathInit(v: Visible, p: seq<string>)
    requires IsPath(v, p) && p != []
    ensures IsPath(v, p[..|p| - 1]) && Last(p) in v.byId && Parent(v, v.byId[Last(p)]) == Last(p[..|p| - 1])
  {
    var x := p[..|p| - 1];
    forall i | 0 <= i < |x| ensures Parent(v, v.byId[x[i]]) == Last(x[..i]) { assert x[..i] == p[..i]; }
  }

  /** path leads to px's end through a message of the list. */
  ghost predicate Leads(list: seq<Message>, path: seq<string>, px: seq<string>) {
    |path| < |px| && px[..|path|] == path && exists m :: m in list && m.id == px[|path|]
  }

  ghost predicate LeadsBy(m: Message, path: seq<string>, px: seq<string>) {
    |path| < |px| && px[..|path|] == path && m.id == px[|path|]
  }

  lemma {:induction false} CountIs(v: Visible, list: seq<Message>, depth: nat, path: seq<string>, px: seq<string>)
    requires ValidView(v) && Siblings(v, list, path) && IsPath(v, px) && px != []
    ensures Count(Lines(v, list, depth, path), Last(px)) == if Leads(list, path, px) then 1 else 0
    decreases |v.byId| - |path|, |list|, 1
  {
    if list != [] {
      var init, m := list[..|list| - 1], list[|list| - 1];
      SiblingsSplit(v, list, path);
      CountIs(v, init, depth, path, px);
      PathExtends(v, path, m);
      BlockCount(v, m, depth, path, px);
      CountConcat(Lines(v, init, depth, path), Block(v, m, depth, path), Last(px));
      LeadsSplit(list, path, px);
    }
  }

  lemma LeadsSplit(list: seq<Message>, path: seq<string>, px: seq<string>)
    requires list != [] && DistinctIds(list)
    ensures Leads(list, path, px) <==> Leads(list[..|list| - 1], path, px) || LeadsBy(list[|list| - 1], path, px)
    ensures !(Leads(list[..|list| - 1], path, px) && LeadsBy(list[|list| - 1], path, px))
  {
    LastIn(list);
  }

  lemma {:induction false} BlockCount(v: Visible, m: Message, depth: nat, path: seq<string>, px: seq<string>)
    requires ValidView(v) && Siblings(v, [m], path) && IsPath(v, px) && px != [] && |path| < |v.byId|
    ensures Count(Block(v, m, depth, path), Last(px)) == if LeadsBy(m, path, px) then 1 else 0
    decreases |v.byId| - |path|, 0
  {
    assert m in [m];
    PathExtends(v, path, m);
    var more := path + [m.id];
    KidsAreSiblings(v, more);
    CountIs(v, Kids(v, m.id), KidDepth(v, m.id, depth), more, px);
    CountConcat(Head(v, m, depth), Lines(v, Kids(v, m.id), KidDepth(v, m.id, depth), more), Last(px));
    CountHead(v, m, depth, Last(px));
    LeadsOn(v, m, path, px);
  }

  lemma CountHead(v: Visible, m: Message, depth: nat, id: string)
    ensures Count(Head(v, m, depth), id) == if m.id == id then 1 else 0
  {
    CountOne(Gap, id);
    CountOne(Row(m.id, depth), id);
    CountConcat([Gap], [Row(m.id, depth)], id);
    assert [] + [Row(m.id, depth)] == [Row(m.id, depth)];
  }

  lemma CountOne(l: Line, id: string)
    ensures Count([l], id) == if l.Row? && l.id == id then 1 else 0
  {
    assert [l][..0] == [];
  }

  /** Either m is the end of px, or one of its kids leads on. */
  lemma LeadsOn(v: Visible, m: Message, path: seq<string>, px: seq<string>)
    requires ValidView(v) && Siblings(v, [m], path) && IsPath(v, px) && px != []
    ensures LeadsBy(m, path, px) <==> m.id == Last(px) || Leads(Kids(v, m.id), path + [m.id], px)
    ensures !(m.id == Last(px) && Leads(Kids(v, m.id), path + [m.id], px))
  {
    assert m in [m];
    var more := path + [m.id];
    PathExtends(v, path, m);
    ThroughMore(m.id, path, px);
    if m.id == Last(px) {
      assert Last(more) == m.id;
      UniquePath(v, more, px);
    } else if |more| < |px| && px[..|more|] == more {
      NextIsKid(v, m, more, px);
    }
  }

  /** Passing through id after path is having both as a prefix. */
  lemma ThroughMore(id: string, path: seq<string>, px: seq<string>)
    ensures (|path| < |px| && px[..|path|] == path && px[|path|] == id) <==>
      (|path + [id]| <= |px| && px[..|path + [id]|] == path + [id])
    ensures px == path + [id] ==> Last(px) == id
  {
    var more := path + [id];
    if |more| <= |px| && px[..|more|] == more {
      assert px[..|path|] == px[..|more|][..|path|] == path && px[|path|] == px[..|more|][|path|];
    }
    if |path| < |px| && px[..|path|] == path && px[|path|] == id { TakeOne(px, |path|); }
  }

  lemma NextIsKid(v: Visible, m: Message, more: seq<string>, px: seq<string>)
    requires ValidView(v) && IsPath(v, px) && |more| < |px| && px[..|more|] == more && Last(more) == m.id && more != []
    ensures Leads(Kids(v, m.id), more, px)
  {
    var y := v.byId[px[|more|]];
    UnderMeaning(v, v.ordered, m.id);
    assert y in Kids(v, m.id) && y.id == px[|more|];
  }

  /** id hangs on a root by visible parents. */
  ghost predicate Rooted(v: Visible, id: string) {
    exists path :: IsPath(v, path) && path != [] && Last(path) == id
  }

  /** A message is shown once if visible parents lead from it to a root, and otherwise not. */
  lemma ShownOnce(v: Visible, id: string)
    requires ValidView(v)
    ensures Count(Rendered(v), id) == if Rooted(v, id) then 1 else 0
  {
    KidsAreSiblings(v, []);
    var roots := Kids(v, "");
    if Rooted(v, id) {
      var px :| IsPath(v, px) && px != [] && Last(px) == id;
      CountIs(v, roots, 0, [], px);
      UnderMeaning(v, v.ordered, "");
      assert px[..0] == [];
      assert v.byId[px[0]] in roots;
    } else {
      ShownIsRooted(v, roots, 0, [], id);
    }
  }

  lemma {:induction false} ShownIsRooted(v: Visible, list: seq<Message>, depth: nat, path: seq<string>, id: string)
    requires ValidView(v) && Siblings(v, list, path) && !Rooted(v, id)
    ensures Count(Lines(v, list, depth, path), id) == 0
    decreases |v.byId| - |path|, |list|
  {
    if list != [] {
      var init, m := list[..|list| - 1], list[|list| - 1];
      SiblingsSplit(v, list, path);
      ShownIsRooted(v, init, depth, path, id);
      PathExtends(v, path, m);
      var more := path + [m.id];
      KidsAreSiblings(v, more);
      assert Last(more) == m.id;
      ShownIsRooted(v, Kids(v, m.id), KidDepth(v, m.id, depth), more, id);
      CountHead(v, m, depth, id);
      CountConcat(Head(v, m, depth), Lines(v, Kids(v, m.id), KidDepth(v, m.id, depth), more), id);
      CountConcat(Lines(v, init, depth, path), Block(v, m, depth, path), id);
    }
  }

  /** With the stored reply relation well-founded, every visible message hangs on a root. */
  lemma {:induction false} AllRooted(v: Visible, msgs: map<string, Message>, rank: map<string, nat>, id: string)
    requires ValidView(v) && Ranks(rank, msgs) && id in v.byId
    requires forall i :: i in v.byId ==> i in msgs && msgs[i] == v.byId[i]
    ensures Rooted(v, id)
    decreases if id in rank then rank[id] else 0
  {
    var m := v.byId[id];
    assert Above(rank, msgs, id);
    var path: seq<string> := [];
    if Parent(v, m) != "" {
      assert Above(rank, msgs, m.inReplyTo);
      AllRooted(v, msgs, rank, m.inReplyTo);
      path :| IsPath(v, path) && path != [] && Last(path) == m.inReplyTo;
    }
    PathExtends(v, path, m);
    assert Last(path + [id]) == id;
  }

  /** So the panel shows every visible message of the store exactly once. */
  lemma EverythingShown(v: Visible, b: Box, id: string)
    requires ValidView(v) && ValidBox(b) && forall i :: i in v.byId ==> i in b.messages && b.messages[i] == v.byId[i]
    requires id in v.byId
    ensures Count(Rendered(v), id) == 1
  {
    var rank: map<string, nat> :| Ranks(rank, b.messages);
    AllRooted(v, b.messages, rank, id);
    ShownOnce(v, id);
  }

  // ---- below its parent, at the right depth ----

  /** Line i is a reply below the row of its parent, indented if the parent has other replies. */
  ghost predicate BelowParent(v: Visible, lines: seq<Line>, i: nat)
    requires i < |lines| && lines[i].Row? && lines[i].id in v.byId
  {
    exists j :: 0 <= j < i && lines[j].Row? && lines[j].id == Parent(v, v.byId[lines[i].id])
      && lines[i].depth == KidDepth(v, lines[j].id, lines[j].depth)
  }

  /** Each row is one of the siblings below path or below its parent's row; a placeholder
      stands before exactly the rows whose parent is out of sight. */
  ghost predicate PlacedAt(v: Visible, lines: seq<Line>, depth: nat, path: seq<string>, i: nat)
    requires i < |lines|
  {
    match lines[i]
    case Gap => i + 1 < |lines| && lines[i + 1].Row?
    case Row(id, d) =>
      && id in v.byId
      && (Dangling(v, v.byId[id]) <==> i > 0 && lines[i - 1].Gap?)
      && ((Parent(v, v.byId[id]) == Last(path) && d == depth) || BelowParent(v, lines, i))
  }

  ghost predicate Placed(v: Visible, lines: seq<Line>, depth: nat, path: seq<string>) {
    forall i {:trigger PlacedAt(v, lines, depth, path, i)} :: 0 <= i < |lines| ==> PlacedAt(v, lines, depth, path, i)
  }

  lemma PlacedConcat(v: Visible, a: seq<Line>, b: seq<Line>, depth: nat, path: seq<string>)
    requires Placed(v, a, depth, path) && Placed(v, b, depth, path)
    ensures Placed(v, a + b, depth, path)
  {
    var c := a + b;
    forall i | 0 <= i < |c| ensures PlacedAt(v, c, depth, path, i) {
      if i < |a| {
        assert PlacedAt(v, a, depth, path, i);
        PlacedPrefix(v, a, b, depth, path, i);
      } else {
        assert PlacedAt(v, b, depth, path, i - |a|);
        if a != [] { assert PlacedAt(v, a, depth, path, |a| - 1); }
        PlacedSuffix(v, a, b, depth, path, i - |a|);
      }
    }
  }

  lemma PlacedPrefix(v: Visible, a: seq<Line>, b: seq<Line>, depth: nat, path: seq<string>, i: nat)
    requires i < |a| && PlacedAt(v, a, depth, path, i)
    ensures PlacedAt(v, a + b, depth, path, i)
  {
    var c := a + b;
    if a[i].Row? && BelowParent(v, a, i) {
      var j :| 0 <= j < i && a[j].Row? && a[j].id == Parent(v, v.byId[a[i].id])
        && a[i].depth == KidDepth(v, a[j].id, a[j].depth);
      assert c[j] == a[j] && c[i] == a[i];
    }
  }

  lemma PlacedSuffix(v: Visible, a: seq<Line>, b: seq<Line>, depth: nat, path: seq<string>, k: nat)
    requires k < |b| && PlacedAt(v, b, depth, path, k) && (a == [] || a[|a| - 1].Row?)
    ensures PlacedAt(v, a + b, depth, path, |a| + k)
  {
    var c := a + b;
    if b[k].Row? && BelowParent(v, b, k) {
      var j :| 0 <= j < k && b[j].Row? && b[j].id == Parent(v, v.byId[b[k].id])
        && b[k].depth == KidDepth(v, b[j].id, b[j].depth);
      assert c[|a| + j] == b[j] && c[|a| + k] == b[k];
    }
  }

  lemma {:induction false} LinesPlaced(v: Visible, list: seq<Message>, depth: nat, path: seq<string>)
    requires ValidView(v) && Siblings(v, list, path)
    ensures Placed(v, Lines(v, list, depth, path), depth, path)
    decreases |v.byId| - |path|, |list|, 1
  {
    if list != [] {
      var init, m := list[..|list| - 1], list[|list| - 1];
      SiblingsSplit(v, list, path);
      LinesPlaced(v, init, depth, path);
      PathExtends(v, path, m);
      BlockPlaced(v, m, depth, path);
      PlacedConcat(v, Lines(v, init, depth, path), Block(v, m, depth, path), depth, path);
    }
  }

  lemma {:induction false} BlockPlaced(v: Visible, m: Message, depth: nat, path: seq<string>)
    requires ValidView(v) && Siblings(v, [m], path) && |path| < |v.byId|
    ensures Placed(v, Block(v, m, depth, path), depth, path)
    decreases |v.byId| - |path|, 0
  {
    assert m in [m];
    PathExtends(v, path, m);
    var more := path + [m.id];
    KidsAreSiblings(v, more);
    assert Last(more) == m.id;
    var kids := Lines(v, Kids(v, m.id), KidDepth(v, m.id, depth), more);
    LinesPlaced(v, Kids(v, m.id), KidDepth(v, m.id, depth), more);
    HeadPlaced(v, m, depth, path, kids);
  }

  lemma HeadPlaced(v: Visible, m: Message, depth: nat, path: seq<string>, kids: seq<Line>)
    requires m.id in v.byId && v.byId[m.id] == m && Parent(v, m) == Last(path)
    requires Placed(v, kids, KidDepth(v, m.id, depth), path + [m.id])
    ensures Placed(v, Head(v, m, depth) + kids, depth, path)
  {
    var h := Head(v, m, depth);
    var c := h + kids;
    forall i | 0 <= i < |c| ensures PlacedAt(v, c, depth, path, i) {
      if i >= |h| {
        assert PlacedAt(v, kids, KidDepth(v, m.id, depth), path + [m.id], i - |h|);
        PlacedSuffix(v, h, kids, KidDepth(v, m.id, depth), path + [m.id], i - |h|);
        assert c[|h| - 1] == Row(m.id, depth);
      }
    }
  }

  /** In the rendering, a row without a visible parent stands at depth 0, and any other below
      its parent; a placeholder marks exactly the messages whose parent is out of sight. */
  lemma ShownBelowParent(v: Visible, i: nat)
    requires ValidView(v) && i < |Rendered(v)| && Rendered(v)[i].Row?
    ensures var lines := Rendered(v);
      var id := lines[i].id;
      && id in v.byId
      && (Dangling(v, v.byId[id]) <==> i > 0 && lines[i - 1].Gap?)
      && (if Parent(v, v.byId[id]) == "" then lines[i].depth == 0 else BelowParent(v, lines, i))
  {
    KidsAreSiblings(v, []);
    LinesPlaced(v, Kids(v, ""), 0, []);
    var lines := Rendered(v);
    assert PlacedAt(v, lines, 0, [], i);
    if BelowParent(v, lines, i) {
      var j :| 0 <= j < i && lines[j].Row? && lines[j].id == Parent(v, v.byId[lines[i].id])
        && lines[i].depth == KidDepth(v, lines[j].id, lines[j].depth);
      assert PlacedAt(v, lines, 0, [], j);
    }
  }
}
