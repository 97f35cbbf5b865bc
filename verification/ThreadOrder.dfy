/** The order in which a thread is shown, and the place of each message. */
module ThreadOrder {
  import opened Mail
  import opened ThreadView
  import opened ThreadViewLaws

  // ---- paths ----

  /** m replies to nothing, or to a message that is not visible. */
  predicate StartsThread(v: Visible, m: Message) {
    m.inReplyTo == "" || m.inReplyTo !in v.byId
  }

  /** Each message of the path replies to the one before it, and the first starts a thread. */
  lemma PathMeaning(v: Visible, path: seq<string>)
    requires ValidView(v)
    ensures IsPath(v, path) <==>
      && (forall i :: 0 <= i < |path| ==> path[i] in v.byId)
      && (path != [] ==> StartsThread(v, v.byId[path[0]]))
      && (forall i :: 1 <= i < |path| ==> v.byId[path[i]].inReplyTo == path[i - 1])
      && (forall i, j :: 0 <= i < j < |path| ==> path[i] != path[j])
  {
    if forall i :: 0 <= i < |path| ==> path[i] in v.byId {
      forall i | 0 <= i < |path|
        ensures Parent(v, v.byId[path[i]]) == Last(path[..i]) <==>
          if i == 0 then StartsThread(v, v.byId[path[0]]) else v.byId[path[i]].inReplyTo == path[i - 1]
      {
        ParentOnPath(v, path, i);
      }
    }
  }

  lemma ParentOnPath(v: Visible, path: seq<string>, i: nat)
    requires ValidView(v) && i < |path| && forall i :: 0 <= i < |path| ==> path[i] in v.byId
    ensures Parent(v, v.byId[path[i]]) == Last(path[..i]) <==>
      if i == 0 then StartsThread(v, v.byId[path[0]]) else v.byId[path[i]].inReplyTo == path[i - 1]
  {
    assert Last(path[..i]) == if i == 0 then "" else path[i - 1];
    assert "" !in v.byId;
  }

  /** A row stands in the first column if its message starts a thread, and otherwise below the row
      of the message it replies to, one step further in if that has other replies; a placeholder
      precedes exactly the replies to messages out of sight. */
  lemma PlaceMeaning(v: Visible, i: nat)
    requires ValidView(v) && i < |Rendered(v)| && Rendered(v)[i].Row?
    ensures var lines := Rendered(v);
      lines[i].id in v.byId &&
      var m := v.byId[lines[i].id];
      && ((m.inReplyTo != "" && m.inReplyTo !in v.byId) <==> (i > 0 && lines[i - 1].Gap?))
      && if StartsThread(v, m) then lines[i].depth == 0
         else exists j :: BelowRow(v, lines, i, j, m.inReplyTo)
  {
    ShownBelowParent(v, i);
    var lines := Rendered(v);
    var m := v.byId[lines[i].id];
    assert "" !in v.byId;
    if !StartsThread(v, m) {
      var j :| 0 <= j < i && lines[j].Row? && lines[j].id == Parent(v, m)
        && lines[i].depth == KidDepth(v, lines[j].id, lines[j].depth);
      ForkMeaning(v, m.inReplyTo);
      assert BelowRow(v, lines, i, j, m.inReplyTo);
    }
  }

  /** Line j is the row of id, and line i stands one step further in if there is a fork. */
  ghost predicate BelowRow(v: Visible, lines: seq<Line>, i: nat, j: int, id: string)
    requires i < |lines| && lines[i].Row?
  {
    0 <= j < i && lines[j].Row? && lines[j].id == id
    && lines[i].depth == lines[j].depth + if HasFork(v, id) then 1 else 0
  }

  /** Two visible messages reply to id. */
  ghost predicate HasFork(v: Visible, id: string) {
    exists x, y :: x in v.byId && y in v.byId && x != y && v.byId[x].inReplyTo == id && v.byId[y].inReplyTo == id
  }

  lemma ForkMeaning(v: Visible, id: string)
    requires ValidView(v) && id in v.byId
    ensures |Kids(v, id)| > 1 <==> HasFork(v, id)
  {
    var kids := Kids(v, id);
    UnderDistinct(v, v.ordered, id);
    if |kids| > 1 {
      KidReplies(v, id, kids[0]);
      KidReplies(v, id, kids[1]);
    }
    if HasFork(v, id) {
      var x, y :| x in v.byId && y in v.byId && x != y && v.byId[x].inReplyTo == id && v.byId[y].inReplyTo == id;
      KidReplies(v, id, v.byId[x]);
      KidReplies(v, id, v.byId[y]);
      TwoIn(kids, v.byId[x], v.byId[y]);
    }
  }

  lemma KidReplies(v: Visible, id: string, m: Message)
    requires ValidView(v) && id in v.byId
    ensures m in Kids(v, id) <==> m.id in v.byId && v.byId[m.id] == m && m.inReplyTo == id
  {
    UnderMeaning(v, v.ordered, id);
  }

  lemma TwoIn<T>(s: seq<T>, x: T, y: T)
    requires x in s && y in s && x != y
    ensures |s| > 1
  {
  }

  // ---- order ----

  /** x comes before y in the chronological order. */
  ghost predicate Older(v: Visible, x: string, y: string) {
    exists a, b :: 0 <= a < b < |v.ordered| && v.ordered[a].id == x && v.ordered[b].id == y
  }

  ghost predicate OldestFirst(v: Visible, list: seq<Message>) {
    forall i, j :: 0 <= i < j < |list| ==> Older(v, list[i].id, list[j].id)
  }

  /** px leads on to py, or they part and px goes on with the older message. */
  ghost predicate TreeBefore(v: Visible, px: seq<string>, py: seq<string>) {
    px < py || exists k :: PartAt(px, py, k) && Older(v, px[k], py[k])
  }

  predicate PartAt(px: seq<string>, py: seq<string>, k: int) {
    0 <= k < |px| && k < |py| && (forall i :: 0 <= i < k ==> px[i] == py[i]) && px[k] != py[k]
  }

  /** No row of y stands before one of x. */
  ghost predicate Precedes(lines: seq<Line>, x: string, y: string) {
    forall i, j :: 0 <= i < |lines| && 0 <= j < |lines| && IsRow(lines[i], x) && IsRow(lines[j], y) ==> i < j
  }

  predicate IsRow(l: Line, x: string) {
    l.Row? && l.id == x
  }

  lemma OlderOnce(v: Visible, x: string, y: string)
    requires ValidView(v) && Older(v, x, y)
    ensures x != y && !Older(v, y, x)
  {
  }

  lemma {:induction false} UnderInOrder(v: Visible, list: seq<Message>, parent: string)
    requires OldestFirst(v, list)
    ensures OldestFirst(v, Under(v, list, parent))
  {
    if list != [] {
      var init, m := list[..|list| - 1], list[|list| - 1];
      UnderInOrder(v, init, parent);
      var u := Under(v, init, parent);
      forall i | 0 <= i < |u| ensures Older(v, u[i].id, m.id) { OlderThanLast(v, list, parent, i); }
    }
  }

  lemma OlderThanLast(v: Visible, list: seq<Message>, parent: string, i: nat)
    requires list != [] && OldestFirst(v, list) && i < |Under(v, list[..|list| - 1], parent)|
    ensures Older(v, Under(v, list[..|list| - 1], parent)[i].id, list[|list| - 1].id)
  {
    var init := list[..|list| - 1];
    UnderMeaning(v, init, parent);
    var u := Under(v, init, parent)[i];
    assert u in Under(v, init, parent);
    var k :| 0 <= k < |init| && init[k] == u;
    assert Older(v, list[k].id, list[|list| - 1].id);
  }

  lemma KidsInOrder(v: Visible, parent: string)
    ensures OldestFirst(v, Kids(v, parent))
  {
    UnderInOrder(v, v.ordered, parent);
  }

  lemma PrecedesConcat(a: seq<Line>, b: seq<Line>, x: string, y: string)
    requires Precedes(a, x, y) && Precedes(b, x, y) && (Count(a, y) == 0 || Count(b, x) == 0)
    ensures Precedes(a + b, x, y)
  {
    var c := a + b;
    forall i, j | 0 <= i < |c| && 0 <= j < |c| && IsRow(c[i], x) && IsRow(c[j], y) ensures i < j {
      if i < |a| && j < |a| {
        assert IsRow(a[i], x) && IsRow(a[j], y);
      } else if i >= |a| && j >= |a| {
        assert IsRow(b[i - |a|], x) && IsRow(b[j - |a|], y);
      } else if i >= |a| {
        RowCounts(a, y, j);
        RowCounts(b, x, i - |a|);
      }
    }
  }

  lemma {:induction false} RowCounts(lines: seq<Line>, x: string, i: nat)
    requires i < |lines| && IsRow(lines[i], x)
    ensures Count(lines, x) > 0
  {
    if i < |lines| - 1 { RowCounts(lines[..|lines| - 1], x, i); }
  }

  /** Two paths through different siblings go by their order. */
  lemma SiblingsPart(v: Visible, list: seq<Message>, m: Message, path: seq<string>, px: seq<string>, py: seq<string>)
    requires ValidView(v) && TreeBefore(v, px, py) && OldestFirst(v, list + [m])
    ensures !(Leads(list, path, py) && LeadsBy(m, path, px))
  {
    if Leads(list, path, py) && LeadsBy(m, path, px) {
      var n := |path|;
      var y :| y in list && y.id == py[n];
      var i :| 0 <= i < |list| && list[i] == y;
      assert (list + [m])[i] == y && (list + [m])[|list|] == m;
      assert Older(v, y.id, m.id);
      OlderOnce(v, y.id, m.id);
      forall k | 0 <= k < n ensures px[k] == py[k] { assert px[k] == px[..n][k] && py[k] == py[..n][k]; }
      PartHere(px, py, n);
    }
  }

  lemma PartHere(px: seq<string>, py: seq<string>, n: nat)
    requires PartAt(px, py, n)
    ensures !(px < py) && forall k :: PartAt(px, py, k) ==> k == n
  {
  }

  lemma NotItself(v: Visible, px: seq<string>, py: seq<string>)
    requires ValidView(v) && IsPath(v, px) && IsPath(v, py) && px != [] && py != [] && TreeBefore(v, px, py)
    ensures Last(px) != Last(py)
  {
    if Last(px) == Last(py) { UniquePath(v, px, py); }
  }

  /** Paths to x and y, that of x before that of y. */
  ghost predicate PathsTo(v: Visible, px: seq<string>, py: seq<string>, x: string, y: string) {
    && IsPath(v, px) && IsPath(v, py) && px != [] && py != [] && TreeBefore(v, px, py)
    && x == Last(px) && y == Last(py)
  }

  lemma OldestInit(v: Visible, init: seq<Message>, m: Message)
    requires OldestFirst(v, init + [m])
    ensures OldestFirst(v, init)
  {
    forall i, j | 0 <= i < j < |init| ensures Older(v, init[i].id, init[j].id) {
      assert Older(v, (init + [m])[i].id, (init + [m])[j].id);
    }
  }

  lemma {:induction false} LinesInOrder(v: Visible, list: seq<Message>, depth: nat, path: seq<string>,
      px: seq<string>, py: seq<string>, x: string, y: string)
    requires ValidView(v) && Siblings(v, list, path) && OldestFirst(v, list) && PathsTo(v, px, py, x, y)
    ensures Precedes(Lines(v, list, depth, path), x, y)
    decreases |v.byId| - |path|, |list|, 1
  {
    if list != [] {
      var init, m := list[..|list| - 1], list[|list| - 1];
      ListParts(v, list, init, m, path);
      LinesInOrder(v, init, depth, path, px, py, x, y);
      BlockInOrder(v, m, depth, path, px, py, x, y);
      JoinInOrder(v, list, init, m, depth, path, px, py, x, y);
    }
  }

  lemma ListParts(v: Visible, list: seq<Message>, init: seq<Message>, m: Message, path: seq<string>)
    requires ValidView(v) && Siblings(v, list, path) && OldestFirst(v, list)
    requires list != [] && init == list[..|list| - 1] && m == list[|list| - 1]
    ensures Siblings(v, init, path) && Siblings(v, [m], path) && OldestFirst(v, init) && |path| < |v.byId|
    ensures OldestFirst(v, init + [m]) && m.id in v.byId && v.byId[m.id] == m && Parent(v, m) == Last(path)
  {
    assert init + [m] == list;
    SiblingsSplit(v, list, path);
    OldestInit(v, init, m);
    PathExtends(v, path, m);
  }

  lemma JoinInOrder(v: Visible, list: seq<Message>, init: seq<Message>, m: Message, depth: nat, path: seq<string>,
      px: seq<string>, py: seq<string>, x: string, y: string)
    requires ValidView(v) && Siblings(v, list, path) && PathsTo(v, px, py, x, y) && OldestFirst(v, init + [m])
    requires list != [] && init == list[..|list| - 1] && m == list[|list| - 1] && |path| < |v.byId|
    requires Siblings(v, init, path) && Siblings(v, [m], path)
    requires Precedes(Lines(v, init, depth, path), x, y) && Precedes(Block(v, m, depth, path), x, y)
    ensures Precedes(Lines(v, list, depth, path), x, y)
  {
    NotTurned(v, init, m, depth, path, px, py, x, y);
    PrecedesConcat(Lines(v, init, depth, path), Block(v, m, depth, path), x, y);
  }

  lemma NotTurned(v: Visible, init: seq<Message>, m: Message, depth: nat, path: seq<string>,
      px: seq<string>, py: seq<string>, x: string, y: string)
    requires ValidView(v) && Siblings(v, init, path) && Siblings(v, [m], path) && OldestFirst(v, init + [m])
    requires PathsTo(v, px, py, x, y) && |path| < |v.byId|
    ensures Count(Lines(v, init, depth, path), y) == 0 || Count(Block(v, m, depth, path), x) == 0
  {
    CountIs(v, init, depth, path, py);
    BlockCount(v, m, depth, path, px);
    SiblingsPart(v, init, m, path, px, py);
  }

  lemma {:induction false} BlockInOrder(v: Visible, m: Message, depth: nat, path: seq<string>,
      px: seq<string>, py: seq<string>, x: string, y: string)
    requires ValidView(v) && Siblings(v, [m], path) && |path| < |v.byId| && PathsTo(v, px, py, x, y)
    ensures Precedes(Block(v, m, depth, path), x, y)
    decreases |v.byId| - |path|, 0, 0
  {
    assert m in [m];
    PathExtends(v, path, m);
    var more, d := path + [m.id], KidDepth(v, m.id, depth);
    KidsAreSiblings(v, more);
    KidsInOrder(v, m.id);
    LinesInOrder(v, Kids(v, m.id), d, more, px, py, x, y);
    HeadPrecedes(v, m, depth, px, py);
    if m.id == y {
      CountIs(v, Kids(v, m.id), d, more, px);
      assert Last(more) == m.id;
      UniquePath(v, more, py);
      NotBelow(v, px, py);
    } else {
      CountHead(v, m, depth, y);
    }
    PrecedesConcat(Head(v, m, depth), Lines(v, Kids(v, m.id), d, more), x, y);
  }

  lemma HeadPrecedes(v: Visible, m: Message, depth: nat, px: seq<string>, py: seq<string>)
    requires ValidView(v) && IsPath(v, px) && IsPath(v, py) && px != [] && py != [] && TreeBefore(v, px, py)
    ensures Precedes(Head(v, m, depth), Last(px), Last(py))
  {
    NotItself(v, px, py);
    OneRowPrecedes(Head(v, m, depth), Last(px), Last(py));
  }

  lemma OneRowPrecedes(lines: seq<Line>, x: string, y: string)
    requires x != y && |lines| > 0 && forall i :: 0 <= i < |lines| - 1 ==> lines[i].Gap?
    ensures Precedes(lines, x, y)
  {
  }

  /** A path does not go on from one that it precedes. */
  lemma NotBelow(v: Visible, px: seq<string>, py: seq<string>)
    requires TreeBefore(v, px, py)
    ensures !(|py| < |px| && px[..|py|] == py)
  {
    if |py| < |px| && px[..|py|] == py { PrefixNeverParts(px, py); }
  }

  lemma PrefixNeverParts(px: seq<string>, py: seq<string>)
    requires |py| < |px| && px[..|py|] == py
    ensures !(px < py) && forall k :: !PartAt(px, py, k)
  {
    forall k | 0 <= k < |py| ensures px[k] == py[k] { assert px[k] == px[..|py|][k]; }
  }

  /** The thread is shown as a tree is read: a message before its replies, and what belongs to an
      older reply before what belongs to a younger one. */
  lemma ShownAsTree(v: Visible, px: seq<string>, py: seq<string>)
    requires ValidView(v) && IsPath(v, px) && IsPath(v, py) && px != [] && py != [] && TreeBefore(v, px, py)
    ensures Precedes(Rendered(v), Last(px), Last(py))
  {
    KidsAreSiblings(v, []);
    KidsInOrder(v, "");
    LinesInOrder(v, Kids(v, ""), 0, [], px, py, Last(px), Last(py));
  }
}
