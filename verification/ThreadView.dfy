/** The panel's rendering of a thread: replies bucketed under visible parents, then walked. */
module ThreadView {
  import opened Sorting
  import opened Sequences
  import opened Mail
  import opened Cuts

  /** A placeholder for unseen context, or a message at its indentation. */
  datatype Line = Gap | Row(id: string, depth: nat)

  /** The visible messages by id, and all of them in chronological order. */
  datatype Visible = Visible(byId: map<string, Message>, ordered: seq<Message>)

  /** The visible parent, or the root marker "". */
  function Parent(v: Visible, m: Message): string {
    if m.inReplyTo != "" && m.inReplyTo in v.byId then m.inReplyTo else ""
  }

  predicate Dangling(v: Visible, m: Message) {
    m.inReplyTo != "" && m.inReplyTo !in v.byId
  }

  ghost predicate ValidView(v: Visible) {
    && (forall id :: id in v.byId ==> id != "" && v.byId[id].id == id)
    && (forall m :: m in v.ordered <==> m.id in v.byId && v.byId[m.id] == m)
    && DistinctIds(v.ordered)
  }

  predicate DistinctIds(list: seq<Message>) {
    forall i, j :: 0 <= i < j < |list| ==> list[i].id != list[j].id
  }

  /** The messages of list under the parent, in the list's order. */
  function Under(v: Visible, list: seq<Message>, parent: string): seq<Message> {
    if list == [] then []
    else
      var m := list[|list| - 1];
      Under(v, list[..|list| - 1], parent) + if Parent(v, m) == parent then [m] else []
  }

  function Kids(v: Visible, parent: string): seq<Message> {
    Under(v, v.ordered, parent)
  }

  /** Only true forks indent. */
  function KidDepth(v: Visible, id: string, depth: nat): nat {
    if |Kids(v, id)| > 1 then depth + 1 else depth
  }

  // ---- paths from the root ----

  function Last(path: seq<string>): string {
    if path == [] then "" else path[|path| - 1]
  }

  /** A chain of distinct visible messages, each the parent of the next, from a root. */
  ghost predicate IsPath(v: Visible, path: seq<string>) {
    && (forall i :: 0 <= i < |path| ==> path[i] in v.byId)
    && (forall i :: 0 <= i < |path| ==> Parent(v, v.byId[path[i]]) == Last(path[..i]))
    && (forall i, j :: 0 <= i < j < |path| ==> path[i] != path[j])
  }

  lemma NotOnPath(v: Visible, path: seq<string>, m: Message, j: nat)
    requires ValidView(v) && IsPath(v, path) && j < |path|
    requires m.id in v.byId && v.byId[m.id] == m && Parent(v, m) == Last(path)
    ensures path[j] != m.id
  {
    var p := Last(path[..j]);
    assert p == if j == 0 then "" else path[j - 1];
    assert Parent(v, v.byId[path[j]]) == p;
    assert Last(path) == path[|path| - 1] && path[|path| - 1] in v.byId;
  }

  lemma PathExtends(v: Visible, path: seq<string>, m: Message)
    requires ValidView(v) && IsPath(v, path)
    requires m.id in v.byId && v.byId[m.id] == m && Parent(v, m) == Last(path)
    ensures IsPath(v, path + [m.id]) && |path| < |v.byId|
  {
    var more := path + [m.id];
    forall j | 0 <= j < |path| ensures path[j] != m.id { NotOnPath(v, path, m, j); }
    forall i | 0 <= i < |more| ensures Parent(v, v.byId[more[i]]) == Last(more[..i]) {
      assert more[..i] == if i < |path| then path[..i] else path;
    }
    PathFits(v, more);
  }

  lemma PathFits(v: Visible, path: seq<string>)
    requires forall i :: 0 <= i < |path| ==> path[i] in v.byId
    requires forall i, j :: 0 <= i < j < |path| ==> path[i] != path[j]
    ensures |path| <= |v.byId|
  {
    DistinctCount(path);
    forall x | x in Elements(path) ensures x in v.byId.Keys { }
    SubsetSize(Elements(path), v.byId.Keys);
  }

  // ---- what the walk emits ----

  ghost predicate Siblings(v: Visible, list: seq<Message>, path: seq<string>) {
    && IsPath(v, path)
    && (forall m :: m in list ==> m.id in v.byId && v.byId[m.id] == m && Parent(v, m) == Last(path))
    && DistinctIds(list)
  }

  /** What the walk adds for the siblings in list, below the path. */
  ghost function Lines(v: Visible, list: seq<Message>, depth: nat, path: seq<string>): seq<Line>
    requires ValidView(v) && Siblings(v, list, path)
    decreases |v.byId| - |path|, |list|
  {
    if list == [] then []
    else
      var init, m := list[..|list| - 1], list[|list| - 1];
      SiblingsSplit(v, list, path);
      PathExtends(v, path, m);
      Lines(v, init, depth, path) + Block(v, m, depth, path)
  }

  /** What it adds for one message: a placeholder if the parent is out of sight, the message,
      and its subtree. */
  ghost function Block(v: Visible, m: Message, depth: nat, path: seq<string>): seq<Line>
    requires ValidView(v) && Siblings(v, [m], path)
    decreases |v.byId| - |path|, 0
  {
    assert m in [m];
    PathExtends(v, path, m);
    KidsAreSiblings(v, path + [m.id]);
    Head(v, m, depth) + Lines(v, Kids(v, m.id), KidDepth(v, m.id, depth), path + [m.id])
  }

  function Head(v: Visible, m: Message, depth: nat): seq<Line> {
    (if Dangling(v, m) then [Gap] else []) + [Row(m.id, depth)]
  }

  lemma SiblingsSplit(v: Visible, list: seq<Message>, path: seq<string>)
    requires Siblings(v, list, path) && list != []
    ensures Siblings(v, list[..|list| - 1], path) && Siblings(v, [list[|list| - 1]], path)
    ensures var m := list[|list| - 1]; m in list && m.id in v.byId && v.byId[m.id] == m && Parent(v, m) == Last(path)
  {
    LastIn(list);
  }

  lemma {:induction false} UnderMeaning(v: Visible, list: seq<Message>, parent: string)
    ensures forall m :: m in Under(v, list, parent) <==> m in list && Parent(v, m) == parent
  {
    if list != [] {
      UnderMeaning(v, list[..|list| - 1], parent);
      LastIn(list);
      InSnoc(Under(v, list[..|list| - 1], parent), list[|list| - 1]);
    }
  }

  lemma {:induction false} UnderDistinct(v: Visible, list: seq<Message>, parent: string)
    requires DistinctIds(list)
    ensures DistinctIds(Under(v, list, parent))
  {
    if list != [] {
      var init, m := list[..|list| - 1], list[|list| - 1];
      UnderDistinct(v, init, parent);
      UnderMeaning(v, init, parent);
      var u := Under(v, init, parent);
      forall i | 0 <= i < |u| ensures u[i].id != m.id {
        assert u[i] in u;
        var j :| 0 <= j < |init| && init[j] == u[i];
        assert list[j].id != list[|list| - 1].id;
      }
    }
  }

  lemma KidsAreSiblings(v: Visible, path: seq<string>)
    requires ValidView(v) && IsPath(v, path)
    ensures Siblings(v, Kids(v, Last(path)), path)
  {
    UnderMeaning(v, v.ordered, Last(path));
    UnderDistinct(v, v.ordered, Last(path));
  }
}
