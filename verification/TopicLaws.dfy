/** What a topic says of its messages, and what a page of topics holds. */
module TopicLaws {
  import opened Text
  import opened Sorting
  import opened Mail
  import opened Components
  import opened ThreadComponents
  import opened ThreadIndex

  // ---- the relation that makes a topic ----

  /** One of the two visible messages replies to the other. */
  ghost predicate Answers(msgs: map<string, Message>, a: string, b: string) {
    a in msgs && b in msgs && ((msgs[a].inReplyTo == b && b != "") || (msgs[b].inReplyTo == a && a != ""))
  }

  ghost predicate IsThread(msgs: map<string, Message>, p: seq<string>, a: string, b: string) {
    && p != [] && p[0] == a && p[|p| - 1] == b
    && forall i :: 0 <= i < |p| - 1 ==> Answers(msgs, p[i], p[i + 1])
  }

  /** Being connected is having a chain of replies between them, in either direction. */
  lemma ConnectedByReplies(msgs: map<string, Message>, a: string, b: string)
    ensures Connected(ReplyLinks(msgs), a, b) <==> exists p :: IsThread(msgs, p, a, b)
  {
    if p :| IsWalk(ReplyLinks(msgs), p, a, b) {
      forall i | 0 <= i < |p| - 1 ensures Answers(msgs, p[i], p[i + 1]) {
        assert Linked(ReplyLinks(msgs), p[i], p[i + 1]);
      }
      assert IsThread(msgs, p, a, b);
    }
    if p :| IsThread(msgs, p, a, b) {
      forall i | 0 <= i < |p| - 1 ensures Linked(ReplyLinks(msgs), p[i], p[i + 1]) {
        assert Answers(msgs, p[i], p[i + 1]);
      }
      assert IsWalk(ReplyLinks(msgs), p, a, b);
    }
  }

  // ---- what a topic says ----

  /** The addresses of a message in the order in which they are read. */
  ghost predicate StandsAt(ms: seq<Message>, x: string, k: nat, p: nat) {
    k < |ms| && p < 1 + |ms[k].to| + |ms[k].cc| &&
    x == if p == 0 then ms[k].from
         else if p <= |ms[k].to| then ms[k].to[p - 1] else ms[k].cc[p - 1 - |ms[k].to|]
  }

  ghost predicate ComesBefore(k: nat, p: nat, l: nat, q: nat) {
    k < l || (k == l && p < q)
  }

  /** x first stands before y does. */
  ghost predicate MentionedFirst(ms: seq<Message>, x: string, y: string) {
    exists k, p :: StandsAt(ms, x, k, p) && forall l, q :: StandsAt(ms, y, l, q) ==> ComesBefore(k, p, l, q)
  }

  /** A topic has exactly the messages that replies connect, oldest first, and takes root and
      subject from the first, its time from the latest. */
  lemma TopicMeaning(msgs: map<string, Message>, id: string)
    requires Keyed(msgs) && id in msgs
    ensures var c := ComponentOf(msgs, id);
      && (forall m :: m in c.members <==>
           m.id in msgs && msgs[m.id] == m && exists p :: IsThread(msgs, p, id, m.id))
      && (forall i, j :: 0 <= i < j < |c.members| ==> Less(c.members[i].id, c.members[j].id))
      && c.members != [] && c.root == c.members[0] && c.subject == c.members[0].subject
      && (exists m :: m in c.members && m.receivedAt == c.lastAt)
      && (forall m :: m in c.members ==> m.receivedAt <= c.lastAt)
  {
    var c, ids := ComponentOf(msgs, id), Block(msgs, id);
    forall m
      ensures m in c.members <==> m.id in msgs && msgs[m.id] == m && exists p :: IsThread(msgs, p, id, m.id)
    {
      if m in c.members { MemberIsVisible(msgs, id, m); }
      if m.id in msgs { MemberIds(msgs, ids, m.id); }
      ConnectedByReplies(msgs, id, m.id);
    }
    forall i, j | 0 <= i < j < |c.members| ensures Less(c.members[i].id, c.members[j].id) {
      assert ById(c.members[i], c.members[j]);
    }
  }

  /** Its participants are all addresses that its messages name, each once, in the order in
      which they are first named. */
  lemma ParticipantsMeaning(msgs: map<string, Message>, id: string)
    requires Keyed(msgs) && id in msgs
    ensures var c := ComponentOf(msgs, id);
      && (forall x :: x in c.parts <==> exists k, p :: StandsAt(c.members, x, k, p))
      && (forall i, j :: 0 <= i < j < |c.parts| ==> c.parts[i] != c.parts[j])
      && (forall i, j :: 0 <= i < j < |c.parts| ==> MentionedFirst(c.members, c.parts[i], c.parts[j]))
  {
    var c := ComponentOf(msgs, id);
    forall x ensures x in c.parts <==> exists k, p :: StandsAt(c.members, x, k, p) { NamedSomewhere(c.members, x); }
    forall i, j | 0 <= i < j < |c.parts| ensures MentionedFirst(c.members, c.parts[i], c.parts[j]) {
      FirstNamed(c.members, i, j);
    }
  }

  lemma OneMessage(ms: seq<Message>, x: string, k: nat, p: nat)
    requires k < |ms| && p < |Addresses(ms[k])|
    ensures StandsAt(ms, x, k, p) <==> Addresses(ms[k])[p] == x
  {
  }

  lemma {:induction false} NamedSomewhere(ms: seq<Message>, x: string)
    ensures x in AllAddresses(ms) <==> exists k, p :: StandsAt(ms, x, k, p)
  {
    if ms != [] {
      var n := |ms| - 1;
      NamedSomewhere(ms[..n], x);
      if x in Addresses(ms[n]) {
        var p :| 0 <= p < |Addresses(ms[n])| && Addresses(ms[n])[p] == x;
        OneMessage(ms, x, n, p);
      }
      forall k, p | StandsAt(ms[..n], x, k, p) ensures StandsAt(ms, x, k, p) { }
      forall k, p | StandsAt(ms, x, k, p) ensures StandsAt(ms[..n], x, k, p) || x in Addresses(ms[n]) {
        if k == n { OneMessage(ms, x, n, p); }
      }
    }
  }

  /** y is not among the first u + 1. */
  ghost predicate NotUpTo(all: seq<string>, u: nat, y: string) {
    forall v :: 0 <= v <= u && v < |all| ==> all[v] != y
  }

  ghost predicate AllLater(ms: seq<Message>, y: string, k: nat, p: nat) {
    forall l, q :: StandsAt(ms, y, l, q) ==> ComesBefore(k, p, l, q)
  }

  /** The place in the messages of a place in the flat list of addresses; what is not up to the
      one comes after the other. */
  lemma {:induction false} PlaceOf(ms: seq<Message>, u: nat, y: string) returns (k: nat, p: nat)
    requires u < |AllAddresses(ms)| && NotUpTo(AllAddresses(ms), u, y)
    ensures StandsAt(ms, AllAddresses(ms)[u], k, p) && AllLater(ms, y, k, p)
  {
    var n := |ms| - 1;
    var init, more := AllAddresses(ms[..n]), Addresses(ms[n]);
    assert AllAddresses(ms) == init + more;
    SplitUpTo(init, more, u, y);
    if u < |init| {
      k, p := PlaceOf(ms[..n], u, y);
      EarlierPlace(ms, n, k, p, y);
    } else {
      k, p := n, u - |init|;
      OneMessage(ms, more[p], n, p);
      NowhereBefore(ms, n, y);
      LaterPlace(ms, n, p, y);
    }
  }

  lemma SplitUpTo(a: seq<string>, b: seq<string>, u: nat, y: string)
    requires u < |a + b| && NotUpTo(a + b, u, y)
    ensures if u < |a| then NotUpTo(a, u, y) else y !in a && NotUpTo(b, u - |a|, y)
  {
    forall v | 0 <= v <= u && v < |a| ensures a[v] != y { assert (a + b)[v] == a[v]; }
    forall v | 0 <= v <= u - |a| && v < |b| ensures b[v] != y { assert (a + b)[|a| + v] == b[v]; }
  }

  lemma EarlierPlace(ms: seq<Message>, n: nat, k: nat, p: nat, y: string)
    requires n == |ms| - 1 && k < n && AllLater(ms[..n], y, k, p)
    ensures AllLater(ms, y, k, p)
  {
    forall l: nat, q: nat | StandsAt(ms, y, l, q) ensures ComesBefore(k, p, l, q) {
      if l < n { assert StandsAt(ms[..n], y, l, q); }
    }
  }

  lemma NowhereBefore(ms: seq<Message>, n: nat, y: string)
    requires n == |ms| - 1 && y !in AllAddresses(ms[..n])
    ensures forall l, q :: StandsAt(ms, y, l, q) ==> l == n
  {
    NamedSomewhere(ms[..n], y);
    PrefixPlaces(ms, n, y);
  }

  lemma PrefixPlaces(ms: seq<Message>, n: nat, y: string)
    requires n <= |ms|
    ensures forall l: nat, q: nat :: l < n && StandsAt(ms, y, l, q) ==> StandsAt(ms[..n], y, l, q)
  {
  }

  lemma LaterPlace(ms: seq<Message>, n: nat, p: nat, y: string)
    requires n == |ms| - 1 && (forall l, q :: StandsAt(ms, y, l, q) ==> l == n) && NotUpTo(Addresses(ms[n]), p, y)
    ensures AllLater(ms, y, n, p)
  {
    forall l: nat, q: nat | StandsAt(ms, y, l, q) ensures ComesBefore(n, p, l, q) { OneMessage(ms, y, n, q); }
  }

  /** Without repeats, what comes earlier has appeared before what comes later. */
  lemma {:induction false} AppearsFirst(s: seq<string>, i: nat, j: nat) returns (u: nat)
    requires i < j < |FirstAppearances(s)|
    ensures u < |s| && s[u] == FirstAppearances(s)[i] && NotUpTo(s, u, FirstAppearances(s)[j])
  {
    var init, r := s[..|s| - 1], FirstAppearances(s);
    if j < |FirstAppearances(init)| {
      u := AppearsFirst(init, i, j);
    } else {
      assert r[i] in FirstAppearances(init) && r[i] in init;
      u :| 0 <= u < |init| && init[u] == r[i];
      assert r[j] !in init;
    }
  }

  lemma FirstNamed(ms: seq<Message>, i: nat, j: nat)
    requires i < j < |FirstAppearances(AllAddresses(ms))|
    ensures var parts := FirstAppearances(AllAddresses(ms)); MentionedFirst(ms, parts[i], parts[j])
  {
    var all := AllAddresses(ms);
    var u := AppearsFirst(all, i, j);
    var k, p := PlaceOf(ms, u, FirstAppearances(all)[j]);
  }

  // ---- the index and its pages ----

  ghost predicate IsTopic(msgs: map<string, Message>, c: Component, minCount: int)
    requires Keyed(msgs)
  {
    |c.members| >= minCount && exists id :: IsTopicOf(msgs, c, id)
  }

  ghost predicate IsTopicOf(msgs: map<string, Message>, c: Component, id: string)
    requires Keyed(msgs)
  {
    id in msgs && c == ComponentOf(msgs, id)
  }

  /** The latest activity first, and among equals the smaller root id. */
  ghost predicate Precedes(c: Component, d: Component) {
    c.lastAt > d.lastAt || (c.lastAt == d.lastAt && Less(c.root.id, d.root.id))
  }

  /** The index lists each topic with enough members, once and in order. */
  lemma IndexMeaning(msgs: map<string, Message>, minCount: int)
    requires Keyed(msgs) && Coherent(ComponentMap(msgs), msgs)
    ensures var all := Index(msgs, ComponentMap(msgs), minCount);
      && (forall c :: c in all <==> IsTopic(msgs, c, minCount))
      && (forall i, j :: 0 <= i < j < |all| ==> all[i] != all[j] && Precedes(all[i], all[j]))
  {
    var comp := ComponentMap(msgs);
    var all := Index(msgs, comp, minCount);
    forall c ensures c in all <==> IsTopic(msgs, c, minCount) {
      assert c in all <==> c in Topics(comp, minCount);
      TopicListed(msgs, comp, c, minCount);
    }
    TopicsAreOrdered(msgs, comp, minCount);
    ListsDistinct(all, Topics(comp, minCount), TopicOrder);
    forall i, j | 0 <= i < j < |all| ensures Precedes(all[i], all[j]) { assert TopicOrder(all[i], all[j]); }
  }

  lemma TopicListed(msgs: map<string, Message>, comp: map<string, Component>, c: Component, minCount: int)
    requires Keyed(msgs) && IsComponentMap(comp, msgs)
    ensures c in Topics(comp, minCount) <==> IsTopic(msgs, c, minCount)
  {
    if c in comp.Values {
      var id :| id in comp && comp[id] == c;
      ListedIsTopic(msgs, comp, id);
    }
    forall id | IsTopicOf(msgs, c, id) ensures c in comp.Values { ListedIsTopic(msgs, comp, id); }
  }

  lemma ListedIsTopic(msgs: map<string, Message>, comp: map<string, Component>, id: string)
    requires Keyed(msgs) && IsComponentMap(comp, msgs) && id in msgs
    ensures id in comp && comp[id] in comp.Values && IsTopicOf(msgs, comp[id], id)
    ensures forall c :: IsTopicOf(msgs, c, id) ==> c == comp[id]
  {
    assert At(comp, msgs, id);
  }

  /** A row of a page repeats what its topic says. */
  ghost predicate RowSays(t: Topic, c: Component) {
    t.rootId == c.root.id && t.subject == c.subject && t.participants == c.parts && t.count == |c.members|
    && t.lastAt == c.lastAt
  }

  /** A page holds limit rows from the offset on, or as many as there are; a limit of 0 or less
      asks for all of them. An offset below 0 is taken as 0 and one beyond the end as the end. */
  lemma PageMeaning(page: seq<Topic>, total: nat, limit: int, offset: int, all: seq<Component>)
    requires IsPage(page, total, limit, offset, all)
    ensures total == |all|
    ensures 0 <= offset <= |all| ==>
      && |page| == (if limit > 0 && offset + limit < |all| then limit else |all| - offset)
      && forall i :: 0 <= i < |page| ==> RowSays(page[i], all[offset + i])
    ensures offset < 0 ==> IsPage(page, total, limit, 0, all)
    ensures offset > |all| ==> page == []
  {
  }

  ghost function Joined<T>(pages: seq<seq<T>>): seq<T> {
    if pages == [] then [] else Joined(pages[..|pages| - 1]) + pages[|pages| - 1]
  }

  /** The page has limit of the rows, counted from from on, or what there is. */
  ghost predicate IsPiece<T>(page: seq<T>, limit: nat, from: nat, rows: seq<T>) {
    page == if from >= |rows| then [] else if from + limit < |rows| then rows[from..from + limit] else rows[from..]
  }

  ghost function Offset(limit: nat, k: nat): nat {
    if k == 0 then 0 else Offset(limit, k - 1) + limit
  }

  lemma {:induction false} OffsetIs(limit: nat, k: nat)
    ensures Offset(limit, k) == k * limit
  {
    if k > 0 { OffsetIs(limit, k - 1); }
  }

  lemma {:induction false} PiecesJoin<T>(pages: seq<seq<T>>, limit: nat, rows: seq<T>, n: nat)
    requires n == |pages| && forall k :: 0 <= k < n ==> IsPiece(pages[k], limit, Offset(limit, k), rows)
    ensures Joined(pages) == if Offset(limit, n) < |rows| then rows[..Offset(limit, n)] else rows
  {
    if n > 0 {
      var m := n - 1;
      PiecesJoin(pages[..m], limit, rows, m);
      NextPiece(pages[m], limit, rows, Offset(limit, m));
    }
  }

  lemma NextPiece<T>(page: seq<T>, limit: nat, rows: seq<T>, from: nat)
    requires IsPiece(page, limit, from, rows)
    ensures (if from < |rows| then rows[..from] else rows) + page ==
      if from + limit < |rows| then rows[..from + limit] else rows
  {
  }

  /** Consecutive pages join to the first rows of the index, and once they reach its end, to all
      of it: no topic is left out or shown twice. */
  lemma PagesJoin(pages: seq<seq<Topic>>, limit: int, all: seq<Component>)
    requires limit > 0 && forall k :: 0 <= k < |pages| ==> IsPage(pages[k], |all|, limit, k * limit, all)
    ensures |Joined(pages)| == if |pages| * limit < |all| then |pages| * limit else |all|
    ensures forall i :: 0 <= i < |Joined(pages)| ==> RowSays(Joined(pages)[i], all[i])
  {
    forall k | 0 <= k < |pages| ensures IsPiece(pages[k], limit, Offset(limit, k), Rows(all)) {
      OffsetIs(limit, k);
      PageIsPiece(pages[k], limit, Offset(limit, k), all);
    }
    PiecesJoin(pages, limit, Rows(all), |pages|);
    OffsetIs(limit, |pages|);
  }

  lemma PageIsPiece(page: seq<Topic>, limit: int, offset: nat, all: seq<Component>)
    requires limit > 0 && IsPage(page, |all|, limit, offset, all)
    ensures IsPiece(page, limit, offset, Rows(all))
  {
  }

  /** The view of a topic: its root, and a summary of each message in order. */
  lemma ViewMeaning(c: Component)
    ensures var v := ViewOf(c);
      && v.root == c.root.id && v.count == |v.messages| == |c.members|
      && forall i :: 0 <= i < |c.members| ==> IsSummary(v.messages[i], c.members[i]) && !v.messages[i].unread
  {
  }
}
