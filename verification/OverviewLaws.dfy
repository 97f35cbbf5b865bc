/** The report is a function of which messages exist, not of any order; and every message
    is attributed once or not at all. */
module OverviewLaws {
  import opened Wrappers
  import opened Sorting
  import opened Tally
  import opened Mail
  import opened OverviewScan
  import opened OverviewGraph
  import opened Overview

  // ---- one report ----

  /** The three busiest contacts are determined by the messages. */
  lemma TopUnique<A(!new)>(l: seq<TopContact<A>>, m: seq<TopContact<A>>, s: multiset<Event<A>>, core: set<A>,
      lo: int, c: A,
      less: (A, A) -> bool)
    requires TotalOrder(less) && IsTop(l, s, core, lo, c, less) && IsTop(m, s, core, lo, c, less)
    ensures l == m
  {
    SamePrefix(l, m, s, core, lo, c, less, |l|);
    SamePrefix(m, l, s, core, lo, c, less, |m|);
  }

  lemma {:induction false} SamePrefix<A(!new)>(l: seq<TopContact<A>>, m: seq<TopContact<A>>, s: multiset<Event<A>>,
      core: set<A>, lo: int, c: A, less: (A, A) -> bool, n: nat)
    requires TotalOrder(less) && IsTop(l, s, core, lo, c, less) && IsTop(m, s, core, lo, c, less) && n <= |l|
    ensures n <= |m| && l[..n] == m[..n]
  {
    if n > 0 {
      SamePrefix(l, m, s, core, lo, c, less, n - 1);
      var i := n - 1;
      assert forall k :: 0 <= k < i ==> l[k] == l[..i][k] == m[..i][k] == m[k];
      NextSame(l, m, s, core, lo, c, less, i);
      assert l[..n] == l[..i] + [l[i]] && m[..n] == m[..i] + [m[i]];
    }
  }

  lemma NextSame<A(!new)>(l: seq<TopContact<A>>, m: seq<TopContact<A>>, s: multiset<Event<A>>, core: set<A>,
      lo: int, c: A,
      less: (A, A) -> bool, i: nat)
    requires TotalOrder(less) && IsTop(l, s, core, lo, c, less) && IsTop(m, s, core, lo, c, less)
    requires i < |l| && i <= |m| && forall k :: 0 <= k < i ==> l[k] == m[k]
    ensures i < |m| && l[i] == m[i]
  {
    ComesNext(l, m, s, core, lo, c, less, i);
    if l[i] != m[i] {
      ComesNext(m, l, s, core, lo, c, less, i);
      CountOrder(less, {l[i], m[i]});
    }
  }

  /** l[i] is on m no earlier than place i, or beaten by all of m. */
  lemma ComesNext<A(!new)>(l: seq<TopContact<A>>, m: seq<TopContact<A>>, s: multiset<Event<A>>, core: set<A>,
      lo: int, c: A,
      less: (A, A) -> bool, i: nat)
    requires TotalOrder(less) && IsTop(l, s, core, lo, c, less) && IsTop(m, s, core, lo, c, less)
    requires i < |l| && i <= |m| && forall k :: 0 <= k < i ==> l[k] == m[k]
    ensures i < |m| && (m[i] == l[i] || ByCount(less)(m[i], l[i]))
  {
    var p := l[i];
    CountOrder(less, Elements(l) + Elements(m));
    assert p in l && p in Elements(l);
    assert Sum(s, OnContact(core, lo, c, p.address)) > 0;
    assert p == TopContact(p.address, Sum(s, OnContact(core, lo, c, p.address)));
    if p in m {
      var j :| 0 <= j < |m| && m[j] == p;
      if i < j { assert ByCount(less)(m[i], m[j]); }
    } else {
      assert |m| == 3 && ByCount(less)(m[2], p);
      assert m[i] in m && m[2] in m;
      if i < 2 { assert ByCount(less)(m[i], m[2]); }
    }
  }

  /** Nothing but the messages (and the reader's data) shows in a report. */
  lemma ReportUnique<A(!new)>(r: Report<A>, q: Report<A>, me: A, days: int, edges: seq<SubEdge<A>>,
      s: multiset<Event<A>>,
      lo: int, less: (A, A) -> bool, lastRead: map<A, int>)
    requires TotalOrder(less)
    requires IsReport(r, me, days, edges, s, lo, less, lastRead) && IsReport(q, me, days, edges, s, lo, less, lastRead)
    ensures r == q
  {
    var core := {me} + Addresses(edges);
    if edges != [] {
      forall i | 0 <= i < |edges| ensures r.subs[i] == q.subs[i] {
        TopUnique(r.subs[i].top, q.subs[i].top, s, core, lo, edges[i].address, less);
      }
      NodesUnique(r.nodes, q.nodes, me, edges, s, core, lo, less);
      EdgesUnique(r.edges, q.edges, s, core, lo, Rendered(r.nodes), less);
    }
  }

  lemma NodesUnique<A(!new)>(n1: seq<Node<A>>, n2: seq<Node<A>>, me: A, edges: seq<SubEdge<A>>, s: multiset<Event<A>>,
      core: set<A>, lo: int, less: (A, A) -> bool)
    requires TotalOrder(less) && HasNodes(n1, me, edges, s, core, lo, less)
    requires HasNodes(n2, me, edges, s, core, lo, less)
    ensures n1 == n2
  {
    var t1, s1, e1 :| IsTops(t1, s, core, lo, less) && NodesOk(n1, s1, e1, me, edges, t1, s, core, lo, less);
    var t2, s2, e2 :| IsTops(t2, s, core, lo, less) && NodesOk(n2, s2, e2, me, edges, t2, s, core, lo, less);
    TopsUnique(t1, t2, s, core, lo, less);
    OrderOn(less, Addresses(edges));
    ListsUnique(s1, s2, Addresses(edges), less);
    ExternalsUnique(e1, e2, t1, core, less);
  }

  lemma TopsUnique<A(!new)>(t1: map<A, seq<TopContact<A>>>, t2: map<A, seq<TopContact<A>>>, s: multiset<Event<A>>,
      core: set<A>, lo: int, less: (A, A) -> bool)
    requires TotalOrder(less) && IsTops(t1, s, core, lo, less) && IsTops(t2, s, core, lo, less)
    ensures t1 == t2
  {
    forall c | c in core ensures t1[c] == t2[c] { TopUnique(t1[c], t2[c], s, core, lo, c, less); }
  }

  lemma ExternalsUnique<A(!new)>(e1: seq<A>, e2: seq<A>, tops: map<A, seq<TopContact<A>>>, core: set<A>,
      less: (A, A) -> bool)
    requires TotalOrder(less) && Sorted(e1, less) && Sorted(e2, less)
    requires forall x :: x in e1 <==> IsExternal(tops, core, x)
    requires forall x :: x in e2 <==> IsExternal(tops, core, x)
    ensures e1 == e2
  {
    OrderOn(less, Elements(e1));
    ListsUnique(e1, e2, Elements(e1), less);
  }

  lemma EdgesUnique<A(!new)>(e1: seq<Edge<A>>, e2: seq<Edge<A>>, s: multiset<Event<A>>, core: set<A>, lo: int,
      rendered: set<A>, less: (A, A) -> bool)
    requires TotalOrder(less)
    requires EdgesMean(e1, s, core, lo, rendered, less) && EdgesMean(e2, s, core, lo, rendered, less)
    ensures e1 == e2
  {
    var keys := Elements(Ends(e1));
    PairOrder(less, keys);
    ListsUnique(Ends(e1), Ends(e2), keys, ByPair(less));
    forall i | 0 <= i < |e1| ensures e1[i] == e2[i] {
      assert Ends(e1)[i] == Ends(e2)[i];
      assert EdgeMeans(e1[i], s, core, lo, less) && EdgeMeans(e2[i], s, core, lo, less);
    }
  }

  /** Reordering the stored messages leaves the events the same. */
  lemma SameEvents(a: seq<Message>, b: seq<Message>)
    requires multiset(a) == multiset(b)
    ensures multiset(Events(a)) == multiset(Events(b))
  {
    forall e ensures multiset(Events(a))[e] == multiset(Events(b))[e] {
      EventCount(a, e);
      EventCount(b, e);
    }
  }

  ghost function Yields(e: Event<string>): Message -> int {
    m => if EventOf(m) == e then 1 else 0
  }

  lemma {:induction false} EventCount(a: seq<Message>, e: Event<string>)
    ensures multiset(Events(a))[e] == Sum(multiset(a), Yields(e))
  {
    if a != [] {
      var init, m := a[..|a| - 1], a[|a| - 1];
      EventCount(init, e);
      assert a == init + [m];
      assert Events(a) == Events(init) + [EventOf(m)];
      SumAdd(multiset(init), Yields(e), m);
    }
  }

  // ---- each message once ----

  ghost function Counted<A(!new)>(core: set<A>, lo: int): Event<A> -> int {
    (e: Event<A>) => if e.at >= lo && e.first.Some? && (e.from in core || e.first.value in core) then 1 else 0
  }

  ghost function PairTotal<A(!new)>(s: multiset<Event<A>>, core: set<A>, lo: int): ((A, A)) -> int {
    (p: (A, A)) => Sum(s, OnPair(core, lo, p.0, p.1))
  }

  /** Conservation: over all pairs, the directional counts add up to the messages of the
      window that have a first recipient and a core end. No message counts twice. */
  lemma {:induction false} EachMessageOnce<A(!new)>(s: multiset<Event<A>>, core: set<A>, lo: int, pairs: set<(A, A)>)
    requires forall e :: e in s && PairOf(e, core).Some? ==> PairOf(e, core).value in pairs
    ensures Sum(multiset(pairs), PairTotal(s, core, lo)) == Sum(s, Counted(core, lo))
    decreases |s|
  {
    if |s| == 0 {
      NoTotal(multiset(pairs), s, core, lo);
    } else {
      var e := Any(s);
      var rest := s - multiset{e};
      EachMessageOnce(rest, core, lo, pairs);
      SumTake(s, Counted(core, lo), e);
      OneMore(multiset(pairs), rest, core, lo, e);
      assert rest + multiset{e} == s;
      if e.at >= lo && PairOf(e, core).Some? {
        var p := PairOf(e, core).value;
        assert multiset(pairs)[p] == 1;
      }
    }
  }

  lemma {:induction false} NoTotal<A(!new)>(ps: multiset<(A, A)>, s: multiset<Event<A>>, core: set<A>, lo: int)
    requires |s| == 0
    ensures Sum(ps, PairTotal(s, core, lo)) == 0
    decreases |ps|
  {
    if |ps| != 0 { NoTotal(ps - multiset{Any(ps)}, s, core, lo); }
  }

  /** One more message raises the grand total by the number of its own pair among ps. */
  lemma {:induction false} OneMore<A(!new)>(ps: multiset<(A, A)>, s: multiset<Event<A>>, core: set<A>, lo: int,
      e: Event<A>)
    ensures Sum(ps, PairTotal(s + multiset{e}, core, lo)) == Sum(ps, PairTotal(s, core, lo)) +
      if e.at >= lo && PairOf(e, core).Some? then ps[PairOf(e, core).value] else 0
    decreases |ps|
  {
    if |ps| != 0 {
      var p := Any(ps);
      OneMore(ps - multiset{p}, s, core, lo, e);
      SumAdd(s, OnPair(core, lo, p.0, p.1), e);
    }
  }

  /** A core address's contact count: with another core address its outgoing mail only,
      with an outside address the mail of both directions. */
  lemma {:induction false} ContactMeaning<A(!new)>(s: multiset<Event<A>>, core: set<A>, lo: int, c: A, x: A)
    requires c in core
    ensures Sum(s, OnContact(core, lo, c, x)) ==
      Sum(s, OnPair(core, lo, c, x)) + if x in core then 0 else Sum(s, OnPair(core, lo, x, c))
    decreases |s|
  {
    if |s| != 0 {
      var e := Any(s);
      ContactMeaning(s - multiset{e}, core, lo, c, x);
    }
  }
}
