/** The report in terms of the stored messages themselves. */
module OverviewMeaning {
  import opened Wrappers
  import opened Text
  import opened Tally
  import opened Mail
  import opened OverviewScan
  import opened Overview

  // ---- what the scan reads of a message ----

  /** To or CC names c in some spelling. */
  predicate Names(m: Message, c: string) {
    exists a :: a in m.to + m.cc && EqualFold(a, c)
  }

  lemma EventMeaning(m: Message, c: string)
    ensures c in EventOf(m).recips <==>
      IsLower(c) && ((exists a :: a in m.to && EqualFold(a, c)) || exists a :: a in m.cc && EqualFold(a, c))
    ensures EventOf(m).from == ToLower(m.from) && EventOf(m).runes == |m.body| && EventOf(m).at == m.receivedAt
    ensures EventOf(m).first == if m.to == [] || m.to[0] == "" then None else Some(ToLower(m.to[0]))
  {
    if c in EventOf(m).recips {
      var a :| a in m.to + m.cc && ToLower(a) == c;
      LowerIsLower(a);
    }
    forall a | (a in m.to || a in m.cc) && EqualFold(a, c) && IsLower(c) ensures c in EventOf(m).recips {
      assert a in m.to + m.cc;
    }
  }

  // ---- counting messages ----

  ghost function Where(msgs: seq<Message>, p: Message -> bool): set<nat> {
    set i: nat | i < |msgs| && p(msgs[i])
  }

  ghost function Bodies(msgs: seq<Message>, p: Message -> bool): nat {
    if msgs == [] then 0
    else Bodies(msgs[..|msgs| - 1], p) + if p(msgs[|msgs| - 1]) then |msgs[|msgs| - 1].body| else 0
  }

  /** t is the latest arrival among the messages with p, and 0 if there is none after 0. */
  ghost predicate IsLatest(t: int, msgs: seq<Message>, p: Message -> bool) {
    && t >= 0 && (forall i :: i in Where(msgs, p) ==> msgs[i].receivedAt <= t)
    && (t > 0 ==> exists i :: i in Where(msgs, p) && msgs[i].receivedAt == t)
  }

  /** The mean length, rounded down, and 0 for no messages. */
  ghost predicate IsMean(mean: int, total: int, count: int) {
    if count == 0 then mean == 0 else mean * count <= total < mean * count + count
  }

  ghost predicate Marks(f: Event<string> -> int, msgs: seq<Message>, p: Message -> bool) {
    forall m :: m in msgs ==> f(EventOf(m)) == if p(m) then 1 else 0
  }

  ghost predicate Weighs(f: Event<string> -> int, msgs: seq<Message>, p: Message -> bool) {
    forall m :: m in msgs ==> f(EventOf(m)) == if p(m) then |m.body| else 0
  }

  ghost predicate Times(f: Event<string> -> int, msgs: seq<Message>, p: Message -> bool) {
    forall m :: m in msgs ==> f(EventOf(m)) == if p(m) then m.receivedAt else 0
  }

  lemma EventsSnoc(msgs: seq<Message>, init: seq<Message>, m: Message)
    requires msgs == init + [m]
    ensures multiset(Events(msgs)) == multiset(Events(init)) + multiset{EventOf(m)}
  {
    assert Events(msgs) == Events(init) + [EventOf(m)];
  }

  lemma WhereSnoc(msgs: seq<Message>, init: seq<Message>, m: Message, p: Message -> bool)
    requires msgs == init + [m]
    ensures |Where(msgs, p)| == |Where(init, p)| + if p(m) then 1 else 0
  {
    assert Where(msgs, p) == Where(init, p) + if p(m) then {|init|} else {};
  }

  lemma {:induction false} SumIsCount(msgs: seq<Message>, f: Event<string> -> int, p: Message -> bool)
    requires Marks(f, msgs, p)
    ensures Sum(multiset(Events(msgs)), f) == |Where(msgs, p)|
  {
    if msgs == [] {
      assert Where(msgs, p) == {};
    } else {
      var init, m := msgs[..|msgs| - 1], msgs[|msgs| - 1];
      assert msgs == init + [m];
      SumIsCount(init, f, p);
      EventsSnoc(msgs, init, m);
      WhereSnoc(msgs, init, m, p);
      SumAdd(multiset(Events(init)), f, EventOf(m));
    }
  }

  lemma {:induction false} SumIsBodies(msgs: seq<Message>, f: Event<string> -> int, p: Message -> bool)
    requires Weighs(f, msgs, p)
    ensures Sum(multiset(Events(msgs)), f) == Bodies(msgs, p)
  {
    if msgs != [] {
      var init, m := msgs[..|msgs| - 1], msgs[|msgs| - 1];
      assert msgs == init + [m];
      SumIsBodies(init, f, p);
      EventsSnoc(msgs, init, m);
      SumAdd(multiset(Events(init)), f, EventOf(m));
    }
  }

  lemma MaxIsLatest(msgs: seq<Message>, f: Event<string> -> int, p: Message -> bool)
    requires Times(f, msgs, p)
    ensures IsLatest(Max0(multiset(Events(msgs)), f), msgs, p)
  {
    var s := multiset(Events(msgs));
    MaxMeaning(s, f);
    forall i | i in Where(msgs, p) ensures msgs[i].receivedAt <= Max0(s, f) {
      assert Events(msgs)[i] in s;
    }
    if Max0(s, f) > 0 {
      var e :| e in s && f(e) == Max0(s, f);
      var i :| 0 <= i < |msgs| && Events(msgs)[i] == e;
      assert msgs[i] in msgs;
      assert i in Where(msgs, p);
    }
  }

  // ---- the table ----

  /** The window of the last days, or all time since the epoch. */
  predicate InWindow(m: Message, days: int, now: int) {
    m.receivedAt >= if days > 0 then now - days * 24 * 60 * 60 else 0
  }

  ghost function Received(c: string, days: int, now: int): Message -> bool {
    (m: Message) => Names(m, c) && InWindow(m, days, now)
  }

  ghost function SentBy(c: string, days: int, now: int): Message -> bool {
    (m: Message) => EqualFold(m.from, c) && InWindow(m, days, now)
  }

  ghost function EverReceived(c: string): Message -> bool {
    (m: Message) => Names(m, c)
  }

  ghost function EverSent(c: string): Message -> bool {
    (m: Message) => EqualFold(m.from, c)
  }

  /** A subordinate's mail in the window, in and out, and its latest mail of all time. */
  ghost predicate RowSays(r: Row<string>, c: string, msgs: seq<Message>, days: int, now: int) {
    && r.countIn == |Where(msgs, Received(c, days, now))| && r.countOut == |Where(msgs, SentBy(c, days, now))|
    && IsLatest(r.lastInAt, msgs, EverReceived(c)) && IsLatest(r.lastOutAt, msgs, EverSent(c))
    && IsMean(r.avgLenIn, Bodies(msgs, Received(c, days, now)), r.countIn)
    && IsMean(r.avgLenOut, Bodies(msgs, SentBy(c, days, now)), r.countOut)
  }

  ghost predicate ReportOf(r: Report<string>, me: string, days: int, now: int, edges: seq<SubEdge<string>>,
      msgs: seq<Message>, lastRead: map<string, int>)
  {
    IsReport(r, ToLower(me), days, AllLowered(edges), multiset(Events(msgs)), WindowStart(days, now), Less, lastRead)
  }

  /** The table has a row for each subordinate, in the order of the declarations, and says of each
      what the messages say. */
  lemma RowMeaning(r: Report<string>, me: string, days: int, now: int, edges: seq<SubEdge<string>>,
      msgs: seq<Message>, lastRead: map<string, int>, i: nat)
    requires ReportOf(r, me, days, now, edges, msgs, lastRead) && i < |edges|
    ensures r.windowDays == days && |r.subs| == |edges|
    ensures r.subs[i].address == ToLower(edges[i].address) && r.subs[i].signature == edges[i].signature
    ensures RowSays(r.subs[i], edges[i].address, msgs, days, now)
    ensures r.subs[i].lastReadAt == if r.subs[i].address in lastRead then lastRead[r.subs[i].address] else 0
  {
    var c, l, s := edges[i].address, ToLower(edges[i].address), multiset(Events(msgs));
    assert AllLowered(edges)[i].address == l;
    LowerIsLower(c);
    CountsOf(msgs, c, l, days, now);
    LatestOf(msgs, c, l);
    MeanMeaning(Sum(s, GotRunes(l, WindowStart(days, now))), r.subs[i].countIn);
    MeanMeaning(Sum(s, SentRunes(l, WindowStart(days, now))), r.subs[i].countOut);
  }

  /** Without subordinates there is nothing to report. */
  lemma EmptyReport(r: Report<string>, me: string, days: int, now: int, msgs: seq<Message>, lastRead: map<string, int>)
    requires ReportOf(r, me, days, now, [], msgs, lastRead)
    ensures r == Report(days, [], [], [])
  {
    assert AllLowered([]) == [];
  }

  lemma MeanMeaning(total: int, count: int)
    requires count >= 0
    ensures IsMean(Mean(total, count), total, count)
  {
    if count > 0 {
      assert total == count * (total / count) + total % count;
      assert Mean(total, count) * count == count * (total / count);
    }
  }

  lemma CountsOf(msgs: seq<Message>, c: string, l: string, days: int, now: int)
    requires l == ToLower(c) && IsLower(l)
    ensures var s, lo := multiset(Events(msgs)), WindowStart(days, now);
      && Sum(s, Got(l, lo)) == |Where(msgs, Received(c, days, now))|
      && Sum(s, Sent(l, lo)) == |Where(msgs, SentBy(c, days, now))|
      && Sum(s, GotRunes(l, lo)) == Bodies(msgs, Received(c, days, now))
      && Sum(s, SentRunes(l, lo)) == Bodies(msgs, SentBy(c, days, now))
  {
    var lo := WindowStart(days, now);
    forall m ensures l in EventOf(m).recips <==> Names(m, c) { ReceiverOf(m, c, l); }
    forall m ensures EventOf(m).at >= lo <==> InWindow(m, days, now) { EventMeaning(m, l); }
    SumIsCount(msgs, Got(l, lo), Received(c, days, now));
    SumIsCount(msgs, Sent(l, lo), SentBy(c, days, now));
    SumIsBodies(msgs, GotRunes(l, lo), Received(c, days, now));
    SumIsBodies(msgs, SentRunes(l, lo), SentBy(c, days, now));
  }

  lemma ReceiverOf(m: Message, c: string, l: string)
    requires l == ToLower(c) && IsLower(l)
    ensures l in EventOf(m).recips <==> Names(m, c)
  {
    EventMeaning(m, l);
    forall a | a in m.to || a in m.cc ensures a in m.to + m.cc && (EqualFold(a, c) <==> EqualFold(a, l)) { }
  }

  lemma LatestOf(msgs: seq<Message>, c: string, l: string)
    requires l == ToLower(c) && IsLower(l)
    ensures IsLatest(Max0(multiset(Events(msgs)), GotAt(l)), msgs, EverReceived(c))
    ensures IsLatest(Max0(multiset(Events(msgs)), SentAt(l)), msgs, EverSent(c))
  {
    forall m ensures l in EventOf(m).recips <==> Names(m, c) { ReceiverOf(m, c, l); }
    MaxIsLatest(msgs, GotAt(l), EverReceived(c));
    MaxIsLatest(msgs, SentAt(l), EverSent(c));
  }

  // ---- who mails whom ----

  /** The reader and the subordinates. */
  predicate OneOfUs(x: string, me: string, edges: seq<SubEdge<string>>) {
    EqualFold(x, me) || exists e :: e in edges && EqualFold(x, e.address)
  }

  /** The message counts as mail from x to y: x sent it, y is its first To address, and one of the
      two is one of us. */
  predicate FromTo(m: Message, x: string, y: string, me: string, edges: seq<SubEdge<string>>) {
    && m.to != [] && m.to[0] != "" && ToLower(m.from) == x && ToLower(m.to[0]) == y
    && (OneOfUs(m.from, me, edges) || OneOfUs(m.to[0], me, edges))
  }

  ghost function Mailed(x: string, y: string, me: string, edges: seq<SubEdge<string>>,
      days: int, now: int): Message -> bool
  {
    (m: Message) => FromTo(m, x, y, me, edges) && InWindow(m, days, now)
  }

  ghost function EverBetween(x: string, y: string, me: string, edges: seq<SubEdge<string>>): Message -> bool {
    (m: Message) => FromTo(m, x, y, me, edges) || FromTo(m, y, x, me, edges)
  }

  /** Mail that counts as contact of c with x: what c sent to x, and if x is not one of us also
      what x sent to c. */
  ghost function ContactWith(c: string, x: string, me: string, edges: seq<SubEdge<string>>,
      days: int, now: int): Message -> bool
  {
    (m: Message) => InWindow(m, days, now)
         && (FromTo(m, c, x, me, edges) || (FromTo(m, x, c, me, edges) && !OneOfUs(x, me, edges)))
  }

  ghost function CoreOf(me: string, edges: seq<SubEdge<string>>): set<string> {
    {ToLower(me)} + Addresses(AllLowered(edges))
  }

  lemma CoreMeaning(me: string, edges: seq<SubEdge<string>>, x: string)
    ensures ToLower(x) in CoreOf(me, edges) <==> OneOfUs(x, me, edges)
  {
    if ToLower(x) in Addresses(AllLowered(edges)) {
      var e :| e in AllLowered(edges) && e.address == ToLower(x);
      var i :| 0 <= i < |edges| && AllLowered(edges)[i] == e;
      assert edges[i] in edges;
    }
    if e :| e in edges && EqualFold(x, e.address) {
      var i :| 0 <= i < |edges| && edges[i] == e;
      assert AllLowered(edges)[i] in AllLowered(edges);
    }
  }

  lemma PairMeaning(m: Message, me: string, edges: seq<SubEdge<string>>, x: string, y: string)
    ensures PairOf(EventOf(m), CoreOf(me, edges)) == Some((x, y)) <==> FromTo(m, x, y, me, edges)
  {
    EventMeaning(m, x);
    CoreMeaning(me, edges, m.from);
    if m.to != [] { CoreMeaning(me, edges, m.to[0]); }
  }

  lemma MailCount(msgs: seq<Message>, me: string, edges: seq<SubEdge<string>>, days: int, now: int,
      x: string, y: string)
    ensures Sum(multiset(Events(msgs)), OnPair(CoreOf(me, edges), WindowStart(days, now), x, y)) ==
      |Where(msgs, Mailed(x, y, me, edges, days, now))|
  {
    forall m
      ensures PairOf(EventOf(m), CoreOf(me, edges)) == Some((x, y)) <==> FromTo(m, x, y, me, edges)
      ensures EventOf(m).at >= WindowStart(days, now) <==> InWindow(m, days, now)
    {
      PairMeaning(m, me, edges, x, y);
    }
    SumIsCount(msgs, OnPair(CoreOf(me, edges), WindowStart(days, now), x, y), Mailed(x, y, me, edges, days, now));
  }

  lemma ContactCount(msgs: seq<Message>, me: string, edges: seq<SubEdge<string>>, days: int, now: int,
      c: string, x: string)
    requires c in CoreOf(me, edges)
    ensures Sum(multiset(Events(msgs)), OnContact(CoreOf(me, edges), WindowStart(days, now), c, x)) ==
      |Where(msgs, ContactWith(c, x, me, edges, days, now))|
  {
    var core, lo := CoreOf(me, edges), WindowStart(days, now);
    forall m
      ensures OnContact(core, lo, c, x)(EventOf(m)) == if ContactWith(c, x, me, edges, days, now)(m) then 1 else 0
    {
      ContactOfMessage(m, me, edges, c, x);
    }
    SumIsCount(msgs, OnContact(core, lo, c, x), ContactWith(c, x, me, edges, days, now));
  }

  lemma ContactOfMessage(m: Message, me: string, edges: seq<SubEdge<string>>, c: string, x: string)
    requires c in CoreOf(me, edges)
    ensures ContactOf(EventOf(m), CoreOf(me, edges)) == Some((c, x)) <==>
      FromTo(m, c, x, me, edges) || (FromTo(m, x, c, me, edges) && !OneOfUs(x, me, edges))
  {
    PairMeaning(m, me, edges, c, x);
    PairMeaning(m, me, edges, x, c);
    CoreMeaning(me, edges, m.from);
    CoreMeaning(me, edges, x);
    LowerIsLower(m.from);
    CoreMeaning(me, edges, ToLower(m.from));
    if m.to != [] { CoreMeaning(me, edges, m.to[0]); }
  }
}
