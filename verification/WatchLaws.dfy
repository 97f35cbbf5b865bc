/** Chained waits, each passing on the last_seen_id of the one before. */
module WatchLaws {
  import opened Text
  import opened Sorting
  import opened Mail
  import opened Mailbox
  import opened IndexKeys
  import opened Cuts
  import opened IndexReads
  import opened Watch

  /** The inbox ids at each poll, and the answers the polls get. */
  ghost predicate AllAnswer(polls: seq<seq<Summary>>, inboxes: seq<set<string>>) {
    |polls| == |inboxes| && forall i :: 0 <= i < |polls| ==> Answers(polls[i], inboxes[i]) && "" !in inboxes[i]
  }

  /** id is the newest message of the inbox. */
  ghost predicate IsTop(inbox: set<string>, id: string) {
    id in inbox && forall x :: x in inbox ==> x == id || Less(x, id)
  }

  /** What the reply of a call is to the inbox at the poll that ended it. */
  ghost predicate Delivers(r: Reply, since: string, inbox: set<string>) {
    && IdsOf(r.messages) == Cut(Newest(Since(inbox, since)), WINDOW)
    && (r.messages == [] ==> r.lastSeen == since && !r.possiblyMore)
    && (r.messages != [] ==> IsTop(inbox, r.lastSeen) && r.possiblyMore == (|inbox| >= WINDOW))
  }

  /** The poll that ends a call: the first with new mail, or else the last. */
  function EndIndex(since: string, polls: seq<seq<Summary>>): (k: nat)
    requires polls != []
    ensures k < |polls|
  {
    if |polls| == 1 || Fresh(since, polls[0]) != [] then 0 else EndIndex(since, polls[1..]) + 1
  }

  lemma {:induction false} WaitDelivers(since: string, polls: seq<seq<Summary>>, inboxes: seq<set<string>>,
      otherwise: End)
    requires AllAnswer(polls, inboxes) && polls != []
    ensures Delivers(Wait(since, polls, otherwise), since, inboxes[EndIndex(since, polls)])
  {
    FreshIsNewest(since, polls[0], inboxes[0]);
    if Fresh(since, polls[0]) != [] {
      AnswerTop(polls[0], inboxes[0]);
    } else if |polls| == 1 {
      assert Wait(since, polls[1..], otherwise) == Reply([], since, false, otherwise);
    } else {
      WaitDelivers(since, polls[1..], inboxes[1..], otherwise);
    }
  }

  lemma AnswerTop(msgs: seq<Summary>, inbox: set<string>)
    requires Answers(msgs, inbox) && msgs != []
    ensures IsTop(inbox, msgs[0].id) && (|msgs| == WINDOW <==> |inbox| >= WINDOW)
  {
    var r := Newest(inbox);
    NewerIsOrder(inbox);
    ListsLength(r, inbox, Newer);
    assert IdsOf(msgs)[0] == msgs[0].id == r[0] && |IdsOf(msgs)| == |msgs|;
    ListsTail(r, inbox, Newer);
  }

  /** What the server's inbox page answers to a poll: the ids come from the index as it was in
      b, and the rows from a later transaction, which sees c. */
  lemma ServerAnswers(b: Box, c: Box, uuid: string)
    requires RefsResolve(b) && Extends(b, c) && Keyed(c.messages)
    ensures Answers(Resolve(c, uuid, Page(Newest(Ids(b.inbox, uuid)), WINDOW, 0)), Ids(b.inbox, uuid))
  {
    var ids := Newest(Ids(b.inbox, uuid));
    var page := Cut(ids, WINDOW);
    assert Page(ids, WINDOW, 0) == page;
    forall i | 0 <= i < |page| ensures page[i] in c.messages { assert ids[i] in ids; }
    ResolvedRows(c, uuid, page);
    assert |IdsOf(Resolve(c, uuid, page))| == |page|;
  }

  // ---- one call ----

  /** With at most WINDOW newer messages all of them are delivered, and if any message is
      left out, the reply says that there may be more. */
  lemma NothingSkippedSilently(since: string, polls: seq<seq<Summary>>, inboxes: seq<set<string>>, otherwise: End)
    requires AllAnswer(polls, inboxes) && polls != []
    ensures var r, news := Wait(since, polls, otherwise), Since(inboxes[EndIndex(since, polls)], since);
      && (|news| <= WINDOW ==> IdsOf(r.messages) == Newest(news))
      && ((exists id :: id in news && id !in IdsOf(r.messages)) ==> |news| > WINDOW && r.possiblyMore)
  {
    var inbox := inboxes[EndIndex(since, polls)];
    WaitDelivers(since, polls, inboxes, otherwise);
    var r, news := Wait(since, polls, otherwise), Since(inbox, since);
    NewerIsOrder(news);
    ListsLength(Newest(news), news, Newer);
    SubsetSize(news, inbox);
    assert |IdsOf(r.messages)| == |r.messages|;
  }

  // ---- a chain of calls ----

  datatype Call = Call(newest: seq<Summary>, polls: seq<seq<Summary>>, otherwise: End)

  datatype Log = Log(lastSeen: string, delivered: seq<string>, possiblyMore: bool)

  function Answer(since: string, c: Call): Reply {
    Wait(Baseline(since, c.newest), c.polls, c.otherwise)
  }

  /** A call compares with what the caller passes, or with the newest message if that is empty. */
  lemma CallMeaning(since: string, c: Call)
    ensures Answer(since, c) ==
      Wait(if since != "" then since else if c.newest != [] then c.newest[0].id else "", c.polls, c.otherwise)
  {
  }

  function Session(since: string, calls: seq<Call>): Log {
    if calls == [] then Log(since, [], false)
    else
      var log := Session(since, calls[..|calls| - 1]);
      var r := Answer(log.lastSeen, calls[|calls| - 1]);
      Log(r.lastSeen, log.delivered + IdsOf(r.messages), log.possiblyMore || r.possiblyMore)
  }

  /** What each call's polls see; ids are never empty. A call that fails has no reply and leaves
      the caller where it was, so a chain is made of the calls that do not. */
  ghost predicate Watched(calls: seq<Call>, seen: seq<seq<set<string>>>) {
    && |calls| == |seen|
    && forall i :: 0 <= i < |calls| ==>
      calls[i].polls != [] && calls[i].otherwise != Failed && AllAnswer(calls[i].polls, seen[i])
  }

  predicate AtMost(a: string, b: string) {
    a == b || Less(a, b)
  }

  /** What has been delivered is distinct and not beyond last_seen_id. */
  ghost predicate Behind(log: Log) {
    && (forall i, j :: 0 <= i < j < |log.delivered| ==> log.delivered[i] != log.delivered[j])
    && (forall id :: id in log.delivered ==> log.lastSeen != "" && AtMost(id, log.lastSeen))
  }

  /** No message is delivered twice over the whole chain. */
  lemma {:induction false} NothingTwice(since: string, calls: seq<Call>, seen: seq<seq<set<string>>>)
    requires Watched(calls, seen)
    ensures Behind(Session(since, calls))
  {
    if calls != [] {
      var n := |calls| - 1;
      NothingTwice(since, calls[..n], seen[..n]);
      var log := Session(since, calls[..n]);
      CallMovesOn(log, calls[n], seen[n]);
    }
  }

  /** And last_seen_id never moves back. */
  lemma LastSeenMonotone(since: string, calls: seq<Call>, seen: seq<seq<set<string>>>)
    requires Watched(calls, seen) && calls != []
    ensures AtMost(Session(since, calls[..|calls| - 1]).lastSeen, Session(since, calls).lastSeen)
  {
    var n := |calls| - 1;
    NothingTwice(since, calls[..n], seen[..n]);
    CallMovesOn(Session(since, calls[..n]), calls[n], seen[n]);
  }

  lemma CallMovesOn(log: Log, c: Call, inboxes: seq<set<string>>)
    requires Behind(log) && c.polls != [] && AllAnswer(c.polls, inboxes)
    ensures var r := Answer(log.lastSeen, c);
      && AtMost(log.lastSeen, r.lastSeen)
      && Behind(Log(r.lastSeen, log.delivered + IdsOf(r.messages), log.possiblyMore || r.possiblyMore))
  {
    var base := Baseline(log.lastSeen, c.newest);
    WaitDelivers(base, c.polls, inboxes, c.otherwise);
    var r, inbox := Answer(log.lastSeen, c), inboxes[EndIndex(base, c.polls)];
    var news := Since(inbox, base);
    NewerIsOrder(news);
    ListsDistinct(Newest(news), news, Newer);
    var ids := IdsOf(r.messages);
    forall i | 0 <= i < |ids| ensures ids[i] in news { assert Newest(news)[i] in Newest(news); }
    assert |ids| == |r.messages|;
    if r.messages != [] { assert ids[0] in news; MovesUp(base, ids[0], r.lastSeen); }
    forall id | id in log.delivered ensures r.lastSeen != "" && AtMost(id, r.lastSeen) && id !in ids {
      StaysBehind(id, base, r.lastSeen);
      forall x | x in ids ensures x != id {
        assert x in news && Less(base, x);
        if id == base { LessIrreflexive(id); } else { LessAsymmetric(id, base); }
      }
    }
    Joined(log.delivered, ids);
  }

  lemma MovesUp(base: string, id: string, top: string)
    requires IsNew(base, id) && AtMost(id, top)
    ensures AtMost(base, top)
  {
    if base != "" && id != top { LessTransitive(base, id, top); }
  }

  lemma StaysBehind(id: string, base: string, last: string)
    requires AtMost(id, base) && AtMost(base, last) && base != ""
    ensures AtMost(id, last) && last != ""
  {
    if id != base && base != last { LessTransitive(id, base, last); }
  }

  lemma Joined<T>(a: seq<T>, b: seq<T>)
    requires forall i, j :: 0 <= i < j < |a| ==> a[i] != a[j]
    requires forall i, j :: 0 <= i < j < |b| ==> b[i] != b[j]
    requires forall x :: x in a ==> x !in b
    ensures var c := a + b; forall i, j :: 0 <= i < j < |c| ==> c[i] != c[j]
  {
    var c := a + b;
    forall i, j | 0 <= i < j < |c| ensures c[i] != c[j] {
      if i < |a| <= j { assert a[i] in a && b[j - |a|] in b; }
    }
  }
}
