/** Which messages a chain of waits delivers: the exact conditions. */
module ChainLaws {
  import opened Text
  import opened Sorting
  import opened Sequences
  import opened Cuts
  import opened IndexReads
  import opened Watch
  import opened WatchLaws

  // ---- which messages a chain delivers ----

  /** The baseline that call i compares with. */
  function Passed(since: string, calls: seq<Call>, i: nat): string
    requires i < |calls|
  {
    Baseline(Session(since, calls[..i]).lastSeen, calls[i].newest)
  }

  /** The inbox at the poll that ends call i. */
  ghost function EndOf(since: string, calls: seq<Call>, seen: seq<seq<set<string>>>, i: nat): set<string>
    requires Watched(calls, seen) && i < |calls|
  {
    seen[i][EndIndex(Passed(since, calls, i), calls[i].polls)]
  }

  /** Call f is the first whose ending poll shows x. */
  ghost predicate FirstShown(since: string, calls: seq<Call>, seen: seq<seq<set<string>>>, x: string, f: nat) {
    && Watched(calls, seen) && f < |calls| && x in EndOf(since, calls, seen, f)
    && forall i :: 0 <= i < f ==> x !in EndOf(since, calls, seen, i)
  }

  lemma PrefixOf(since: string, calls: seq<Call>, seen: seq<seq<set<string>>>, n: nat)
    requires Watched(calls, seen) && n <= |calls|
    ensures Watched(calls[..n], seen[..n])
    ensures forall i :: 0 <= i < n ==> Passed(since, calls[..n], i) == Passed(since, calls, i)
    ensures forall i :: 0 <= i < n ==> EndOf(since, calls[..n], seen[..n], i) == EndOf(since, calls, seen, i)
  {
    forall i | 0 <= i < n
      ensures Passed(since, calls[..n], i) == Passed(since, calls, i)
      ensures EndOf(since, calls[..n], seen[..n], i) == EndOf(since, calls, seen, i)
    {
      assert calls[..n][..i] == calls[..i];
    }
  }

  /** Call i, as one step of the chain. */
  lemma StepOf(since: string, calls: seq<Call>, seen: seq<seq<set<string>>>, i: nat)
    requires Watched(calls, seen) && i < |calls|
    ensures var log, r := Session(since, calls[..i]), Answer(Session(since, calls[..i]).lastSeen, calls[i]);
      && Session(since, calls[..i + 1]) ==
           Log(r.lastSeen, log.delivered + IdsOf(r.messages), log.possiblyMore || r.possiblyMore)
      && Delivers(r, Passed(since, calls, i), EndOf(since, calls, seen, i))
      && AtMost(log.lastSeen, r.lastSeen) && Behind(log)
  {
    assert calls[..i + 1][..i] == calls[..i];
    PrefixOf(since, calls, seen, i);
    NothingTwice(since, calls[..i], seen[..i]);
    WaitDelivers(Passed(since, calls, i), calls[i].polls, seen[i], calls[i].otherwise);
    CallMovesOn(Session(since, calls[..i]), calls[i], seen[i]);
  }

  /** A reply holds the newest of what is new, and leaves last_seen_id at or past all it saw. */
  lemma ReplyMeaning(r: Reply, since: string, inbox: set<string>, x: string)
    requires Delivers(r, since, inbox) && "" !in inbox
    ensures x in IdsOf(r.messages) <==> x in FirstOf(Since(inbox, since), Newer, WINDOW)
    ensures x in IdsOf(r.messages) ==> x in inbox && IsNew(since, x)
    ensures x in inbox ==> r.lastSeen != "" && AtMost(x, r.lastSeen)
    ensures !r.possiblyMore && x in inbox && IsNew(since, x) ==> x in IdsOf(r.messages)
  {
    var news := Since(inbox, since);
    NewerIsOrder(news);
    CutLists(Newest(news), news, Newer, WINDOW);
    ListsLength(Newest(news), news, Newer);
    SubsetSize(news, inbox);
    assert |IdsOf(r.messages)| == |r.messages|;
    assert x in news <==> x in Newest(news);
    if r.messages == [] && x in inbox {
      assert x !in news;
      LessTotal(since, x);
    }
  }

  /** After n calls last_seen_id is at or past x for good, and x has been delivered exactly if
      call f found it among the newest of what was new to it. */
  ghost predicate DecidedBy(since: string, calls: seq<Call>, seen: seq<seq<set<string>>>, x: string, f: nat, n: nat)
    requires Watched(calls, seen) && f < |calls| && n <= |calls|
  {
    var log := Session(since, calls[..n]);
    && log.lastSeen != "" && AtMost(x, log.lastSeen)
    && (x in log.delivered <==>
         x in FirstOf(Since(EndOf(since, calls, seen, f), Passed(since, calls, f)), Newer, WINDOW))
  }

  /** The first poll that ends a call and shows x decides about it. */
  lemma {:induction false} Decided(since: string, calls: seq<Call>, seen: seq<seq<set<string>>>, x: string,
      f: nat, n: nat)
    requires FirstShown(since, calls, seen, x, f) && f < n <= |calls|
    ensures DecidedBy(since, calls, seen, x, f, n)
  {
    if n == f + 1 {
      DecidedNow(since, calls, seen, x, f);
    } else {
      var m := n - 1;
      Decided(since, calls, seen, x, f, m);
      StaysDecided(since, calls, seen, x, f, m, n);
    }
  }

  lemma DecidedNow(since: string, calls: seq<Call>, seen: seq<seq<set<string>>>, x: string, f: nat)
    requires FirstShown(since, calls, seen, x, f)
    ensures DecidedBy(since, calls, seen, x, f, f + 1)
  {
    StepOf(since, calls, seen, f);
    NotBefore(since, calls, seen, x, f);
    var r := Answer(Session(since, calls[..f]).lastSeen, calls[f]);
    ReplyMeaning(r, Passed(since, calls, f), EndOf(since, calls, seen, f), x);
  }

  lemma StaysDecided(since: string, calls: seq<Call>, seen: seq<seq<set<string>>>, x: string,
      f: nat, m: nat, n: nat)
    requires Watched(calls, seen) && f < |calls| && n == m + 1 <= |calls| && DecidedBy(since, calls, seen, x, f, m)
    ensures DecidedBy(since, calls, seen, x, f, n)
  {
    var log := Session(since, calls[..m]);
    var r := Answer(log.lastSeen, calls[m]);
    StepOf(since, calls, seen, m);
    StaysBehind(x, log.lastSeen, r.lastSeen);
    NotNew(log.lastSeen, x);
    ReplyMeaning(r, Passed(since, calls, m), EndOf(since, calls, seen, m), x);
  }

  lemma NotNew(since: string, x: string)
    requires since != "" && AtMost(x, since)
    ensures !IsNew(since, x)
  {
    if x == since { LessIrreflexive(x); } else { LessAsymmetric(x, since); }
  }

  /** A message is delivered by no call before the first that shows it. */
  lemma {:induction false} NotBefore(since: string, calls: seq<Call>, seen: seq<seq<set<string>>>, x: string, n: nat)
    requires Watched(calls, seen) && n <= |calls|
    requires forall i :: 0 <= i < n ==> x !in EndOf(since, calls, seen, i)
    ensures x !in Session(since, calls[..n]).delivered
  {
    if n > 0 {
      var m := n - 1;
      NotBefore(since, calls, seen, x, m);
      StepOf(since, calls, seen, m);
      var r := Answer(Session(since, calls[..m]).lastSeen, calls[m]);
      ReplyMeaning(r, Passed(since, calls, m), EndOf(since, calls, seen, m), x);
    }
  }

  /** A message is delivered exactly if the first call whose ending poll shows it finds it among
      the newest WINDOW of what is newer than that call's baseline. No later call makes up. */
  lemma DeliveredIff(since: string, calls: seq<Call>, seen: seq<seq<set<string>>>, x: string, f: nat)
    requires FirstShown(since, calls, seen, x, f)
    ensures x in Session(since, calls).delivered <==>
      x in FirstOf(Since(EndOf(since, calls, seen, f), Passed(since, calls, f)), Newer, WINDOW)
  {
    TakeAll(calls);
    Decided(since, calls, seen, x, f, |calls|);
  }

  lemma {:induction false} NoMoreAt(since: string, calls: seq<Call>, i: nat, n: nat)
    requires i < n <= |calls| && !Session(since, calls[..n]).possiblyMore
    ensures !Answer(Session(since, calls[..i]).lastSeen, calls[i]).possiblyMore
  {
    assert calls[..n][..n - 1] == calls[..n - 1];
    if i < n - 1 { NoMoreAt(since, calls, i, n - 1); }
  }

  /** If no reply said that there may be more, a message is delivered exactly if it is newer than
      the baseline of the first call whose ending poll shows it. */
  lemma DeliveredIfNewer(since: string, calls: seq<Call>, seen: seq<seq<set<string>>>, x: string, f: nat)
    requires FirstShown(since, calls, seen, x, f) && !Session(since, calls).possiblyMore
    ensures x in Session(since, calls).delivered <==> IsNew(Passed(since, calls, f), x)
  {
    DeliveredIff(since, calls, seen, x, f);
    TakeAll(calls);
    NoMoreAt(since, calls, f, |calls|);
    StepOf(since, calls, seen, f);
    var r := Answer(Session(since, calls[..f]).lastSeen, calls[f]);
    ReplyMeaning(r, Passed(since, calls, f), EndOf(since, calls, seen, f), x);
  }

  /** x appears, newer than the start, and its first appearance finds the baseline already at or
      past it. */
  ghost predicate ComesLate(since: string, calls: seq<Call>, seen: seq<seq<set<string>>>, x: string, f: nat) {
    FirstShown(since, calls, seen, x, f) && IsNew(since, x) && !IsNew(Passed(since, calls, f), x)
  }

  /** x appears, newer than the start, and no call delivers it. */
  ghost predicate Lost(since: string, calls: seq<Call>, seen: seq<seq<set<string>>>, x: string, f: nat) {
    FirstShown(since, calls, seen, x, f) && IsNew(since, x) && x !in Session(since, calls).delivered
  }

  /** Nothing is lost exactly if nothing comes late. */
  lemma LostIffLate(since: string, calls: seq<Call>, seen: seq<seq<set<string>>>)
    requires !Session(since, calls).possiblyMore
    ensures (exists x, f :: Lost(since, calls, seen, x, f)) <==> (exists x, f :: ComesLate(since, calls, seen, x, f))
  {
    forall x, f | FirstShown(since, calls, seen, x, f)
      ensures Lost(since, calls, seen, x, f) <==> ComesLate(since, calls, seen, x, f)
    {
      DeliveredIfNewer(since, calls, seen, x, f);
    }
  }
}
