/** Chains of waits on an inbox where ids grow with arrival: nothing is lost, but for one way
    to start. */
module ChainArrivals {
  import opened Text
  import opened Sequences
  import opened Cuts
  import opened IndexReads
  import opened Watch
  import opened WatchLaws
  import opened ChainLaws

  /** From a to b mail has only arrived, and under greater ids than those already there. */
  ghost predicate Grows(a: set<string>, b: set<string>) {
    a <= b && forall x, y :: x in b && x !in a && y in a ==> Less(y, x)
  }

  ghost predicate InOrder(seen: seq<seq<set<string>>>) {
    forall i, j, k, l :: 0 <= i < k < |seen| && 0 <= j < |seen[i]| && 0 <= l < |seen[k]| ==>
      Grows(seen[i][j], seen[k][l])
  }

  lemma EndsGrow(since: string, calls: seq<Call>, seen: seq<seq<set<string>>>, i: nat, k: nat)
    requires Watched(calls, seen) && InOrder(seen) && i < k < |calls|
    ensures Grows(EndOf(since, calls, seen, i), EndOf(since, calls, seen, k))
  {
  }

  lemma {:induction false} SomeFirst(since: string, calls: seq<Call>, seen: seq<seq<set<string>>>, x: string, n: nat)
    returns (f: nat)
    requires Watched(calls, seen) && n <= |calls|
    requires exists i :: 0 <= i < n && x in EndOf(since, calls, seen, i)
    ensures f < n && FirstShown(since, calls, seen, x, f)
  {
    if exists i :: 0 <= i < n - 1 && x in EndOf(since, calls, seen, i) {
      f := SomeFirst(since, calls, seen, x, n - 1);
    } else {
      f := n - 1;
    }
  }

  // ---- where baselines come from ----

  /** b is the start, a message that was there when the chain began, or one that an earlier
      call ended on. */
  ghost predicate ComesFrom(b: string, since: string, calls: seq<Call>, seen: seq<seq<set<string>>>,
      first: set<string>, m: nat)
    requires Watched(calls, seen) && m <= |calls|
  {
    b == since || b in first || exists j :: 0 <= j < m && b in EndOf(since, calls, seen, j)
  }

  predicate Unset(since: string, calls: seq<Call>, i: nat)
    requires i <= |calls|
  {
    Session(since, calls[..i]).lastSeen == ""
  }

  /** Call i is still without a last_seen_id, and reads its baseline off mail that arrived after
      the chain began. */
  predicate Rebaselines(since: string, calls: seq<Call>, first: set<string>, i: nat)
    requires i < |calls|
  {
    Unset(since, calls, i) && calls[i].newest != [] && calls[i].newest[0].id !in first
  }

  lemma {:induction false} SeenComesFrom(since: string, calls: seq<Call>, seen: seq<seq<set<string>>>,
      first: set<string>, m: nat)
    requires Watched(calls, seen) && m <= |calls|
    requires forall i :: 0 <= i < m ==> !Rebaselines(since, calls, first, i)
    ensures ComesFrom(Session(since, calls[..m]).lastSeen, since, calls, seen, first, m)
    decreases m, 0
  {
    if m > 0 {
      var n := m - 1;
      BaselineComesFrom(since, calls, seen, first, n);
      StepOf(since, calls, seen, n);
      var r := Answer(Session(since, calls[..n]).lastSeen, calls[n]);
      if r.messages != [] {
        assert r.lastSeen in EndOf(since, calls, seen, n);
      } else {
        FromEarlier(Passed(since, calls, n), since, calls, seen, first, n);
      }
    }
  }

  lemma FromEarlier(b: string, since: string, calls: seq<Call>, seen: seq<seq<set<string>>>, first: set<string>, n: nat)
    requires Watched(calls, seen) && n < |calls| && ComesFrom(b, since, calls, seen, first, n)
    ensures ComesFrom(b, since, calls, seen, first, n + 1)
  {
  }

  lemma {:induction false} BaselineComesFrom(since: string, calls: seq<Call>, seen: seq<seq<set<string>>>,
      first: set<string>, n: nat)
    requires Watched(calls, seen) && n < |calls|
    requires forall i :: 0 <= i <= n ==> !Rebaselines(since, calls, first, i)
    ensures ComesFrom(Passed(since, calls, n), since, calls, seen, first, n)
    decreases n, 1
  {
    SeenComesFrom(since, calls, seen, first, n);
    assert !Rebaselines(since, calls, first, n);
  }

  /** What was not there at first, and first shows at f, is newer than f's baseline. */
  lemma ArrivalIsNew(since: string, calls: seq<Call>, seen: seq<seq<set<string>>>, first: set<string>,
      x: string, f: nat)
    requires FirstShown(since, calls, seen, x, f) && InOrder(seen)
    requires forall i :: 0 <= i <= f ==> !Rebaselines(since, calls, first, i)
    requires IsNew(since, x) && x !in first && Grows(first, EndOf(since, calls, seen, f))
    ensures IsNew(Passed(since, calls, f), x)
  {
    BaselineComesFrom(since, calls, seen, first, f);
    var b := Passed(since, calls, f);
    if b != since && b !in first {
      var j :| 0 <= j < f && b in EndOf(since, calls, seen, j);
      EndsGrow(since, calls, seen, j, f);
    }
  }

  // ---- a chain that starts from a known message ----

  /** If ids grow with arrival and no reply said that there may be more, the chain has delivered
      exactly the messages newer than its start, as of the poll that ended its last call. */
  lemma NothingLost(since: string, calls: seq<Call>, seen: seq<seq<set<string>>>, x: string)
    requires since != "" && calls != [] && Watched(calls, seen) && InOrder(seen) && !Session(since, calls).possiblyMore
    ensures x in Session(since, calls).delivered <==> x in EndOf(since, calls, seen, |calls| - 1) && Less(since, x)
  {
    var n := |calls|;
    TakeAll(calls);
    if !(exists i :: 0 <= i < n && x in EndOf(since, calls, seen, i)) {
      NotBefore(since, calls, seen, x, n);
    } else {
      var f := SomeFirst(since, calls, seen, x, n);
      ShownAtEnd(since, calls, seen, x, f);
      DeliveredIfNewer(since, calls, seen, x, f);
      NewerThanStart(since, calls, seen, x, f);
    }
  }

  lemma ShownAtEnd(since: string, calls: seq<Call>, seen: seq<seq<set<string>>>, x: string, f: nat)
    requires FirstShown(since, calls, seen, x, f) && InOrder(seen)
    ensures x in EndOf(since, calls, seen, |calls| - 1)
  {
    if f < |calls| - 1 { EndsGrow(since, calls, seen, f, |calls| - 1); }
  }

  lemma NewerThanStart(since: string, calls: seq<Call>, seen: seq<seq<set<string>>>, x: string, f: nat)
    requires since != "" && FirstShown(since, calls, seen, x, f) && InOrder(seen)
    ensures IsNew(Passed(since, calls, f), x) <==> Less(since, x)
  {
    forall i | 0 <= i <= f ensures !Rebaselines(since, calls, {}, i) && AtMost(since, Passed(since, calls, i)) {
      NeverEmpty(since, calls, seen, i);
    }
    if Less(since, x) {
      ArrivalIsNew(since, calls, seen, {}, x, f);
    } else if IsNew(Passed(since, calls, f), x) {
      MovesOver(since, Passed(since, calls, f), x);
    }
  }

  lemma MovesOver(since: string, b: string, x: string)
    requires since != "" && AtMost(since, b) && IsNew(b, x)
    ensures Less(since, x)
  {
    if since != b { LessTransitive(since, b, x); }
  }

  lemma {:induction false} NeverEmpty(since: string, calls: seq<Call>, seen: seq<seq<set<string>>>, i: nat)
    requires since != "" && Watched(calls, seen) && i <= |calls|
    ensures Session(since, calls[..i]).lastSeen != "" && AtMost(since, Session(since, calls[..i]).lastSeen)
  {
    if i > 0 {
      NeverEmpty(since, calls, seen, i - 1);
      StepOf(since, calls, seen, i - 1);
      StaysBehind(since, Session(since, calls[..i - 1]).lastSeen, Session(since, calls[..i]).lastSeen);
    }
  }

  // ---- a chain that starts without one ----

  /** What the baseline reads see, one for each call. */
  ghost predicate Baselined(calls: seq<Call>, starts: seq<set<string>>) {
    && |calls| == |starts|
    && forall i :: 0 <= i < |calls| ==> "" !in starts[i] && IdsOf(calls[i].newest) == Cut(Newest(starts[i]), 1)
  }

  /** Mail only arrives, from the chain's first baseline on and between a call's baseline and its
      polls. */
  ghost predicate Arriving(starts: seq<set<string>>, seen: seq<seq<set<string>>>) {
    && |starts| == |seen| && InOrder(seen)
    && forall i, l :: 0 <= i < |seen| && 0 <= l < |seen[i]| ==>
      Grows(starts[0], seen[i][l]) && Grows(starts[i], seen[i][l])
  }

  /** A chain that starts with an empty since delivers everything that arrives after its start
      exactly if no call that is still without a last_seen_id baselines on such an arrival. */
  lemma EmptyStartIff(calls: seq<Call>, starts: seq<set<string>>, seen: seq<seq<set<string>>>)
    requires calls != [] && Watched(calls, seen) && Baselined(calls, starts) && Arriving(starts, seen)
    requires !Session("", calls).possiblyMore
    ensures (forall x :: x in EndOf("", calls, seen, |calls| - 1) && x !in starts[0] ==>
               x in Session("", calls).delivered)
      <==> (forall i :: 0 <= i < |calls| ==> !Rebaselines("", calls, starts[0], i))
  {
    if forall i :: 0 <= i < |calls| ==> !Rebaselines("", calls, starts[0], i) {
      forall x | x in EndOf("", calls, seen, |calls| - 1) && x !in starts[0] ensures x in Session("", calls).delivered {
        ArrivalDelivered("", calls, starts[0], seen, x);
      }
    } else {
      var i :| 0 <= i < |calls| && Rebaselines("", calls, starts[0], i);
      RebaselineLoses(calls, starts, seen, i);
      ShownAtEnd("", calls, seen, calls[i].newest[0].id, i);
    }
  }

  lemma ArrivalDelivered(since: string, calls: seq<Call>, first: set<string>, seen: seq<seq<set<string>>>, x: string)
    requires Watched(calls, seen) && InOrder(seen) && !Session(since, calls).possiblyMore
    requires forall i, l :: 0 <= i < |seen| && 0 <= l < |seen[i]| ==> Grows(first, seen[i][l])
    requires forall i :: 0 <= i < |calls| ==> !Rebaselines(since, calls, first, i)
    requires IsNew(since, x) && x !in first
    requires exists i :: 0 <= i < |calls| && x in EndOf(since, calls, seen, i)
    ensures x in Session(since, calls).delivered
  {
    var f := SomeFirst(since, calls, seen, x, |calls|);
    ArrivalIsNew(since, calls, seen, first, x, f);
    DeliveredIfNewer(since, calls, seen, x, f);
  }

  /** The message that a late baseline is read off is itself lost. */
  lemma RebaselineLoses(calls: seq<Call>, starts: seq<set<string>>, seen: seq<seq<set<string>>>, i: nat)
    requires i < |calls| && Watched(calls, seen) && Baselined(calls, starts) && Arriving(starts, seen)
    requires !Session("", calls).possiblyMore && Rebaselines("", calls, starts[0], i)
    ensures FirstShown("", calls, seen, calls[i].newest[0].id, i)
    ensures calls[i].newest[0].id !in Session("", calls).delivered
  {
    BaselineShows(calls, starts, seen, i);
    BaselineFirst("", calls, seen, calls[i].newest[0].id, i);
    BaselineNotNew("", calls, seen, i);
  }

  lemma BaselineFirst(since: string, calls: seq<Call>, seen: seq<seq<set<string>>>, y: string, i: nat)
    requires Watched(calls, seen) && i < |calls| && Unset(since, calls, i) && y in EndOf(since, calls, seen, i)
    ensures FirstShown(since, calls, seen, y, i)
  {
    forall j | 0 <= j < i ensures y !in EndOf(since, calls, seen, j) { EmptyBefore(since, calls, seen, y, j, i); }
  }

  lemma BaselineNotNew(since: string, calls: seq<Call>, seen: seq<seq<set<string>>>, i: nat)
    requires i < |calls| && Unset(since, calls, i) && calls[i].newest != [] && calls[i].newest[0].id != ""
    requires FirstShown(since, calls, seen, calls[i].newest[0].id, i) && !Session(since, calls).possiblyMore
    ensures calls[i].newest[0].id !in Session(since, calls).delivered
  {
    var y := calls[i].newest[0].id;
    assert Passed(since, calls, i) == y;
    LessIrreflexive(y);
    DeliveredIfNewer(since, calls, seen, y, i);
  }

  lemma BaselineShows(calls: seq<Call>, starts: seq<set<string>>, seen: seq<seq<set<string>>>, i: nat)
    requires i < |calls| && Watched(calls, seen) && Baselined(calls, starts) && Arriving(starts, seen)
    requires calls[i].newest != []
    ensures calls[i].newest[0].id in EndOf("", calls, seen, i) && calls[i].newest[0].id != ""
  {
    var y := calls[i].newest[0].id;
    assert IdsOf(calls[i].newest)[0] == y == Newest(starts[i])[0];
    assert Newest(starts[i])[0] in Newest(starts[i]);
  }

  /** While last_seen_id is empty, every call has ended on an empty inbox. */
  lemma EmptyBefore(since: string, calls: seq<Call>, seen: seq<seq<set<string>>>, x: string, j: nat, i: nat)
    requires Watched(calls, seen) && j < i <= |calls| && Unset(since, calls, i)
    ensures x !in EndOf(since, calls, seen, j)
  {
    UnsetBefore(since, calls, seen, j + 1, i);
    StillEmpty(since, calls, seen, x, j, j + 1);
  }

  lemma {:induction false} UnsetBefore(since: string, calls: seq<Call>, seen: seq<seq<set<string>>>, j: nat, i: nat)
    requires Watched(calls, seen) && j <= i <= |calls| && Unset(since, calls, i)
    ensures Unset(since, calls, j)
  {
    if j < i {
      StillEmpty(since, calls, seen, "", i - 1, i);
      UnsetBefore(since, calls, seen, j, i - 1);
    }
  }

  lemma StillEmpty(since: string, calls: seq<Call>, seen: seq<seq<set<string>>>, x: string, m: nat, n: nat)
    requires Watched(calls, seen) && n == m + 1 <= |calls| && Unset(since, calls, n)
    ensures x !in EndOf(since, calls, seen, m) && Unset(since, calls, m)
  {
    StepOf(since, calls, seen, m);
    var r := Answer(Session(since, calls[..m]).lastSeen, calls[m]);
    ReplyMeaning(r, Passed(since, calls, m), EndOf(since, calls, seen, m), x);
  }

  /** In particular a chain that finds mail when it starts is the chain from the newest of it. */
  lemma {:induction false} StartOnMail(calls: seq<Call>)
    requires calls != [] && calls[0].newest != [] && calls[0].newest[0].id != ""
    ensures Session("", calls) == Session(calls[0].newest[0].id, calls)
  {
    var n := |calls| - 1;
    if n == 0 {
      assert calls[..n] == [];
    } else {
      assert calls[..n][0] == calls[0];
      StartOnMail(calls[..n]);
    }
  }
}
