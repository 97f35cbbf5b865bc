/** Two chains that pass over mail, each as an instance of the exact conditions. */
module ChainWitnesses {
  import opened Text
  import opened Sorting
  import opened Sequences
  import opened Mail
  import opened Cuts
  import opened IndexReads
  import opened Watch
  import opened WatchLaws
  import opened ChainLaws
  import opened ChainArrivals

  // ---- answers of small inboxes ----

  lemma AnswersNone()
    ensures Answers([], {})
  {
    assert Newest({}) == [];
    assert IdsOf([]) == [];
  }

  lemma AnswersOne(m: Summary)
    ensures Answers([m], {m.id}) && IdsOf([m]) == Cut(Newest({m.id}), 1)
  {
    var ids, r := {m.id}, Newest({m.id});
    NewerIsOrder(ids);
    ListsLength(r, ids, Newer);
    assert r[0] in r;
    assert IdsOf([m]) == r;
  }

  lemma AnswersTwo(b: Summary, a: Summary)
    requires Less(a.id, b.id)
    ensures Answers([b, a], {a.id, b.id})
  {
    var ids, r, given := {a.id, b.id}, Newest({a.id, b.id}), IdsOf([b, a]);
    NewerIsOrder(ids);
    assert given == [b.id, a.id];
    TwoOf(b.id, a.id);
    ListsUnique(given, r, ids, Newer);
  }

  // ---- mail that arrives out of order ----

  /** Once a call has ended on y, a message not greater than y that shows later is never
      delivered, whatever the calls before and after. */
  lemma LateNeverDelivered(since: string, calls: seq<Call>, seen: seq<seq<set<string>>>, x: string, f: nat,
      y: string, e: nat)
    requires FirstShown(since, calls, seen, x, f) && FirstShown(since, calls, seen, y, e) && e < f && AtMost(x, y)
    ensures !IsNew(Passed(since, calls, f), x) && x !in Session(since, calls).delivered
  {
    Decided(since, calls, seen, y, e, f);
    StaysBehind(x, y, Session(since, calls[..f]).lastSeen);
    NotNew(Session(since, calls[..f]).lastSeen, x);
    DeliveredIff(since, calls, seen, x, f);
  }

  function TwoCalls(a: Summary, b: Summary): seq<Call> {
    [Call([], [[b]], TimedOut), Call([], [[b, a]], TimedOut)]
  }

  ghost function TwoViews(a: Summary, b: Summary): seq<seq<set<string>>> {
    [[{b.id}], [{a.id, b.id}]]
  }

  lemma TwoViewsShown(since: string, a: Summary, b: Summary)
    requires Less(a.id, b.id) && a.id != "" && b.id != ""
    ensures Watched(TwoCalls(a, b), TwoViews(a, b))
    ensures FirstShown(since, TwoCalls(a, b), TwoViews(a, b), b.id, 0)
    ensures FirstShown(since, TwoCalls(a, b), TwoViews(a, b), a.id, 1)
  {
    var calls, seen := TwoCalls(a, b), TwoViews(a, b);
    AnswersOne(b);
    AnswersTwo(b, a);
    LessIrreflexive(a.id);
    assert AllAnswer(calls[0].polls, seen[0]) && AllAnswer(calls[1].polls, seen[1]);
    assert Watched(calls, seen);
    assert EndOf(since, calls, seen, 0) == {b.id} && EndOf(since, calls, seen, 1) == {a.id, b.id};
  }

  /** So a message that arrives after b under a smaller id can be lost to a chain that has seen
      b, with no reply saying that there may be more. */
  lemma LateSmallerIdMissed(since: string, a: Summary, b: Summary)
    requires since != "" && Less(since, a.id) && Less(a.id, b.id)
    ensures ComesLate(since, TwoCalls(a, b), TwoViews(a, b), a.id, 1)
    ensures Lost(since, TwoCalls(a, b), TwoViews(a, b), a.id, 1)
    ensures !Session(since, TwoCalls(a, b)).possiblyMore
  {
    TwoViewsShown(since, a, b);
    LateNeverDelivered(since, TwoCalls(a, b), TwoViews(a, b), a.id, 1, b.id, 0);
    ShortPolls(since, TwoCalls(a, b));
  }

  // ---- an empty start on an empty inbox ----

  function EmptyThen(a: Summary): seq<Call> {
    [Call([], [[]], TimedOut), Call([a], [[a]], TimedOut)]
  }

  ghost function EmptyThenViews(a: Summary): seq<seq<set<string>>> {
    [[{}], [{a.id}]]
  }

  lemma EmptyThenWatched(a: Summary)
    requires a.id != ""
    ensures Watched(EmptyThen(a), EmptyThenViews(a))
    ensures Baselined(EmptyThen(a), [{}, {a.id}]) && Arriving([{}, {a.id}], EmptyThenViews(a))
  {
    var calls, seen := EmptyThen(a), EmptyThenViews(a);
    AnswersNone();
    AnswersOne(a);
    assert AllAnswer(calls[0].polls, seen[0]) && AllAnswer(calls[1].polls, seen[1]);
  }

  /** A chain that starts with an empty since on an empty inbox baselines again at its second
      call, past whatever came in between. */
  lemma EmptyStartMisses(a: Summary)
    requires a.id != ""
    ensures Watched(EmptyThen(a), EmptyThenViews(a))
    ensures Baselined(EmptyThen(a), [{}, {a.id}]) && Arriving([{}, {a.id}], EmptyThenViews(a))
    ensures Rebaselines("", EmptyThen(a), {}, 1) && Lost("", EmptyThen(a), EmptyThenViews(a), a.id, 1)
    ensures !Session("", EmptyThen(a)).possiblyMore
  {
    var calls := EmptyThen(a);
    EmptyThenWatched(a);
    ShortPolls("", calls);
    assert calls[..1] == [calls[0]];
    assert calls[..1][..0] == [];
    RebaselineLoses(calls, [{}, {a.id}], EmptyThenViews(a), 1);
  }

  /** Polls of less than a full window never say that there may be more. */
  lemma {:induction false} ShortPolls(since: string, calls: seq<Call>)
    requires forall i, j :: 0 <= i < |calls| && 0 <= j < |calls[i].polls| ==> |calls[i].polls[j]| < WINDOW
    ensures !Session(since, calls).possiblyMore
  {
    if calls != [] {
      var n := |calls| - 1;
      ShortPolls(since, calls[..n]);
      NoneMore(Baseline(Session(since, calls[..n]).lastSeen, calls[n].newest), calls[n].polls, calls[n].otherwise);
    }
  }

  lemma {:induction false} NoneMore(since: string, polls: seq<seq<Summary>>, otherwise: End)
    requires forall j :: 0 <= j < |polls| ==> |polls[j]| < WINDOW
    ensures !Wait(since, polls, otherwise).possiblyMore
  {
    if polls != [] && Fresh(since, polls[0]) == [] { NoneMore(since, polls[1..], otherwise); }
  }
}
