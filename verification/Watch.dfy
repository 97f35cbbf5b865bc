/** Waiting for new mail: the gateway's polling loop, and what chained calls deliver. */
module Watch {
  import opened Wrappers
  import opened Text
  import opened Sorting
  import opened Sequences
  import opened Mail
  import opened Cuts
  import opened IndexReads

  const WINDOW: nat := 50

  datatype End = NewMail | TimedOut | Cancelled | Failed

  datatype Reply = Reply(messages: seq<Summary>, lastSeen: string, possiblyMore: bool, end: End)

  predicate IsNew(since: string, id: string) {
    since == "" || Less(since, id)
  }

  function Fresh(since: string, msgs: seq<Summary>): seq<Summary> {
    if msgs == [] then []
    else
      var m := msgs[|msgs| - 1];
      Fresh(since, msgs[..|msgs| - 1]) + if IsNew(since, m.id) then [m] else []
  }

  /** An empty since starts from the newest message there is. */
  function Baseline(since: string, newest: seq<Summary>): string {
    if since == "" && newest != [] then newest[0].id else since
  }

  /** The answer to one call, given what each poll returns until time runs out. */
  function Wait(since: string, polls: seq<seq<Summary>>, otherwise: End): Reply {
    if polls == [] then Reply([], since, false, otherwise)
    else if Fresh(since, polls[0]) == [] then Wait(since, polls[1..], otherwise)
    else Reply(Fresh(since, polls[0]), FirstId(polls[0], since), |polls[0]| == WINDOW, NewMail)
  }

  function FirstId(msgs: seq<Summary>, default: string): string {
    if msgs == [] then default else msgs[0].id
  }

  /** newest answers the baseline read, with at most one message, and is None if that read
      fails; otherwise tells why the polling ends if no new mail does it, which may be that the
      next poll fails. A failure returns no reply at all. */
  method WaitForNewMail(sinceID: string, newest: Option<seq<Summary>>, polls: seq<seq<Summary>>, otherwise: End)
    returns (r: Option<Reply>)
    ensures sinceID == "" && newest == None ==> r == None
    ensures sinceID != "" || newest.Some? ==>
      var since := if sinceID == "" && newest.value != [] then newest.value[0].id else sinceID;
      var w := Wait(since, polls, otherwise);
      r == if w.end == Failed then None else Some(w)
  {
    var since := sinceID;
    if since == "" {
      if newest == None { return None; }
      if |newest.value| > 0 { since := newest.value[0].id; }
    }
    for i := 0 to |polls|
      invariant Wait(since, polls, otherwise) == Wait(since, polls[i..], otherwise)
    {
      DropOne(polls, i);
      var msgs := polls[i];
      var news := FreshOf(since, msgs);
      if |news| > 0 {
        var newLast := since;
        if |msgs| > 0 { newLast := msgs[0].id; }
        var more := |msgs| == 50;
        return Some(Reply(news, newLast, more, NewMail));
      }
    }
    if otherwise == Failed { return None; }
    r := Some(Reply([], since, false, otherwise));
  }

  method FreshOf(since: string, msgs: seq<Summary>) returns (news: seq<Summary>)
    ensures news == Fresh(since, msgs)
  {
    news := [];
    for i := 0 to |msgs|
      invariant news == Fresh(since, msgs[..i])
    {
      TakeOne(msgs, i);
      TakeInit(msgs[..i], msgs[i]);
      if since == "" || Less(since, msgs[i].id) { news := news + [msgs[i]]; }
    }
    TakeAll(msgs);
  }

  predicate Newly(since: string, m: Summary) {
    since == "" || Less(since, m.id)
  }

  predicate HasNews(since: string, poll: seq<Summary>) {
    exists i :: 0 <= i < |poll| && Newly(since, poll[i])
  }

  /** msgs are the new ones of the poll, in its order: places lists their positions. */
  ghost predicate Picks(places: seq<int>, msgs: seq<Summary>, since: string, poll: seq<Summary>) {
    && |places| == |msgs| && (forall i, j :: 0 <= i < j < |places| ==> places[i] < places[j])
    && (forall i :: 0 <= i < |places| ==> 0 <= places[i] < |poll| && msgs[i] == poll[places[i]])
    && (forall k :: 0 <= k < |poll| ==> (k in places <==> Newly(since, poll[k])))
  }

  lemma {:induction false} FreshPlaces(since: string, poll: seq<Summary>) returns (places: seq<int>)
    ensures Picks(places, Fresh(since, poll), since, poll)
  {
    places := [];
    if poll != [] {
      var init, m := poll[..|poll| - 1], poll[|poll| - 1];
      places := FreshPlaces(since, init);
      assert init + [m] == poll;
      if IsNew(since, m.id) {
        PlaceAdded(places, Fresh(since, init), since, init, m, |init|);
        places := places + [|init|];
      } else {
        PlacesKept(places, Fresh(since, init), since, init, m);
        assert Fresh(since, poll) == Fresh(since, init);
      }
    }
  }

  lemma PlaceAdded(places: seq<int>, msgs: seq<Summary>, since: string, init: seq<Summary>, m: Summary, n: int)
    requires Picks(places, msgs, since, init) && Newly(since, m) && n == |init|
    ensures Picks(places + [n], msgs + [m], since, init + [m])
  {
    InSnoc(places, n);
    var poll := init + [m];
    forall k | 0 <= k < |poll| ensures k in places + [n] <==> Newly(since, poll[k]) {
      if k < n { assert poll[k] == init[k]; }
    }
  }

  lemma PlacesKept(places: seq<int>, msgs: seq<Summary>, since: string, init: seq<Summary>, m: Summary)
    requires Picks(places, msgs, since, init) && !Newly(since, m)
    ensures Picks(places, msgs, since, init + [m])
  {
    var poll := init + [m];
    forall k | 0 <= k < |poll| ensures k in places <==> Newly(since, poll[k]) {
      if k < |init| { assert poll[k] == init[k]; }
    }
  }

  predicate IsFirstNews(since: string, polls: seq<seq<Summary>>, k: int) {
    0 <= k < |polls| && HasNews(since, polls[k]) && forall j :: 0 <= j < k ==> !HasNews(since, polls[j])
  }

  /** The reply that the first poll with news gives: its new messages, the newest id it saw, and
      whether it was a full window of fifty. */
  ghost predicate Tells(r: Reply, since: string, poll: seq<Summary>) {
    && r.end == NewMail && poll != [] && r.lastSeen == poll[0].id && (r.possiblyMore <==> |poll| == 50)
    && exists places :: Picks(places, r.messages, since, poll)
  }

  /** A call answers with its first poll that has news; without one it ends as it is told to, and
      the caller is where it was. */
  lemma {:induction false} WaitMeaning(since: string, polls: seq<seq<Summary>>, otherwise: End)
    ensures var r := Wait(since, polls, otherwise);
      if exists k :: IsFirstNews(since, polls, k)
      then exists k :: IsFirstNews(since, polls, k) && Tells(r, since, polls[k])
      else r == Reply([], since, false, otherwise)
  {
    if polls != [] {
      NewsIsFresh(since, polls[0]);
      if HasNews(since, polls[0]) {
        var places := FreshPlaces(since, polls[0]);
        assert IsFirstNews(since, polls, 0);
      } else {
        WaitMeaning(since, polls[1..], otherwise);
        forall k ensures IsFirstNews(since, polls, k + 1) <==> IsFirstNews(since, polls[1..], k) {
          LaterNews(since, polls, k);
        }
        if k :| IsFirstNews(since, polls, k) { assert IsFirstNews(since, polls[1..], k - 1); }
        if k :| IsFirstNews(since, polls[1..], k) && Tells(Wait(since, polls, otherwise), since, polls[1..][k]) {
          assert IsFirstNews(since, polls, k + 1);
        }
      }
    }
  }

  lemma LaterNews(since: string, polls: seq<seq<Summary>>, k: int)
    requires polls != [] && !HasNews(since, polls[0])
    ensures IsFirstNews(since, polls, k + 1) <==> IsFirstNews(since, polls[1..], k)
  {
    if IsFirstNews(since, polls[1..], k) {
      forall j | 0 <= j < k + 1 ensures !HasNews(since, polls[j]) { if j > 0 { assert polls[j] == polls[1..][j - 1]; } }
    }
    if IsFirstNews(since, polls, k + 1) {
      forall j | 0 <= j < k ensures !HasNews(since, polls[1..][j]) { assert polls[1..][j] == polls[j + 1]; }
    }
  }

  lemma NewsIsFresh(since: string, poll: seq<Summary>)
    ensures Fresh(since, poll) != [] <==> HasNews(since, poll)
  {
    var places := FreshPlaces(since, poll);
    if Fresh(since, poll) != [] { assert places[0] in places; }
  }

  // ---- what one poll delivers ----

  /** The inbox answers a poll with its newest messages. */
  ghost predicate Answers(msgs: seq<Summary>, inbox: set<string>) {
    IdsOf(msgs) == Cut(Newest(inbox), WINDOW)
  }

  ghost function Since(inbox: set<string>, since: string): set<string> {
    set id | id in inbox && IsNew(since, id)
  }

  function NewIds(since: string, ids: seq<string>): seq<string> {
    if ids == [] then []
    else
      var id := ids[|ids| - 1];
      NewIds(since, ids[..|ids| - 1]) + if IsNew(since, id) then [id] else []
  }

  lemma {:induction false} FreshIds(since: string, msgs: seq<Summary>)
    ensures IdsOf(Fresh(since, msgs)) == NewIds(since, IdsOf(msgs))
  {
    if msgs != [] {
      var init, m := msgs[..|msgs| - 1], msgs[|msgs| - 1];
      FreshIds(since, init);
      assert IdsOf(msgs)[..|msgs| - 1] == IdsOf(init);
      assert IdsOf(Fresh(since, init) + [m]) == IdsOf(Fresh(since, init)) + [m.id];
    }
  }

  lemma {:induction false} NewIdsMeaning(since: string, ids: seq<string>)
    requires Sorted(ids, Newer)
    ensures Sorted(NewIds(since, ids), Newer)
    ensures forall id :: id in NewIds(since, ids) <==> id in ids && IsNew(since, id)
  {
    if ids != [] {
      var init, last := ids[..|ids| - 1], ids[|ids| - 1];
      NewIdsMeaning(since, init);
      TakeOne(ids, |ids| - 1);
      TakeAll(ids);
      InSnoc(init, last);
      InSnoc(NewIds(since, init), last);
      LastSorted(init, last, Newer);
      if IsNew(since, last) { SnocSorted(NewIds(since, init), last, Newer); }
    }
  }

  /** A poll delivers the newest of the messages newer than since, at most WINDOW of them. */
  lemma FreshIsNewest(since: string, msgs: seq<Summary>, inbox: set<string>)
    requires Answers(msgs, inbox)
    ensures IdsOf(Fresh(since, msgs)) == Cut(Newest(Since(inbox, since)), WINDOW)
  {
    var s := Since(inbox, since);
    NewerIsOrder(inbox);
    CutLists(Newest(inbox), inbox, Newer, WINDOW);
    CutLists(Newest(s), s, Newer, WINDOW);
    FreshIds(since, msgs);
    NewIdsMeaning(since, IdsOf(msgs));
    forall x ensures x in FirstOf(inbox, Newer, WINDOW) && IsNew(since, x) <==> x in FirstOf(s, Newer, WINDOW) {
      if x in inbox && IsNew(since, x) { SameBefore(inbox, since, x); }
    }
    ListsUnique(IdsOf(Fresh(since, msgs)), Cut(Newest(s), WINDOW), FirstOf(s, Newer, WINDOW), Newer);
  }

  lemma SameBefore(inbox: set<string>, since: string, x: string)
    requires IsNew(since, x)
    ensures Before(inbox, Newer, x) == Before(Since(inbox, since), Newer, x)
  {
    forall y | y in inbox && Newer(y, x) ensures IsNew(since, y) {
      if since != "" { LessTransitive(since, x, y); }
    }
  }
}
