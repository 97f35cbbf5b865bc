/** When pushes really go: after the mutex is released, each as late as its job happens to be. */
module PushSends {
  import opened Wrappers
  import opened QuietHours
  import opened PushDelivery
  import opened PushLaws

  // ---- what goes is what was decided on ----

  function Pushes<A(==)>(sent: seq<Sent<A>>): multiset<Push<A>> {
    if sent == [] then multiset{} else Pushes(sent[..|sent| - 1]) + multiset{sent[|sent| - 1].push}
  }

  ghost predicate NotEarly<A(!new)>(o: Outcome<A>) {
    && (forall p :: p in o.state.outbox ==> p.at <= o.state.now)
    && (forall k :: 0 <= k < |o.sent| ==> o.sent[k].push.at <= o.sent[k].time <= o.state.now)
  }

  /** Every push decided on is still to be sent or has gone, once and as it was decided. */
  lemma {:induction false} EachSentOnce<A(!new)>(start: int, es: seq<Event<A>>)
    ensures AllAccounted(Play(start, es))
  {
    if es != [] {
      EachSentOnce(start, es[..|es| - 1]);
      StepAccounts(Play(start, es[..|es| - 1]), es[|es| - 1]);
    }
  }

  ghost predicate AllAccounted<A(!new)>(o: Outcome<A>) {
    multiset(o.queued) == o.state.outbox + Pushes(o.sent)
  }

  lemma StepAccounts<A(!new)>(o: Outcome<A>, e: Event<A>)
    requires AllAccounted(o)
    ensures AllAccounted(After(o, e))
  {
    var step := Step(o.state, e);
    StepMoves(o.state, e, step);
    PushesStep(o.sent, step.sent);
    StillBalanced(o.queued, step.queued, o.state.outbox, step.state.outbox, Pushes(o.sent), Pushes(step.sent));
  }

  lemma StillBalanced<P(!new)>(queued: seq<P>, more: seq<P>, before: multiset<P>, outbox: multiset<P>,
      gone: multiset<P>, going: multiset<P>)
    requires multiset(queued) == before + gone && outbox + going == before + multiset(more)
    ensures multiset(queued + more) == outbox + (gone + going)
  {
    forall x ensures multiset(queued + more)[x] == (outbox + (gone + going))[x] {
      assert (outbox + going)[x] == (before + multiset(more))[x];
    }
  }

  lemma StepMoves<A(!new)>(s: State<A>, e: Event<A>, o: Outcome<A>)
    requires o == Step(s, e)
    ensures |o.sent| <= 1 && o.state.outbox + Pushes(o.sent) == s.outbox + multiset(o.queued)
  {
    match e {
      case Run(job) =>
        RunQueues(s, job, o);
        if o.queued != [] { assert o.queued == [o.queued[0]]; }
      case Send(p) => SendTakes(s, p);
      case _ => assert o.state.outbox == s.outbox && o.queued == [] && o.sent == [];
    }
  }

  lemma SendTakes<A(!new)>(s: State<A>, p: Push<A>)
    ensures var o := Step(s, Send(p));
      |o.sent| <= 1 && o.queued == [] && o.state.outbox + Pushes(o.sent) == s.outbox
  {
    if p in s.outbox {
      var o := Step(s, Send(p));
      assert o.sent[..0] == [];
      assert Pushes(o.sent) == multiset{p};
      assert s.outbox == o.state.outbox + multiset{p};
    }
  }

  /** And none goes before it was decided on. */
  lemma {:induction false} SentAfter<A(!new)>(start: int, es: seq<Event<A>>)
    ensures NotEarly(Play(start, es))
  {
    if es != [] {
      SentAfter(start, es[..|es| - 1]);
      StepNotEarly(Play(start, es[..|es| - 1]), es[|es| - 1]);
    }
  }

  lemma StepNotEarly<A(!new)>(o: Outcome<A>, e: Event<A>)
    requires NotEarly(o)
    ensures NotEarly(After(o, e))
  {
    var t := Step(o.state, e).state;
    forall p | p in t.outbox ensures p.at <= t.now {
      if p !in o.state.outbox { assert e.Run? && p.at == o.state.now; }
    }
  }

  lemma PushesStep<A>(sent: seq<Sent<A>>, more: seq<Sent<A>>)
    requires |more| <= 1
    ensures Pushes(sent + more) == Pushes(sent) + Pushes(more)
  {
    if more == [] {
      assert sent + more == sent;
    } else {
      assert (sent + more)[..|sent + more| - 1] == sent;
    }
  }

  // ---- how far apart they go ----

  lemma {:induction false} SentIn<A>(sent: seq<Sent<A>>, k: nat)
    requires k < |sent|
    ensures sent[k].push in Pushes(sent)
  {
    if k < |sent| - 1 { SentIn(sent[..|sent| - 1], k); }
  }

  lemma {:induction false} SentTwice<A>(sent: seq<Sent<A>>, k: nat, l: nat)
    requires k < l < |sent| && sent[k].push == sent[l].push
    ensures Pushes(sent)[sent[k].push] >= 2
  {
    var init := sent[..|sent| - 1];
    if l < |sent| - 1 { SentTwice(init, k, l); } else { SentIn(init, k); }
  }

  lemma {:induction false} QueuedOnce<A>(pushes: seq<Push<A>>, p: Push<A>, a: A)
    requires Spaced(pushes, a) && AnnouncedTo(p, a)
    ensures multiset(pushes)[p] <= 1
  {
    if pushes != [] {
      var init, last := pushes[..|pushes| - 1], pushes[|pushes| - 1];
      QueuedOnce(init, p, a);
      assert pushes == init + [last];
    }
  }

  lemma SectionsApart<A(!new)>(start: int, es: seq<Event<A>>, a: A, k: nat, l: nat)
    requires InTurn(Play(start, es).sent, a, k, l)
    ensures Play(start, es).sent[l].push.at >= Play(start, es).sent[k].push.at + AGG_WINDOW
  {
    var o := Play(start, es);
    var p, q := o.sent[k].push, o.sent[l].push;
    RunSpaced(start, es, a);
    EachSentOnce(start, es);
    SentIn(o.sent, k);
    SentIn(o.sent, l);
    if p == q {
      QueuedOnce(o.queued, p, a);
      SentTwice(o.sent, if k < l then k else l, if k < l then l else k);
    } else {
      assert p in multiset(o.queued) && q in multiset(o.queued);
      var i :| 0 <= i < |o.queued| && o.queued[i] == p;
      var j :| 0 <= j < |o.queued| && o.queued[j] == q;
    }
  }

  /** No job takes longer than late seconds from the mutex to the sending of a push to a. */
  ghost predicate Prompt<A(!new)>(sent: seq<Sent<A>>, a: A, late: nat) {
    forall k :: 0 <= k < |sent| && AnnouncedTo(sent[k].push, a) ==> sent[k].time <= sent[k].push.at + late
  }

  /** Push k of those sent is decided on before push l, and both announce to a. */
  predicate InTurn<A(==)>(sent: seq<Sent<A>>, a: A, k: nat, l: nat) {
    && k < |sent| && l < |sent| && k != l && AnnouncedTo(sent[k].push, a) && AnnouncedTo(sent[l].push, a)
    && sent[k].push.at <= sent[l].push.at
  }

  /** Of two aggregated pushes to a, the one decided on later goes gap seconds after the other. */
  ghost predicate Apart<A(!new)>(sent: seq<Sent<A>>, a: A, gap: int) {
    forall k: nat, l: nat :: InTurn(sent, a, k, l) ==> sent[l].time >= sent[k].time + gap
  }

  /** So a full minute lies between the pushes that an account gets only if sending takes no time,
      and they can change places once it may take longer than a minute. */
  lemma SendsApartIff<A(!new)>(a: A, late: nat, gap: int)
    ensures (forall start, es: seq<Event<A>> ::
               Prompt(Play(start, es).sent, a, late) ==> Apart(Play(start, es).sent, a, gap))
      <==> gap <= AGG_WINDOW - late
  {
    if gap <= AGG_WINDOW - late {
      forall start, es: seq<Event<A>> | Prompt(Play(start, es).sent, a, late)
        ensures Apart(Play(start, es).sent, a, gap)
      {
        PromptApart(start, es, a, late);
      }
    } else {
      var o, k, l := LateRun(a, late);
      var start, es: seq<Event<A>> :| o == Play(start, es);
      assert !Apart(Play(start, es).sent, a, gap);
    }
  }

  lemma PromptApart<A(!new)>(start: int, es: seq<Event<A>>, a: A, late: nat)
    requires Prompt(Play(start, es).sent, a, late)
    ensures Apart(Play(start, es).sent, a, AGG_WINDOW - late)
  {
    var sent := Play(start, es).sent;
    SentAfter(start, es);
    forall k: nat, l: nat | InTurn(sent, a, k, l) ensures sent[l].time >= sent[k].time + AGG_WINDOW - late {
      SectionsApart(start, es, a, k, l);
    }
  }

  // ---- a run that reaches the bound ----

  ghost predicate Reached<A(!new)>(o: Outcome<A>) {
    exists start, es: seq<Event<A>> :: o == Play(start, es)
  }

  lemma Played<A(!new)>(o: Outcome<A>, e: Event<A>)
    requires Reached(o)
    ensures Reached(After(o, e))
  {
    var start, es: seq<Event<A>> :| o == Play(start, es);
    var more := es + [e];
    assert more[..|more| - 1] == es;
    assert After(o, e) == Play(start, more);
  }

  ghost predicate Waiting<A>(s: State<A>, a: A, deadline: int) {
    && a in s.pending && s.pending[a] < |s.timers| && s.timers[s.pending[a]] == Job(Flush, a)
    && s.pending[a] in s.armed && s.armed[s.pending[a]] == deadline
  }

  lemma Opens<A(!new)>(o: Outcome<A>, a: A) returns (p: Outcome<A>)
    requires Reached(o) && a !in o.state.pending
    ensures Reached(p) && Waiting(p.state, a, o.state.now + AGG_WINDOW)
    ensures p.state.outbox == o.state.outbox && p.state.now == o.state.now && p.sent == o.sent
  {
    var e := Arrive(a, "", None, 0, DND(false, 0, 0), 0);
    Played(o, e);
    p := After(o, e);
  }

  lemma Waits<A(!new)>(o: Outcome<A>, seconds: nat) returns (p: Outcome<A>)
    requires Reached(o)
    ensures Reached(p) && p.state == o.state.(now := o.state.now + seconds) && p.sent == o.sent
  {
    Played(o, Tick(seconds));
    p := After(o, Tick(seconds));
  }

  lemma Closes<A(!new)>(o: Outcome<A>, a: A, deadline: int) returns (p: Outcome<A>, push: Push<A>)
    requires Reached(o) && Waiting(o.state, a, deadline) && deadline <= o.state.now
    ensures Reached(p) && AnnouncedTo(push, a) && push.at == o.state.now && a !in p.state.pending
    ensures p.state.outbox == o.state.outbox + multiset{push} && p.state.now == o.state.now && p.sent == o.sent
  {
    Played(o, Due(o.state.pending[a]));
    var due := After(o, Due(o.state.pending[a]));
    assert Job(Flush, a) in due.state.firing;
    Played(due, Run(Job(Flush, a)));
    p := After(due, Run(Job(Flush, a)));
    push := FlushedPush(due.state, a);
  }

  lemma Goes<A(!new)>(o: Outcome<A>, push: Push<A>) returns (p: Outcome<A>)
    requires Reached(o) && push in o.state.outbox
    ensures Reached(p) && p.sent == o.sent + [Sent(push, o.state.now)]
    ensures p.state == o.state.(outbox := o.state.outbox - multiset{push})
  {
    Played(o, Send(push));
    p := After(o, Send(push));
    assert o.state.outbox[push := o.state.outbox[push] - 1] == o.state.outbox - multiset{push};
  }

  ghost predicate Reaches<A(!new)>(sent: seq<Sent<A>>, a: A, late: nat, k: nat, l: nat) {
    Prompt(sent, a, late) && InTurn(sent, a, k, l) && sent[l].time == sent[k].time + AGG_WINDOW - late
  }

  /** One push goes late seconds after it was decided on, and the next, a minute on, at once. */
  lemma LateRun<A(!new)>(a: A, late: nat) returns (o: Outcome<A>, k: nat, l: nat)
    ensures Reached(o) && Reaches(o.sent, a, late, k, l)
  {
    var es: seq<Event<A>> := [];
    o := Play(0, es);
    var p;
    o := Opens(o, a);
    o := Waits(o, 60);
    o, p := Closes(o, a, 60);
    o := Opens(o, a);
    if late <= 60 {
      o := LateInTurn(o, a, p, late);
      k, l := 0, 1;
    } else {
      o := LateOvertaken(o, a, p, late);
      k, l := 1, 0;
    }
  }

  /** At 60, p is decided on and another flush is set for 120. */
  ghost predicate Midway<A(!new)>(o: Outcome<A>, a: A, p: Push<A>) {
    && Reached(o) && o.sent == [] && o.state.outbox == multiset{p} && AnnouncedTo(p, a) && p.at == 60 == o.state.now
    && Waiting(o.state, a, 120)
  }

  lemma TwoReach<A(!new)>(a: A, late: nat, p: Push<A>, q: Push<A>)
    requires AnnouncedTo(p, a) && AnnouncedTo(q, a) && p.at == 60 && q.at == 120
    ensures Reaches([Sent(p, 60 + late), Sent(q, 120)], a, late, 0, 1)
    ensures Reaches([Sent(q, 120), Sent(p, 60 + late)], a, late, 1, 0)
  {
  }

  lemma LateInTurn<A(!new)>(mid: Outcome<A>, a: A, p: Push<A>, late: nat) returns (o: Outcome<A>)
    requires Midway(mid, a, p) && late <= 60
    ensures Reached(o) && Reaches(o.sent, a, late, 0, 1)
  {
    var q;
    o := Waits(mid, late);
    o := Goes(o, p);
    o := Waits(o, 60 - late);
    o, q := Closes(o, a, 120);
    o := Goes(o, q);
    TwoReach(a, late, p, q);
    assert o.sent == [Sent(p, 60 + late), Sent(q, 120)];
  }

  lemma LateOvertaken<A(!new)>(mid: Outcome<A>, a: A, p: Push<A>, late: nat) returns (o: Outcome<A>)
    requires Midway(mid, a, p) && late > 60
    ensures Reached(o) && Reaches(o.sent, a, late, 1, 0)
  {
    var q;
    o, q := Overtakes(mid, a, p);
    o := Waits(o, late - 60);
    o := Goes(o, p);
    TwoReach(a, late, p, q);
    assert o.sent == [Sent(q, 120), Sent(p, 60 + late)];
  }

  lemma Overtakes<A(!new)>(mid: Outcome<A>, a: A, p: Push<A>) returns (o: Outcome<A>, q: Push<A>)
    requires Midway(mid, a, p)
    ensures Reached(o) && o.sent == [Sent(q, 120)] && AnnouncedTo(q, a) && q.at == 120 == o.state.now
    ensures p in o.state.outbox
  {
    o := Waits(mid, 60);
    o, q := Closes(o, a, 120);
    o := Goes(o, q);
    assert multiset{p} + multiset{q} - multiset{q} == multiset{p};
  }
}
