/** What holds of push delivery in every run, however arrivals and timers interleave. */
module PushLaws {
  import opened Wrappers
  import opened QuietHours
  import opened Tally
  import opened PushDelivery

  // ---- summaries ----

  /** The arrivals for a that found its window active. */
  function SilentArrivals<A(==)>(es: seq<Event<A>>, a: A): nat {
    if es == [] then 0
    else SilentArrivals(es[..|es| - 1], a) + SilentArrival(es[|es| - 1], a)
  }

  function SilentArrival<A(==)>(e: Event<A>, a: A): nat {
    if Quiet(e) && e.addr == a then 1 else 0
  }

  /** The arrivals that the summaries gone to a have reported. */
  function Summarized<A(==)>(sent: seq<Sent<A>>, a: A): nat {
    if sent == [] then 0
    else Summarized(sent[..|sent| - 1], a) + Reported(sent[|sent| - 1].push, a)
  }

  function Reported<A(==)>(p: Push<A>, a: A): nat {
    if p.Summary? && p.to == a then p.n else 0
  }

  function ReportedTo<A(==)>(a: A): Push<A> -> int {
    p => Reported(p, a)
  }

  /** The arrivals that summaries still to be sent report. */
  ghost function InFlight<A(!new)>(outbox: multiset<Push<A>>, a: A): int {
    Sum(outbox, ReportedTo(a))
  }

  function Uncounted<A>(s: State<A>, a: A): nat {
    Lookup(s.digestCount, a, 0)
  }

  /** No silent arrival is lost or reported twice: those that are in no summary that has gone are
      in one about to go, or in the count. */
  lemma {:induction false} SilentConserved<A(!new)>(start: int, es: seq<Event<A>>, a: A)
    ensures var o := Play(start, es);
      SilentArrivals(es, a) == Summarized(o.sent, a) + InFlight(o.state.outbox, a) + Uncounted(o.state, a)
  {
    if es != [] {
      var before, e := Play(start, es[..|es| - 1]), es[|es| - 1];
      SilentConserved(start, es[..|es| - 1], a);
      StepConserves(before.state, e, a);
      SummarizedStep(before.sent, Step(before.state, e).sent, a);
    }
  }

  function Gone<A(==)>(sent: seq<Sent<A>>, a: A): nat {
    if sent == [] then 0 else Reported(sent[0].push, a)
  }

  ghost predicate Conserves<A(!new)>(s: State<A>, e: Event<A>, a: A) {
    var o := Step(s, e);
    && |o.sent| <= 1
    && Uncounted(s, a) + InFlight(s.outbox, a) + SilentArrival(e, a) ==
         Gone(o.sent, a) + InFlight(o.state.outbox, a) + Uncounted(o.state, a)
  }

  lemma StepConserves<A(!new)>(s: State<A>, e: Event<A>, a: A)
    ensures Conserves(s, e, a)
  {
    match e {
      case Run(job) => RunConserves(s, job, a);
      case Send(p) => SendConserves(s, p, a);
      case _ => OthersConserve(s, e, a);
    }
  }

  lemma OthersConserve<A(!new)>(s: State<A>, e: Event<A>, a: A)
    requires !e.Run? && !e.Send?
    ensures Conserves(s, e, a)
  {
    var o := Step(s, e);
    SameCount(s, e, o, a);
    assert o.state.outbox == s.outbox;
  }

  lemma SameCount<A>(s: State<A>, e: Event<A>, o: Outcome<A>, a: A)
    requires !e.Run? && o == Step(s, e)
    ensures Uncounted(s, a) + SilentArrival(e, a) == Uncounted(o.state, a)
    ensures e.Send? || o.sent == []
  {
  }

  lemma SendConserves<A(!new)>(s: State<A>, p: Push<A>, a: A)
    ensures Conserves(s, Send(p), a)
  {
    var o := Step(s, Send(p));
    SameCount(s, Send(p), o, a);
    if p in s.outbox {
      QueueAdds(o.state.outbox, p, a);
      assert o.state.outbox + multiset{p} == s.outbox;
    }
  }

  lemma RunConserves<A(!new)>(s: State<A>, job: Job<A>, a: A)
    ensures Conserves(s, Run(job), a)
  {
    var o := Step(s, Run(job));
    RunQueues(s, job, o);
    RunCounts(s, job, o, a);
    if o.queued != [] { QueueAdds(s.outbox, o.queued[0], a); }
  }

  lemma RunQueues<A>(s: State<A>, job: Job<A>, o: Outcome<A>)
    requires o == Step(s, Run(job))
    ensures |o.queued| <= 1 && o.sent == []
    ensures o.state.outbox == if o.queued == [] then s.outbox else s.outbox + multiset{o.queued[0]}
  {
  }

  lemma RunCounts<A>(s: State<A>, job: Job<A>, o: Outcome<A>, a: A)
    requires o == Step(s, Run(job))
    ensures Uncounted(s, a) == Uncounted(o.state, a) + if o.queued == [] then 0 else Reported(o.queued[0], a)
  {
  }

  lemma QueueAdds<A(!new)>(outbox: multiset<Push<A>>, p: Push<A>, a: A)
    ensures InFlight(outbox + multiset{p}, a) == InFlight(outbox, a) + Reported(p, a)
  {
    SumAdd(outbox, ReportedTo(a), p);
  }

  lemma SummarizedStep<A>(sent: seq<Sent<A>>, more: seq<Sent<A>>, a: A)
    requires |more| <= 1
    ensures Summarized(sent + more, a) == Summarized(sent, a) + Gone(more, a)
  {
    if more == [] {
      assert sent + more == sent;
    } else {
      assert (sent + more)[..|sent + more| - 1] == sent;
    }
  }

  /** A counted arrival is never stranded: a timer that will report it is armed, or its job
      has started. Summaries in between may find nothing to report and then send nothing. */
  lemma SilentIsScheduled<A(!new)>(start: int, es: seq<Event<A>>, a: A)
    ensures var s := Play(start, es).state;
      Uncounted(s, a) > 0 ==>
        (exists t :: t in s.armed && t < |s.timers| && s.timers[t] == Job(Digest, a)) || Job(Digest, a) in s.firing
  {
    RunSound(start, es);
    assert SoundFor(Play(start, es).state, a);
  }

  /** Each silent arrival moves the summary to the end of the window it fell in: that is when
      the silence ends, except that after midnight in a wrapping window it is a day late. */
  lemma SummaryDueAtClose<A>(s: State<A>, addr: A, from: string, d: DND, min: int)
    requires SoundFor(s, addr) && Storable(d) && 0 <= min < DAY && ActiveAt(d, min)
    ensures var t := Step(s, Arrive(addr, from, Some(d), min, d, min)).state;
      && addr in t.digestTimers && t.digestTimers[addr] in t.armed
      && var wait := t.armed[t.digestTimers[addr]] - s.now;
        && wait > 0 && wait % 60 == 0 && Minute(min, wait / 60) == d.endMin
        && (SilentFor(d, min, wait / 60) <==> (d.startMin < d.endMin || min >= d.startMin))
  {
    WaitMeaning(d, min);
  }

  // ---- which arrivals are silent ----

  /** The arrival at addr falls into a window that is stored, switched on, and running. */
  ghost predicate Silent(first: Option<DND>, min: int) {
    first.Some? && first.value.enabled && exists k :: MinuteOf(first.value, min, k)
  }

  /** A silent arrival is counted, and the senders and flushes stay as they are. */
  lemma SilentArrivalCounted<A>(s: State<A>, e: Event<A>)
    requires e.Arrive? && SoundFor(s, e.addr) && (e.first.Some? ==> Storable(e.first.value)) && 0 <= e.min < 1440
    requires Silent(e.first, e.min)
    ensures var t := Step(s, e).state;
      && Uncounted(t, e.addr) == Uncounted(s, e.addr) + 1 && t.pending == s.pending && t.latestFrom == s.latestFrom
      && e.addr in t.digestTimers && t.digestTimers[e.addr] in t.armed
      && forall b :: b != e.addr ==> Uncounted(t, b) == Uncounted(s, b)
  {
    ActiveMeaning(e.first.value, e.min);
  }

  /** Any other arrival, as when the window is switched off, leaves counts and summary timers as
      they are; its sender is remembered, with a flush under way. */
  lemma OtherArrivalAnnounced<A>(s: State<A>, e: Event<A>)
    requires e.Arrive? && SoundFor(s, e.addr) && (e.first.Some? ==> Storable(e.first.value)) && 0 <= e.min < 1440
    requires !Silent(e.first, e.min)
    ensures var t := Step(s, e).state;
      && t.digestCount == s.digestCount && t.digestTimers == s.digestTimers
      && (forall i :: i in s.armed ==> i in t.armed && t.armed[i] == s.armed[i])
      && t.latestFrom == s.latestFrom[e.addr := e.from] && e.addr in t.pending
      && (e.addr !in s.pending ==> t.pending[e.addr] in t.armed && t.armed[t.pending[e.addr]] == s.now + 60)
      && (t.pending[e.addr] in t.armed || Job(Flush, e.addr) in t.firing)
  {
    if e.first.Some? { ActiveMeaning(e.first.value, e.min); }
  }

  // ---- aggregated pushes ----

  predicate AudibleTo<A(==)>(e: Event<A>, a: A) {
    e.Arrive? && !Quiet(e) && e.addr == a
  }

  predicate AnnouncedTo<A(==)>(p: Push<A>, a: A) {
    p.Aggregated? && p.to == a
  }

  /** The event decides on the push that announces what has come for a. */
  predicate Announces<A(==)>(s: State<A>, e: Event<A>, a: A) {
    Step(s, e).queued != [] && AnnouncedTo(Step(s, e).queued[0], a)
  }

  /** The latest sender to a that no push announces. */
  function Unannounced<A(==)>(start: int, es: seq<Event<A>>, a: A): Option<string> {
    if es == [] then None
    else
      var before, e := es[..|es| - 1], es[|es| - 1];
      if AudibleTo(e, a) then Some(e.from)
      else if Announces(Play(start, before).state, e, a) then None
      else Unannounced(start, before, a)
  }

  lemma {:induction false} SenderRemembered<A(!new)>(start: int, es: seq<Event<A>>, a: A)
    ensures var s := Play(start, es).state;
      if a in s.latestFrom then Unannounced(start, es, a) == Some(s.latestFrom[a])
      else Unannounced(start, es, a) == None
  {
    if es != [] {
      SenderRemembered(start, es[..|es| - 1], a);
      RunSound(start, es[..|es| - 1]);
      SenderStep(Play(start, es[..|es| - 1]).state, es[|es| - 1], a);
    }
  }

  ghost predicate SenderAfter<A>(s: State<A>, e: Event<A>, a: A) {
    var t := Step(s, e).state;
    if AudibleTo(e, a) then a in t.latestFrom && t.latestFrom[a] == e.from
    else if Announces(s, e, a) then a !in t.latestFrom
    else (a in t.latestFrom <==> a in s.latestFrom) && (a in s.latestFrom ==> t.latestFrom[a] == s.latestFrom[a])
  }

  lemma SenderStep<A(!new)>(s: State<A>, e: Event<A>, a: A)
    requires Sound(s)
    ensures SenderAfter(s, e, a)
  {
    match e {
      case Arrive(_, _, _, _, _, _) => SenderArrive(s, e, a);
      case Run(job) => SenderRun(s, job, a);
      case _ =>
    }
  }

  lemma SenderArrive<A>(s: State<A>, e: Event<A>, a: A)
    requires e.Arrive?
    ensures SenderAfter(s, e, a)
  {
  }

  lemma SenderRun<A>(s: State<A>, job: Job<A>, a: A)
    ensures SenderAfter(s, Run(job), a)
  {
  }

  /** What the next job decides to send: an aggregated push names the latest sender not announced
      yet, and a summary reports every silent arrival that no other summary does, gone or about
      to go. */
  lemma PushMeaning<A(!new)>(start: int, es: seq<Event<A>>, e: Event<A>, p: Push<A>)
    requires p in Step(Play(start, es).state, e).queued
    ensures p.at == Play(start, es).state.now
    ensures p.Aggregated? ==> Unannounced(start, es, p.to) == Some(p.from)
    ensures p.Summary? ==> var o := Play(start, es);
      p.n > 0 && p.n == SilentArrivals(es, p.to) - Summarized(o.sent, p.to) - InFlight(o.state.outbox, p.to)
  {
    var s := Play(start, es).state;
    RunSound(start, es);
    assert e.Run? && SoundFor(s, p.to);
    SenderRemembered(start, es, p.to);
    SilentConserved(start, es, p.to);
  }

  /** An unannounced sender always has exactly one flush coming. */
  lemma SenderIsScheduled<A(!new)>(start: int, es: seq<Event<A>>, a: A)
    ensures var s := Play(start, es).state;
      Unannounced(start, es, a).Some? <==>
        (a in s.pending && (s.pending[a] in s.armed <==> s.firing[Job(Flush, a)] == 0))
  {
    RunSound(start, es);
    assert SoundFor(Play(start, es).state, a);
    SenderRemembered(start, es, a);
  }

  /** When the first of the arrivals for a that no push announces came. */
  function BurstStart<A(==)>(start: int, es: seq<Event<A>>, a: A): Option<int> {
    if es == [] then None
    else
      var before, e := es[..|es| - 1], es[|es| - 1];
      var open := BurstStart(start, before, a);
      if AudibleTo(e, a) then (if open.None? then Some(Play(start, before).state.now) else open)
      else if Announces(Play(start, before).state, e, a) then None
      else open
  }

  /** A flush is set for a minute after the first arrival of its burst, wherever in the burst the
      run stands, and does not start earlier. */
  ghost predicate DueAMinuteAfter<A>(s: State<A>, first: Option<int>, a: A) {
    && (a in s.pending <==> first.Some?)
    && (a in s.pending ==>
         if s.pending[a] in s.armed then s.armed[s.pending[a]] == first.value + AGG_WINDOW
         else s.now >= first.value + AGG_WINDOW)
  }

  lemma {:induction false} BurstDeadline<A(!new)>(start: int, es: seq<Event<A>>, a: A)
    ensures DueAMinuteAfter(Play(start, es).state, BurstStart(start, es, a), a)
  {
    if es != [] {
      var before, e := es[..|es| - 1], es[|es| - 1];
      BurstDeadline(start, before, a);
      RunSound(start, before);
      var s := Play(start, before).state;
      assert SoundFor(s, a) && (e.Arrive? ==> SoundFor(s, e.addr));
      BurstStep(s, e, BurstStart(start, before, a), a);
    }
  }

  lemma BurstStep<A>(s: State<A>, e: Event<A>, open: Option<int>, a: A)
    requires SoundFor(s, a) && (e.Arrive? ==> SoundFor(s, e.addr)) && DueAMinuteAfter(s, open, a)
    ensures DueAMinuteAfter(Step(s, e).state,
      if AudibleTo(e, a) then (if open.None? then Some(s.now) else open)
      else if Announces(s, e, a) then None else open, a)
  {
    match e {
      case Arrive(_, _, _, _, _, _) => BurstArrive(s, e, open, a);
      case Due(t) => BurstDue(s, t, open, a);
      case Run(job) => BurstRun(s, job, open, a);
      case _ =>
    }
  }

  lemma BurstArrive<A>(s: State<A>, e: Event<A>, open: Option<int>, a: A)
    requires e.Arrive? && SoundFor(s, a) && SoundFor(s, e.addr) && DueAMinuteAfter(s, open, a)
    ensures DueAMinuteAfter(Step(s, e).state, if AudibleTo(e, a) && open.None? then Some(s.now) else open, a)
  {
  }

  lemma BurstDue<A>(s: State<A>, t: nat, open: Option<int>, a: A)
    requires SoundFor(s, a) && DueAMinuteAfter(s, open, a)
    ensures DueAMinuteAfter(Step(s, Due(t)).state, open, a)
  {
  }

  lemma BurstRun<A>(s: State<A>, job: Job<A>, open: Option<int>, a: A)
    requires SoundFor(s, a) && DueAMinuteAfter(s, open, a)
    ensures DueAMinuteAfter(Step(s, Run(job)).state, if Announces(s, Run(job), a) then None else open, a)
  {
  }

  /** Aggregated pushes to one account are decided on at least a minute apart. */
  lemma AggregatedApart<A(!new)>(start: int, es: seq<Event<A>>, a: A, i: nat, j: nat)
    requires i < j < |Play(start, es).queued|
    requires AnnouncedTo(Play(start, es).queued[i], a) && AnnouncedTo(Play(start, es).queued[j], a)
    ensures Play(start, es).queued[j].at >= Play(start, es).queued[i].at + AGG_WINDOW
  {
    RunSpaced(start, es, a);
  }

  ghost predicate Spaced<A>(pushes: seq<Push<A>>, a: A) {
    forall i, j :: 0 <= i < j < |pushes| && AnnouncedTo(pushes[i], a) && AnnouncedTo(pushes[j], a) ==>
      pushes[j].at >= pushes[i].at + AGG_WINDOW
  }

  /** The flush under way for a will run at least a minute after the push p. */
  ghost predicate Rested<A>(s: State<A>, p: Push<A>, a: A) {
    && p.at <= s.now
    && (a in s.pending ==> (if s.pending[a] in s.armed then s.armed[s.pending[a]] else s.now) >= p.at + AGG_WINDOW)
  }

  lemma {:induction false} RunSpaced<A(!new)>(start: int, es: seq<Event<A>>, a: A)
    ensures Spaced(Play(start, es).queued, a)
    ensures forall p :: p in Play(start, es).queued && AnnouncedTo(p, a) ==> Rested(Play(start, es).state, p, a)
  {
    if es != [] {
      var before, e := Play(start, es[..|es| - 1]), es[|es| - 1];
      RunSpaced(start, es[..|es| - 1], a);
      RunSound(start, es[..|es| - 1]);
      assert SoundFor(before.state, a) && (e.Arrive? ==> SoundFor(before.state, e.addr));
      forall p | p in before.queued && AnnouncedTo(p, a) ensures Rested(Step(before.state, e).state, p, a) {
        StepRested(before.state, e, p, a);
      }
      NewRested(before.state, e, before.queued, a);
    }
  }

  lemma ArriveRested<A>(s: State<A>, e: Event<A>, p: Push<A>, a: A)
    requires e.Arrive? && SoundFor(s, a) && Wired(s, e.addr) && Rested(s, p, a)
    ensures Rested(Step(s, e).state, p, a)
  {
  }

  lemma DueRested<A>(s: State<A>, t: nat, p: Push<A>, a: A)
    requires Rested(s, p, a)
    ensures Rested(Step(s, Due(t)).state, p, a)
  {
  }

  lemma StepRested<A>(s: State<A>, e: Event<A>, p: Push<A>, a: A)
    requires SoundFor(s, a) && (e.Arrive? ==> SoundFor(s, e.addr)) && Rested(s, p, a)
    ensures Rested(Step(s, e).state, p, a)
  {
    match e {
      case Arrive(_, _, _, _, _, _) => ArriveRested(s, e, p, a);
      case Due(t) => DueRested(s, t, p, a);
      case _ =>
    }
  }

  lemma NewRested<A>(s: State<A>, e: Event<A>, pushes: seq<Push<A>>, a: A)
    requires SoundFor(s, a) && Spaced(pushes, a)
    requires forall p :: p in pushes && AnnouncedTo(p, a) ==> Rested(s, p, a)
    ensures Spaced(pushes + Step(s, e).queued, a)
    ensures forall p :: p in Step(s, e).queued && AnnouncedTo(p, a) ==> Rested(Step(s, e).state, p, a)
  {
    var all := pushes + Step(s, e).queued;
    forall i, j | 0 <= i < j < |all| && AnnouncedTo(all[i], a) && AnnouncedTo(all[j], a)
      ensures all[j].at >= all[i].at + AGG_WINDOW
    {
      assert all[i] in pushes;
    }
  }
}
