/** Push delivery: per-account aggregation and quiet-hours summaries, driven by timers. */
module PushDelivery {
  import opened Wrappers
  import opened QuietHours

  const AGG_WINDOW: int := 60

  // ---- the state: four maps under the mutex, the timers of the runtime, and the pushes
  // ---- that a job has decided on under the mutex and sends after it is released

  datatype Kind = Flush | Digest

  /** What a timer runs when it expires. */
  datatype Job<A> = Job(kind: Kind, addr: A)

  /** Timer number i runs timers[i]. An armed timer has a deadline; the jobs of expired timers
      wait in firing until they get the mutex. Times are in seconds. */
  datatype State<A(==)> = State(
    pending: map<A, nat>, latestFrom: map<A, string>, digestCount: map<A, nat>, digestTimers: map<A, nat>,
    timers: seq<Job<A>>, armed: map<nat, int>, firing: multiset<Job<A>>, outbox: multiset<Push<A>>, now: int)

  /** at is when the job held the mutex. */
  datatype Push<A> = Aggregated(to: A, at: int, from: string) | Summary(to: A, at: int, n: nat)

  /** time is when it goes to the subscriptions. */
  datatype Sent<A> = Sent(push: Push<A>, time: int)

  function Initial<A>(now: int): State<A> {
    State(map[], map[], map[], map[], [], map[], multiset{}, multiset{}, now)
  }

  function Lookup<A, V>(m: map<A, V>, a: A, default: V): V {
    if a in m then m[a] else default
  }

  // ---- what each critical section does to the state ----

  function Armed<A>(s: State<A>, job: Job<A>, wait: int): State<A> {
    s.(timers := s.timers + [job], armed := s.armed[|s.timers| := s.now + wait])
  }

  function Audible<A>(s: State<A>, addr: A, from: string): State<A> {
    var t := if addr in s.pending then s
             else Armed(s, Job(Flush, addr), AGG_WINDOW).(pending := s.pending[addr := |s.timers|]);
    t.(latestFrom := t.latestFrom[addr := from])
  }

  function Silenced<A>(s: State<A>, addr: A, wait: int): State<A> {
    var t := s.(digestCount := s.digestCount[addr := Lookup(s.digestCount, addr, 0) + 1]);
    if addr in s.digestTimers
    then t.(armed := t.armed[s.digestTimers[addr] := s.now + wait])
    else Armed(t, Job(Digest, addr), wait).(digestTimers := s.digestTimers[addr := |s.timers|])
  }

  function Queue<A>(s: State<A>, p: Push<A>): State<A> {
    s.(outbox := s.outbox + multiset{p})
  }

  function FlushedPush<A>(s: State<A>, addr: A): Push<A> {
    Aggregated(addr, s.now, Lookup(s.latestFrom, addr, ""))
  }

  function Flushed<A>(s: State<A>, addr: A): State<A> {
    Queue(s, FlushedPush(s, addr)).(pending := s.pending - {addr}, latestFrom := s.latestFrom - {addr})
  }

  function DigestedPush<A>(s: State<A>, addr: A): Option<Push<A>> {
    var n := Lookup(s.digestCount, addr, 0);
    if n > 0 then Some(Summary(addr, s.now, n)) else None
  }

  function Digested<A>(s: State<A>, addr: A): State<A> {
    var t := s.(digestCount := s.digestCount - {addr}, digestTimers := s.digestTimers - {addr});
    var push := DigestedPush(s, addr);
    if push.Some? then Queue(t, push.value) else t
  }

  // ---- the implementation ----

  class Delivery<A(==)> {
    var pending: map<A, nat>
    var latestFrom: map<A, string>
    var digestCount: map<A, nat>
    var digestTimers: map<A, nat>
    var timers: seq<Job<A>>
    var armed: map<nat, int>
    var firing: multiset<Job<A>>
    var outbox: multiset<Push<A>>
    var now: int

    function View(): State<A>
      reads this
    {
      State(pending, latestFrom, digestCount, digestTimers, timers, armed, firing, outbox, now)
    }

    constructor (start: int)
      ensures View() == Initial(start)
    {
      pending, latestFrom, digestCount, digestTimers := map[], map[], map[], map[];
      timers, armed, firing, outbox, now := [], map[], multiset{}, multiset{}, start;
    }

    /** time.AfterFunc. */
    method AfterFunc(job: Job<A>, wait: int) returns (timer: nat)
      modifies this`timers, this`armed
      ensures timer == old(|timers|) && View() == Armed(old(View()), job, wait)
    {
      timer := |timers|;
      timers := timers + [job];
      armed := armed[timer := now + wait];
    }

    /** first is the window read before taking the mutex, if that read succeeded; again is
        the one EnqueueDigest reads. */
    method NotifyRecipient(addr: A, from: string, first: Option<DND>, min: int, again: DND, minAgain: int)
      modifies this
      ensures View() == Step(old(View()), Arrive(addr, from, first, min, again, minAgain)).state
    {
      if first.None? || !ActiveAt(first.value, min) {
        AggregateOrPush(addr, from);
      } else {
        EnqueueDigest(addr, again, minAgain);
      }
    }

    method AggregateOrPush(addr: A, from: string)
      modifies this
      ensures View() == Audible(old(View()), addr, from)
    {
      if addr !in pending {
        var t := AfterFunc(Job(Flush, addr), AGG_WINDOW);
        pending := pending[addr := t];
      }
      latestFrom := latestFrom[addr := from];
    }

    /** The part under the mutex; push is what it will send. */
    method FlushAggregated(addr: A) returns (push: Push<A>)
      modifies this
      ensures View() == Flushed(old(View()), addr)
      ensures push == FlushedPush(old(View()), addr)
    {
      pending := pending - {addr};
      var from := if addr in latestFrom then latestFrom[addr] else "";
      latestFrom := latestFrom - {addr};
      push := Aggregated(addr, now, from);
      outbox := outbox + multiset{push};
    }

    method EnqueueDigest(addr: A, dnd: DND, minOfDay: int)
      modifies this
      ensures View() == Silenced(old(View()), addr, 60 * DigestWait(dnd, minOfDay))
    {
      digestCount := digestCount[addr := (if addr in digestCount then digestCount[addr] else 0) + 1];
      var wait := if dnd.startMin < dnd.endMin then (dnd.endMin - minOfDay) * 60
                  else (24 * 60 + dnd.endMin - minOfDay) * 60;
      if addr in digestTimers {
        armed := armed[digestTimers[addr] := now + wait];
      } else {
        var t := AfterFunc(Job(Digest, addr), wait);
        digestTimers := digestTimers[addr := t];
      }
    }

    method FlushDigest(addr: A) returns (push: Option<Push<A>>)
      modifies this
      ensures View() == Digested(old(View()), addr)
      ensures push == DigestedPush(old(View()), addr)
    {
      var n := if addr in digestCount then digestCount[addr] else 0;
      digestCount := digestCount - {addr};
      digestTimers := digestTimers - {addr};
      if n <= 0 { return None; }
      push := Some(Summary(addr, now, n));
      outbox := outbox + multiset{push.value};
    }

    /** The mutex is released by now, so any number of jobs may run in between. */
    method SendToSubs(p: Push<A>) returns (sent: seq<Sent<A>>)
      modifies this`outbox
      ensures Outcome(View(), [], sent) == Step(old(View()), Send(p))
    {
      if p !in outbox { return []; }
      outbox := outbox[p := outbox[p] - 1];
      sent := [Sent(p, now)];
    }

    /** Time passes. */
    method Advance(seconds: nat)
      modifies this
      ensures View() == Step(old(View()), Tick(seconds)).state
    {
      now := now + seconds;
    }

    /** An armed timer that is due starts its job, which then competes for the mutex. */
    method Expire(timer: nat)
      modifies this
      ensures View() == Step(old(View()), Due(timer)).state
    {
      if timer in armed && armed[timer] <= now && timer < |timers| {
        armed := armed - {timer};
        firing := firing[timers[timer] := firing[timers[timer]] + 1];
      }
    }

    /** A started job gets the mutex. */
    method Fire(job: Job<A>) returns (queued: seq<Push<A>>)
      modifies this
      ensures Outcome(View(), queued, []) == Step(old(View()), Run(job))
    {
      if job !in firing { return []; }
      firing := firing[job := firing[job] - 1];
      if job.kind.Flush? {
        var push := FlushAggregated(job.addr);
        queued := [push];
      } else {
        var push := FlushDigest(job.addr);
        queued := if push.Some? then [push.value] else [];
      }
    }
  }

  // ---- runs: any interleaving of arrivals, expiries, jobs and sends ----

  datatype Event<A> =
    | Arrive(addr: A, from: string, first: Option<DND>, min: int, again: DND, minAgain: int)
    | Tick(seconds: nat)
    | Due(timer: nat)
    | Run(job: Job<A>)
    | Send(p: Push<A>)

  /** The state, the pushes that jobs have decided on, in that order, and those that have gone. */
  datatype Outcome<A(==)> = Outcome(state: State<A>, queued: seq<Push<A>>, sent: seq<Sent<A>>)

  predicate Quiet<A>(e: Event<A>) {
    e.Arrive? && e.first.Some? && ActiveAt(e.first.value, e.min)
  }

  /** An event that is not enabled changes nothing. */
  function Step<A>(s: State<A>, e: Event<A>): Outcome<A> {
    match e
    case Arrive(addr, from, first, min, again, minAgain) =>
      if Quiet(e) then Outcome(Silenced(s, addr, 60 * DigestWait(again, minAgain)), [], [])
      else Outcome(Audible(s, addr, from), [], [])
    case Tick(n) => Outcome(s.(now := s.now + n), [], [])
    case Due(t) =>
      if t in s.armed && s.armed[t] <= s.now && t < |s.timers|
      then Outcome(s.(armed := s.armed - {t}, firing := s.firing[s.timers[t] := s.firing[s.timers[t]] + 1]), [], [])
      else Outcome(s, [], [])
    case Run(job) =>
      if job !in s.firing then Outcome(s, [], [])
      else
        var t := s.(firing := s.firing[job := s.firing[job] - 1]);
        if job.kind.Flush? then Outcome(Flushed(t, job.addr), [FlushedPush(t, job.addr)], [])
        else
          var push := DigestedPush(t, job.addr);
          Outcome(Digested(t, job.addr), if push.Some? then [push.value] else [], [])
    case Send(p) =>
      if p !in s.outbox then Outcome(s, [], [])
      else Outcome(s.(outbox := s.outbox[p := s.outbox[p] - 1]), [], [Sent(p, s.now)])
  }

  function After<A>(o: Outcome<A>, e: Event<A>): Outcome<A> {
    var step := Step(o.state, e);
    Outcome(step.state, o.queued + step.queued, o.sent + step.sent)
  }

  function Play<A>(start: int, es: seq<Event<A>>): Outcome<A> {
    if es == [] then Outcome(Initial(start), [], []) else After(Play(start, es[..|es| - 1]), es[|es| - 1])
  }

  // ---- what every step keeps ----

  /** Every timer on record runs the job it is recorded for. */
  ghost predicate Wired<A>(s: State<A>, a: A) {
    && (forall t :: t in s.armed ==> t < |s.timers|)
    && (a in s.pending ==> s.pending[a] < |s.timers| && s.timers[s.pending[a]] == Job(Flush, a))
    && (a in s.digestTimers ==> s.digestTimers[a] < |s.timers| && s.timers[s.digestTimers[a]] == Job(Digest, a))
  }

  /** A sender is remembered exactly while one flush is under way, armed or started. */
  ghost predicate FlushUnderWay<A>(s: State<A>, a: A) {
    && (a in s.pending <==> a in s.latestFrom)
    && (forall t :: t in s.armed && t < |s.timers| && s.timers[t] == Job(Flush, a) ==>
          a in s.pending && t == s.pending[a])
    && s.firing[Job(Flush, a)] == if a in s.pending && s.pending[a] !in s.armed then 1 else 0
  }

  /** Counted arrivals have a summary timer armed or a summary job started. */
  ghost predicate SummaryUnderWay<A>(s: State<A>, a: A) {
    && (a in s.digestTimers <==> a in s.digestCount)
    && (a in s.digestCount ==> s.digestCount[a] > 0)
    && (a in s.digestTimers ==> s.digestTimers[a] in s.armed || s.firing[Job(Digest, a)] > 0)
  }

  ghost predicate Sound<A(!new)>(s: State<A>) {
    forall a {:trigger SoundFor(s, a)} :: SoundFor(s, a)
  }

  ghost predicate SoundFor<A>(s: State<A>, a: A) {
    Wired(s, a) && FlushUnderWay(s, a) && SummaryUnderWay(s, a)
  }

  /** From s to t, nothing of account a has moved. */
  ghost predicate Undisturbed<A>(s: State<A>, t: State<A>, a: A) {
    && (a in t.pending <==> a in s.pending) && (a in s.pending ==> t.pending[a] == s.pending[a])
    && (a in t.latestFrom <==> a in s.latestFrom) && (a in s.latestFrom ==> t.latestFrom[a] == s.latestFrom[a])
    && (a in t.digestCount <==> a in s.digestCount) && (a in s.digestCount ==> t.digestCount[a] == s.digestCount[a])
    && (a in t.digestTimers <==> a in s.digestTimers)
    && (a in s.digestTimers ==> t.digestTimers[a] == s.digestTimers[a])
    && TimersKept(s, t, a)
    && t.firing[Job(Flush, a)] == s.firing[Job(Flush, a)] && t.firing[Job(Digest, a)] == s.firing[Job(Digest, a)]
  }

  ghost predicate TimersKept<A>(s: State<A>, t: State<A>, a: A) {
    && s.timers <= t.timers
    && (forall i :: |s.timers| <= i < |t.timers| ==> t.timers[i].addr != a)
    && (forall i :: i in t.armed ==> i < |t.timers|)
    && (forall i :: 0 <= i < |s.timers| && s.timers[i].addr == a ==> (i in t.armed <==> i in s.armed))
    && (forall i :: 0 <= i < |s.timers| && s.timers[i].addr == a && i in s.armed ==> t.armed[i] == s.armed[i])
  }

  lemma UndisturbedSound<A>(s: State<A>, t: State<A>, a: A)
    requires SoundFor(s, a) && Undisturbed(s, t, a)
    ensures SoundFor(t, a)
  {
  }

  lemma AudibleElsewhere<A>(s: State<A>, b: A, from: string, a: A)
    requires (forall t :: t in s.armed ==> t < |s.timers|) && b != a
    ensures Undisturbed(s, Audible(s, b, from), a)
  {
  }

  lemma SilencedElsewhere<A>(s: State<A>, b: A, wait: int, a: A)
    requires Wired(s, b) && b != a
    ensures Undisturbed(s, Silenced(s, b, wait), a)
  {
  }

  lemma FlushedElsewhere<A>(s: State<A>, b: A, a: A)
    requires (forall t :: t in s.armed ==> t < |s.timers|) && b != a
    ensures Undisturbed(s, Flushed(s, b), a)
  {
  }

  lemma DigestedElsewhere<A>(s: State<A>, b: A, a: A)
    requires (forall t :: t in s.armed ==> t < |s.timers|) && b != a
    ensures Undisturbed(s, Digested(s, b), a)
  {
  }

  lemma RunElsewhere<A>(s: State<A>, job: Job<A>, a: A)
    requires SoundFor(s, a) && job in s.firing && job.addr != a
    ensures SoundFor(Step(s, Run(job)).state, a)
  {
    var t := s.(firing := s.firing[job := s.firing[job] - 1]);
    UndisturbedSound(s, t, a);
    if job.kind.Flush? {
      FlushedElsewhere(t, job.addr, a);
      UndisturbedSound(t, Flushed(t, job.addr), a);
    } else {
      DigestedElsewhere(t, job.addr, a);
      UndisturbedSound(t, Digested(t, job.addr), a);
    }
  }

  lemma AudibleSound<A>(s: State<A>, from: string, a: A)
    requires SoundFor(s, a)
    ensures SoundFor(Audible(s, a, from), a)
  {
  }

  lemma SilencedSound<A>(s: State<A>, wait: int, a: A)
    requires SoundFor(s, a)
    ensures SoundFor(Silenced(s, a, wait), a)
  {
  }

  lemma DueSound<A>(s: State<A>, t: nat, a: A)
    requires SoundFor(s, a)
    ensures SoundFor(Step(s, Due(t)).state, a)
  {
  }

  lemma FlushSound<A>(s: State<A>, a: A)
    requires SoundFor(s, a)
    ensures SoundFor(Step(s, Run(Job(Flush, a))).state, a)
  {
  }

  lemma DigestSound<A>(s: State<A>, a: A)
    requires SoundFor(s, a)
    ensures SoundFor(Step(s, Run(Job(Digest, a))).state, a)
  {
  }

  lemma ArriveSound<A>(s: State<A>, e: Event<A>, a: A)
    requires e.Arrive? && SoundFor(s, a) && SoundFor(s, e.addr)
    ensures SoundFor(Step(s, e).state, a)
  {
    var wait := 60 * DigestWait(e.again, e.minAgain);
    if e.addr == a {
      if Quiet(e) { SilencedSound(s, wait, a); } else { AudibleSound(s, e.from, a); }
    } else {
      if Quiet(e) { SilencedElsewhere(s, e.addr, wait, a); } else { AudibleElsewhere(s, e.addr, e.from, a); }
      UndisturbedSound(s, Step(s, e).state, a);
    }
  }

  lemma RunJobSound<A>(s: State<A>, job: Job<A>, a: A)
    requires SoundFor(s, a)
    ensures SoundFor(Step(s, Run(job)).state, a)
  {
    if job !in s.firing {
    } else if job.addr != a {
      RunElsewhere(s, job, a);
    } else if job.kind.Flush? {
      FlushSound(s, a);
    } else {
      DigestSound(s, a);
    }
  }

  lemma StepSound<A(!new)>(s: State<A>, e: Event<A>)
    requires Sound(s)
    ensures Sound(Step(s, e).state)
  {
    forall a ensures SoundFor(Step(s, e).state, a) {
      assert SoundFor(s, a);
      match e {
        case Arrive(b, _, _, _, _, _) => assert SoundFor(s, b); ArriveSound(s, e, a);
        case Tick(_) =>
        case Due(t) => DueSound(s, t, a);
        case Run(job) => RunJobSound(s, job, a);
        case Send(_) =>
      }
    }
  }

  lemma {:induction false} RunSound<A(!new)>(start: int, es: seq<Event<A>>)
    ensures Sound(Play(start, es).state)
  {
    if es == [] {
      forall a ensures SoundFor(Initial<A>(start), a) { }
    } else {
      RunSound(start, es[..|es| - 1]);
      StepSound(Play(start, es[..|es| - 1]).state, es[|es| - 1]);
    }
  }
}
