/** The hourly send, receive and file-operation limiters: one window per key, restarted
    by the first attempt after it has run an hour. */
module FixedWindow {
  import opened Wrappers

  const HOUR: int := 3600

  datatype Window = Window(start: int, used: int)

  /** One attempt against a window that allows limit in all: the window afterwards, and
      whether the attempt is accepted. A refused attempt still restarts a stale window. */
  function Charge(w: Option<Window>, now: int, amount: int, limit: int): (Window, bool) {
    var v := if w == None || now - w.value.start >= HOUR then Window(now, 0) else w.value;
    if v.used + amount > limit then (v, false) else (v.(used := v.used + amount), true)
  }

  function Lookup(m: map<string, Window>, k: string): Option<Window> {
    if k in m then Some(m[k]) else None
  }

  class RateLimits {
    var sendRates: map<string, Window>
    var recvRates: map<string, Window>
    var fileRates: map<string, Window>

    constructor ()
      ensures sendRates == map[] && recvRates == map[] && fileRates == map[]
    {
      sendRates, recvRates, fileRates := map[], map[], map[];
    }

    method CheckSendRate(address: string, limit: int, now: int) returns (ok: bool)
      modifies this`sendRates
      ensures var c := Charge(Lookup(old(sendRates), address), now, 1, limit);
        ok == c.1 && sendRates == old(sendRates)[address := c.0]
    {
      if address !in sendRates || now - sendRates[address].start >= HOUR {
        sendRates := sendRates[address := Window(now, 0)];
      }
      if sendRates[address].used >= limit { return false; }
      sendRates := sendRates[address := sendRates[address].(used := sendRates[address].used + 1)];
      return true;
    }

    method CheckRecvRate(address: string, bodyLen: int, limit: int, now: int) returns (ok: bool)
      modifies this`recvRates
      ensures var c := Charge(Lookup(old(recvRates), address), now, bodyLen, limit);
        ok == c.1 && recvRates == old(recvRates)[address := c.0]
    {
      if address !in recvRates || now - recvRates[address].start >= HOUR {
        recvRates := recvRates[address := Window(now, 0)];
      }
      if recvRates[address].used + bodyLen > limit { return false; }
      recvRates := recvRates[address := recvRates[address].(used := recvRates[address].used + bodyLen)];
      return true;
    }

    method AllowFileOp(account: string, limit: int, now: int) returns (ok: bool)
      modifies this`fileRates
      ensures var c := Charge(Lookup(old(fileRates), account), now, 1, limit);
        ok == c.1 && fileRates == old(fileRates)[account := c.0]
    {
      if account !in fileRates || now - fileRates[account].start >= HOUR {
        fileRates := fileRates[account := Window(now, 0)];
      }
      if fileRates[account].used >= limit { return false; }
      fileRates := fileRates[account := fileRates[account].(used := fileRates[account].used + 1)];
      return true;
    }
  }

  // ---- runs of one key under a fixed limit ----

  datatype Call = Call(now: int, amount: nat)

  /** The window after a run, and the accepted calls. */
  datatype Outcome = Outcome(w: Option<Window>, accepted: seq<Call>)

  ghost function After(o: Outcome, c: Call, limit: int): Outcome {
    var r := Charge(o.w, c.now, c.amount, limit);
    Outcome(Some(r.0), if r.1 then o.accepted + [c] else o.accepted)
  }

  ghost function Run(calls: seq<Call>, limit: int): Outcome {
    if calls == [] then Outcome(None, [])
    else After(Run(calls[..|calls| - 1], limit), calls[|calls| - 1], limit)
  }

  // ---- which calls are accepted ----

  /** The call that opened the window in which call k counts: a window is closed by the first call
      an hour or more after it was opened. */
  ghost function Opener(calls: seq<Call>, k: nat): (o: nat)
    requires k < |calls|
    ensures o <= k
  {
    if k == 0 || calls[k].now - calls[Opener(calls, k - 1)].now >= 3600 then k else Opener(calls, k - 1)
  }

  /** What the calls from o on and before k were granted. */
  ghost function Spent(calls: seq<Call>, limit: int, o: nat, k: nat): int
    requires k <= |calls|
    decreases k, 0
  {
    if k <= o then 0
    else Spent(calls, limit, o, k - 1) + if Accepted(calls, limit, k - 1) then calls[k - 1].amount else 0
  }

  /** A call is accepted exactly if it fits into the limit with what its window was granted. */
  ghost predicate Accepted(calls: seq<Call>, limit: int, k: nat)
    requires k < |calls|
    decreases k, 1
  {
    Spent(calls, limit, Opener(calls, k), k) + calls[k].amount <= limit
  }

  lemma {:induction false} AcceptedExactly(calls: seq<Call>, limit: int, k: nat)
    requires k < |calls|
    ensures Charge(Run(calls[..k], limit).w, calls[k].now, calls[k].amount, limit).1 <==> Accepted(calls, limit, k)
    ensures Run(calls[..k + 1], limit).w ==
      Some(Window(calls[Opener(calls, k)].now, Spent(calls, limit, Opener(calls, k), k + 1)))
    ensures Run(calls[..k + 1], limit).accepted ==
      Run(calls[..k], limit).accepted + if Accepted(calls, limit, k) then [calls[k]] else []
  {
    assert calls[..k + 1][..k] == calls[..k];
    if k > 0 { AcceptedExactly(calls, limit, k - 1); }
  }

  ghost predicate InOrder(calls: seq<Call>) {
    forall i, j :: 0 <= i < j < |calls| ==> calls[i].now <= calls[j].now
  }

  /** The amount accepted in the half-open interval [from, from + HOUR). */
  ghost function Amount(cs: seq<Call>, from: int): nat {
    if cs == [] then 0 else Amount(cs[..|cs| - 1], from) + Counts(cs[|cs| - 1], from)
  }

  ghost function Counts(c: Call, from: int): nat {
    if from <= c.now < from + HOUR then c.amount else 0
  }

  /** What the interval has received: in windows already closed, and in the present one. */
  datatype Split = Split(closed: nat, open: nat)

  ghost function SplitOf(calls: seq<Call>, limit: int, from: int): Split {
    if calls == [] then Split(0, 0) else
      var init, c := calls[..|calls| - 1], calls[|calls| - 1];
      var s, w := SplitOf(init, limit, from), Run(init, limit).w;
      var t := if w == None || c.now - w.value.start >= HOUR then Split(s.closed + s.open, 0) else s;
      if Charge(w, c.now, c.amount, limit).1 then t.(open := t.open + Counts(c, from)) else t
  }

  lemma {:induction false} SplitAddsUp(calls: seq<Call>, limit: int, from: int)
    ensures var s := SplitOf(calls, limit, from); s.closed + s.open == Amount(Run(calls, limit).accepted, from)
  {
    if calls != [] {
      var init := calls[..|calls| - 1];
      SplitAddsUp(init, limit, from);
      var a := Run(init, limit).accepted;
      assert (a + [calls[|calls| - 1]])[..|a|] == a;
    }
  }

  /** What holds along every run of ordered calls, seen from the interval that starts at from. */
  ghost predicate Steady(s: Split, w: Option<Window>, limit: nat, from: int, last: int) {
    if w == None then s == Split(0, 0) else
      && s.open <= w.value.used <= limit && w.value.start <= last
      && (s.open > 0 ==> from <= last)
      && (s.closed > 0 ==> from <= w.value.start)
      && (s.closed <= limit || (w.value.start >= from + HOUR && s.closed <= 2 * limit && s.open == 0))
  }

  lemma {:induction false} StaysSteady(calls: seq<Call>, limit: nat, from: int)
    requires calls != [] && InOrder(calls)
    ensures Steady(SplitOf(calls, limit, from), Run(calls, limit).w, limit, from, calls[|calls| - 1].now)
  {
    var init := calls[..|calls| - 1];
    if init != [] {
      StaysSteady(init, limit, from);
      assert init[|init| - 1].now <= calls[|calls| - 1].now;
    }
  }

  /** The amount accepted since the present window began is what the window has counted, and
      it never exceeds the limit. */
  lemma {:induction false} AtMostPerWindow(calls: seq<Call>, limit: nat)
    requires InOrder(calls) && calls != []
    ensures var o := Run(calls, limit);
      && o.w.Some? && o.w.value.start <= calls[|calls| - 1].now < o.w.value.start + HOUR
      && AcceptedSince(o.accepted, o.w.value.start) == o.w.value.used <= limit
  {
    var init, c := calls[..|calls| - 1], calls[|calls| - 1];
    var before := Run(init, limit);
    if init != [] {
      AtMostPerWindow(init, limit);
      assert init[|init| - 1].now <= c.now;
      assert (before.accepted + [c])[..|before.accepted|] == before.accepted;
    }
    if init == [] || c.now - before.w.value.start >= HOUR {
      forall d | d in init ensures d.now < c.now {
        var i :| 0 <= i < |init| && calls[i] == d;
        assert calls[i].now <= calls[|init| - 1].now;
      }
      AcceptedBefore(init, limit, c.now);
      assert (before.accepted + [c])[..|before.accepted|] == before.accepted;
    }
  }

  /** The amount accepted at or after a time. */
  ghost function AcceptedSince(cs: seq<Call>, from: int): nat {
    if cs == [] then 0
    else AcceptedSince(cs[..|cs| - 1], from) + if cs[|cs| - 1].now >= from then cs[|cs| - 1].amount else 0
  }

  /** A time after all calls of a run has nothing accepted since. */
  lemma {:induction false} AcceptedBefore(calls: seq<Call>, limit: nat, t: int)
    requires forall c :: c in calls ==> c.now < t
    ensures AcceptedSince(Run(calls, limit).accepted, t) == 0
  {
    if calls != [] {
      var init, c := calls[..|calls| - 1], calls[|calls| - 1];
      AcceptedBefore(init, limit, t);
      var a := Run(init, limit).accepted;
      assert c in calls && (a + [c])[..|a|] == a;
    }
  }

  /** Under a fixed limit, any half-open hour sees at most twice the limit. */
  lemma TwiceTheLimit(calls: seq<Call>, limit: nat, from: int)
    requires InOrder(calls)
    ensures Amount(Run(calls, limit).accepted, from) <= 2 * limit
  {
    SplitAddsUp(calls, limit, from);
    if calls != [] { StaysSteady(calls, limit, from); }
  }

  /** The bound is reached: an attempt too large for any window opens one and is refused. */
  lemma TwiceReached(limit: nat)
    ensures var calls := [Call(0, limit + 1), Call(HOUR - 1, limit), Call(HOUR, limit)];
      InOrder(calls) && Amount(Run(calls, limit).accepted, HOUR - 1) == 2 * limit
  {
    var c0, c1, c2 := Call(0, limit + 1), Call(HOUR - 1, limit), Call(HOUR, limit);
    RunSnoc([], c0, limit);
    RunSnoc([c0], c1, limit);
    RunSnoc([c0, c1], c2, limit);
    assert [] + [c0] == [c0] && [c0] + [c1] == [c0, c1] && [c0, c1] + [c2] == [c0, c1, c2] && [c1] + [c2] == [c1, c2];
    assert Run([c0, c1, c2], limit).accepted == [c1, c2];
    AmountSnoc([], c1, HOUR - 1);
    AmountSnoc([c1], c2, HOUR - 1);
  }

  lemma RunSnoc(calls: seq<Call>, c: Call, limit: int)
    ensures Run(calls + [c], limit) == After(Run(calls, limit), c, limit)
  {
    assert (calls + [c])[..|calls|] == calls;
  }

  // ---- limiters that count calls ----

  ghost predicate AllUnits(calls: seq<Call>) {
    forall c :: c in calls ==> c.amount == 1
  }

  /** Every call costs one, so the call that opens a window is accepted and lies at its start. */
  ghost predicate SteadyUnits(s: Split, w: Option<Window>, limit: nat, from: int, last: int) {
    if w == None then s == Split(0, 0) else
      && s.open <= w.value.used <= limit && w.value.start <= last && w.value.used >= 1
      && (w.value.start < from ==> s.open < w.value.used)
      && (s.open > 0 ==> from <= last)
      && (s.closed > 0 ==> from <= w.value.start)
      && (s.closed < limit || (w.value.start >= from + HOUR && s.closed < 2 * limit && s.open == 0))
  }

  lemma {:induction false} StaysSteadyUnits(calls: seq<Call>, limit: nat, from: int)
    requires calls != [] && InOrder(calls) && limit >= 1 && AllUnits(calls)
    ensures SteadyUnits(SplitOf(calls, limit, from), Run(calls, limit).w, limit, from, calls[|calls| - 1].now)
  {
    var init, c := calls[..|calls| - 1], calls[|calls| - 1];
    assert c in calls;
    if init != [] {
      StaysSteadyUnits(init, limit, from);
      assert init[|init| - 1].now <= c.now;
    }
  }

  /** Counting calls, any half-open hour sees at most 2 * limit - 1: were the opening call
      of the first window inside, the second window would begin outside. */
  lemma OneLessThanTwice(calls: seq<Call>, limit: nat, from: int)
    requires InOrder(calls) && AllUnits(calls)
    ensures Amount(Run(calls, limit).accepted, from) <= if limit == 0 then 0 else 2 * limit - 1
  {
    if limit == 0 { TwiceTheLimit(calls, limit, from); }
    else {
      SplitAddsUp(calls, limit, from);
      if calls != [] { StaysSteadyUnits(calls, limit, from); }
    }
  }

  ghost function Repeat(now: int, n: nat): (cs: seq<Call>)
    ensures |cs| == n && forall c :: c in cs ==> c == Call(now, 1)
  {
    if n == 0 then [] else Repeat(now, n - 1) + [Call(now, 1)]
  }

  /** That bound is reached too, for every limit. */
  lemma OneLessReached(limit: nat)
    requires limit >= 1
    ensures var calls := [Call(0, 1)] + Repeat(HOUR - 1, limit - 1) + Repeat(HOUR, limit);
      InOrder(calls) && AllUnits(calls) && Amount(Run(calls, limit).accepted, HOUR - 1) == 2 * limit - 1
  {
    var first := [Call(0, 1)];
    var second := first + Repeat(HOUR - 1, limit - 1);
    RunSnoc([], Call(0, 1), limit);
    assert [] + first == first;
    Burst(first, HOUR - 1, limit - 1, limit);
    FreshBurst(second, HOUR, limit, limit);
    AmountSnoc([], Call(0, 1), HOUR - 1);
    AmountRepeat(first, HOUR - 1, limit - 1, HOUR - 1);
    AmountRepeat(second, HOUR, limit, HOUR - 1);
    ThreeBursts(limit - 1, limit);
  }

  lemma ThreeBursts(m: nat, n: nat)
    ensures var calls := [Call(0, 1)] + Repeat(HOUR - 1, m) + Repeat(HOUR, n); InOrder(calls) && AllUnits(calls)
  {
    var a, b := Repeat(HOUR - 1, m), Repeat(HOUR, n);
    var calls := [Call(0, 1)] + a + b;
    forall i | 0 <= i < |calls|
      ensures calls[i] == if i == 0 then Call(0, 1) else if i <= m then Call(HOUR - 1, 1) else Call(HOUR, 1)
    {
      if 1 <= i <= m { assert calls[i] == a[i - 1] && a[i - 1] in a; }
      if m < i { assert calls[i] == b[i - 1 - m] && b[i - 1 - m] in b; }
    }
  }

  /** The first call of a burst restarts a stale window; the others join it. */
  lemma {:induction false} FreshBurst(calls: seq<Call>, now: int, n: nat, limit: nat)
    requires var w := Run(calls, limit).w; w.Some? && now - w.value.start >= HOUR && 1 <= n <= limit
    ensures var o, r := Run(calls, limit), Run(calls + Repeat(now, n), limit);
      r.w == Some(Window(now, n)) && r.accepted == o.accepted + Repeat(now, n)
  {
    AddToBurst(calls, now, n, limit);
    ConcatSnoc(Run(calls, limit).accepted, Repeat(now, n - 1), Call(now, 1));
    if n == 1 {
      NoBurst(calls, now);
      NoBurst(Run(calls, limit).accepted, now);
    } else {
      FreshBurst(calls, now, n - 1, limit);
    }
  }

  lemma NoBurst(cs: seq<Call>, now: int)
    ensures cs + Repeat(now, 0) == cs
  {
  }

  lemma AddToBurst(calls: seq<Call>, now: int, n: nat, limit: nat)
    requires n >= 1
    ensures calls + Repeat(now, n) == (calls + Repeat(now, n - 1)) + [Call(now, 1)]
    ensures Run(calls + Repeat(now, n), limit) == After(Run(calls + Repeat(now, n - 1), limit), Call(now, 1), limit)
  {
    RunSnoc(calls + Repeat(now, n - 1), Call(now, 1), limit);
    ConcatSnoc(calls, Repeat(now, n - 1), Call(now, 1));
  }

  lemma ConcatSnoc<T>(a: seq<T>, b: seq<T>, x: T)
    ensures a + (b + [x]) == (a + b) + [x]
  {
  }

  lemma {:induction false} AmountRepeat(cs: seq<Call>, now: int, n: nat, from: int)
    ensures Amount(cs + Repeat(now, n), from) == Amount(cs, from) + if from <= now < from + HOUR then n else 0
  {
    if n == 0 {
      assert cs + Repeat(now, 0) == cs;
    } else {
      AmountRepeat(cs, now, n - 1, from);
      AmountSnoc(cs + Repeat(now, n - 1), Call(now, 1), from);
      ConcatSnoc(cs, Repeat(now, n - 1), Call(now, 1));
    }
  }

  lemma AmountSnoc(cs: seq<Call>, c: Call, from: int)
    ensures Amount(cs + [c], from) == Amount(cs, from) + Counts(c, from)
  {
    assert (cs + [c])[..|cs|] == cs;
  }

  /** n more calls within the window are all accepted while there is room. */
  lemma {:induction false} Burst(calls: seq<Call>, now: int, n: nat, limit: nat)
    requires var w := Run(calls, limit).w; w.Some? && now - w.value.start < HOUR && w.value.used + n <= limit
    ensures var o, r := Run(calls, limit), Run(calls + Repeat(now, n), limit);
      r.w == Some(o.w.value.(used := o.w.value.used + n)) && r.accepted == o.accepted + Repeat(now, n)
  {
    var o := Run(calls, limit);
    if n == 0 {
      assert calls + Repeat(now, 0) == calls && o.accepted + Repeat(now, 0) == o.accepted;
    } else {
      Burst(calls, now, n - 1, limit);
      AddToBurst(calls, now, n, limit);
      ConcatSnoc(o.accepted, Repeat(now, n - 1), Call(now, 1));
    }
  }
}
