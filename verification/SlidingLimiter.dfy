/** The sliding-log limiter for registrations. */
module SlidingLimiter {

  /** The times later than cutoff. */
  function After(ts: seq<int>, cutoff: int): (r: seq<int>)
    ensures forall t :: t in r <==> t in ts && t > cutoff
  {
    if ts == [] then [] else
      var init, last := ts[..|ts| - 1], ts[|ts| - 1];
      assert ts == init + [last];
      After(init, cutoff) + if last > cutoff then [last] else []
  }

  function Times<K>(m: map<K, seq<int>>, k: K): seq<int> {
    if k in m then m[k] else []
  }

  // ---- the reference: a limiter that never forgets ----

  /** Fewer than limit accepted times in the window that ends now. A limit of 0 or less
      switches the limiter off. */
  ghost predicate Accepts<K(!new)>(log: map<K, seq<int>>, window: int, ip: K, limit: int, now: int) {
    limit <= 0 || |After(Times(log, ip), now - window)| < limit
  }

  /** The history after an attempt; a disabled limiter records nothing. */
  ghost function Recorded<K(!new)>(log: map<K, seq<int>>, window: int, ip: K, limit: int, now: int): map<K, seq<int>> {
    if limit > 0 && Accepts(log, window, ip, limit, now) then log[ip := Times(log, ip) + [now]] else log
  }

  /** hits remembers all of the history that lies after cutoff. */
  ghost predicate Remembers<K(!new)>(hits: map<K, seq<int>>, log: map<K, seq<int>>, cutoff: int) {
    forall k {:trigger Recalls(hits, log, cutoff, k)} :: Recalls(hits, log, cutoff, k)
  }

  ghost predicate Recalls<K(!new)>(hits: map<K, seq<int>>, log: map<K, seq<int>>, cutoff: int, k: K) {
    After(Times(hits, k), cutoff) == After(Times(log, k), cutoff)
  }

  // ---- the implementation ----

  class RegLimiter<K(==,!new)> {
    var hits: map<K, seq<int>>
    const window: int
    ghost var log: map<K, seq<int>>
    ghost var clock: int

    ghost predicate Valid()
      reads this
    {
      Remembers(hits, log, clock - window)
    }

    constructor (w: int, ghost start: int)
      ensures Valid() && log == map[] && clock == start && window == w
    {
      hits, window := map[], w;
      log, clock := map[], start;
    }

    /** Decides exactly like the limiter that keeps the whole history, although it drops
        old times and, past 4096 addresses, whole entries. */
    method Allow(ip: K, limit: int, now: int) returns (ok: bool)
      requires Valid() && clock <= now
      modifies this
      ensures Valid() && clock == now
      ensures ok == Accepts(old(log), window, ip, limit, now)
      ensures log == Recorded(old(log), window, ip, limit, now)
    {
      var cutoff := now - window;
      LaterCutoff(hits, log, clock - window, cutoff);
      clock := now;
      if limit <= 0 { return true; }
      assert Recalls(hits, log, cutoff, ip);
      var kept := Keep(Times(hits, ip), cutoff);
      if |kept| >= limit {
        Replaced(hits, log, cutoff, ip, kept);
        hits := hits[ip := kept];
        return false;
      }
      Enter(ip, kept, now);
      return true;
    }

    /** Stores the accepted time, and sweeps all entries once there are more than 4096. */
    method Enter(ip: K, kept: seq<int>, now: int)
      requires Valid() && clock == now && kept == After(Times(hits, ip), now - window)
      modifies this`hits, this`log
      ensures Valid() && log == old(log)[ip := Times(old(log), ip) + [now]]
    {
      Appended(hits, log, now - window, ip, kept, now);
      hits := hits[ip := kept + [now]];
      log := log[ip := Times(log, ip) + [now]];
      if |hits| > 4096 { Cleanup(now - window); }
    }

    /** Drops expired times and empty entries, in any order. */
    method Cleanup(cutoff: int)
      requires Remembers(hits, log, cutoff)
      modifies this`hits
      ensures Remembers(hits, log, cutoff)
    {
      var todo := hits.Keys;
      while todo != {}
        invariant todo <= hits.Keys && Remembers(hits, log, cutoff)
        decreases todo
      {
        var k :| k in todo;
        todo := todo - {k};
        var kk := Keep(hits[k], cutoff);
        Replaced(hits, log, cutoff, k, kk);
        if |kk| == 0 {
          Removed(hits, log, cutoff, k);
          hits := hits - {k};
        } else {
          hits := hits[k := kk];
        }
      }
    }
  }

  method Keep(ts: seq<int>, cutoff: int) returns (kept: seq<int>)
    ensures kept == After(ts, cutoff)
  {
    kept := [];
    for i := 0 to |ts|
      invariant kept == After(ts[..i], cutoff)
    {
      assert ts[..i + 1][..i] == ts[..i];
      if ts[i] > cutoff { kept := kept + [ts[i]]; }
    }
    assert ts[..|ts|] == ts;
  }

  // ---- filtering ----

  lemma {:induction false} AfterAfter(ts: seq<int>, c: int, d: int)
    requires c <= d
    ensures After(After(ts, c), d) == After(ts, d)
  {
    if ts != [] {
      var init, last := ts[..|ts| - 1], ts[|ts| - 1];
      AfterAfter(init, c, d);
      if last > c {
        AfterConcat(After(init, c), [last], d);
        assert [last][..0] == [];
      } else {
        assert After(ts, c) == After(init, c) && After(ts, d) == After(init, d);
      }
    }
  }

  lemma {:induction false} AfterConcat(a: seq<int>, b: seq<int>, c: int)
    ensures After(a + b, c) == After(a, c) + After(b, c)
  {
    if b == [] {
      assert a + b == a;
    } else {
      assert (a + b)[..|a + b| - 1] == a + b[..|b| - 1];
      AfterConcat(a, b[..|b| - 1], c);
    }
  }

  lemma LaterCutoff<K(!new)>(hits: map<K, seq<int>>, log: map<K, seq<int>>, c: int, d: int)
    requires Remembers(hits, log, c) && c <= d
    ensures Remembers(hits, log, d)
  {
    forall k ensures Recalls(hits, log, d, k) {
      assert Recalls(hits, log, c, k);
      AfterAfter(Times(hits, k), c, d);
      AfterAfter(Times(log, k), c, d);
    }
  }

  lemma Replaced<K(!new)>(hits: map<K, seq<int>>, log: map<K, seq<int>>, c: int, ip: K, kept: seq<int>)
    requires Remembers(hits, log, c) && kept == After(Times(hits, ip), c)
    ensures Remembers(hits[ip := kept], log, c)
  {
    var h := hits[ip := kept];
    forall k ensures Recalls(h, log, c, k) {
      assert Recalls(hits, log, c, k);
      AfterAfter(Times(hits, k), c, c);
    }
  }

  lemma Removed<K(!new)>(hits: map<K, seq<int>>, log: map<K, seq<int>>, c: int, k: K)
    requires Remembers(hits, log, c) && After(Times(hits, k), c) == []
    ensures Remembers(hits - {k}, log, c)
  {
    forall j ensures Recalls(hits - {k}, log, c, j) { assert Recalls(hits, log, c, j); }
  }

  lemma Appended<K(!new)>(hits: map<K, seq<int>>, log: map<K, seq<int>>, c: int, ip: K, kept: seq<int>, now: int)
    requires Remembers(hits, log, c) && kept == After(Times(hits, ip), c)
    ensures Remembers(hits[ip := kept + [now]], log[ip := Times(log, ip) + [now]], c)
  {
    var h, l := hits[ip := kept + [now]], log[ip := Times(log, ip) + [now]];
    forall k ensures Recalls(h, l, c, k) {
      assert Recalls(hits, log, c, k);
      AfterAfter(Times(hits, k), c, c);
      AfterConcat(kept, [now], c);
      AfterConcat(Times(log, ip), [now], c);
    }
  }

  // ---- the bound over whole runs ----

  datatype Attempt<K> = Attempt(ip: K, now: int)

  /** The accepted times after all attempts of a run. */
  ghost function History<K(!new)>(run: seq<Attempt<K>>, window: int, limit: int): map<K, seq<int>> {
    if run == [] then map[] else
      var a := run[|run| - 1];
      Recorded(History(run[..|run| - 1], window, limit), window, a.ip, limit, a.now)
  }

  // ---- which attempts are accepted ----

  /** With a positive limit an attempt is accepted exactly if fewer than limit attempts of the same
      address were accepted in the window before it. */
  ghost predicate Accepted<K(!new)>(run: seq<Attempt<K>>, window: int, limit: int, k: nat)
    requires k < |run|
    decreases k, 1
  {
    |AcceptedSince(run, window, limit, run[k].ip, run[k].now - window, k)| < limit
  }

  /** The attempts before the n-th that were accepted for ip after a time. */
  ghost function AcceptedSince<K(!new)>(run: seq<Attempt<K>>, window: int, limit: int, ip: K, from: int,
      n: nat): set<nat>
    requires n <= |run|
    decreases n, 0
  {
    set j: nat | j < n && run[j].ip == ip && run[j].now > from && Accepted(run, window, limit, j)
  }

  lemma {:induction false} HistoryCounts<K(!new)>(run: seq<Attempt<K>>, window: int, limit: int, ip: K,
      from: int, n: nat)
    requires limit > 0 && n <= |run|
    ensures |After(Times(History(run[..n], window, limit), ip), from)| ==
      |AcceptedSince(run, window, limit, ip, from, n)|
    decreases n, 0
  {
    if n == 0 {
      assert AcceptedSince(run, window, limit, ip, from, n) == {};
    } else {
      var m := n - 1;
      HistoryCounts(run, window, limit, ip, from, m);
      AcceptedExactly(run, window, limit, m);
      HistoryNext(run, window, limit, ip, from, m, n);
      AcceptedNext(run, window, limit, ip, from, m);
    }
  }

  lemma AcceptedExactly<K(!new)>(run: seq<Attempt<K>>, window: int, limit: int, m: nat)
    requires limit > 0 && m < |run|
    ensures Accepts(History(run[..m], window, limit), window, run[m].ip, limit, run[m].now) <==>
      Accepted(run, window, limit, m)
    decreases m, 1
  {
    HistoryCounts(run, window, limit, run[m].ip, run[m].now - window, m);
  }

  lemma HistoryNext<K(!new)>(run: seq<Attempt<K>>, window: int, limit: int, ip: K, from: int, m: nat, n: nat)
    requires limit > 0 && n == m + 1 <= |run|
    ensures var log := History(run[..m], window, limit);
      |After(Times(History(run[..n], window, limit), ip), from)| == |After(Times(log, ip), from)|
      + if run[m].ip == ip && run[m].now > from && Accepts(log, window, ip, limit, run[m].now) then 1 else 0
  {
    assert run[..n][..m] == run[..m];
    var ts := Times(History(run[..m], window, limit), ip);
    AfterConcat(ts, [run[m].now], from);
    assert [run[m].now][..0] == [];
  }

  lemma AcceptedNext<K(!new)>(run: seq<Attempt<K>>, window: int, limit: int, ip: K, from: int, m: nat)
    requires m < |run|
    ensures |AcceptedSince(run, window, limit, ip, from, m + 1)| == |AcceptedSince(run, window, limit, ip, from, m)|
      + if run[m].ip == ip && run[m].now > from && Accepted(run, window, limit, m) then 1 else 0
  {
    var was, more := AcceptedSince(run, window, limit, ip, from, m), AcceptedSince(run, window, limit, ip, from, m + 1);
    assert more == was
      + if run[m].ip == ip && run[m].now > from && Accepted(run, window, limit, m) then {m} else {};
  }

  /** Without a positive limit every attempt is accepted. */
  lemma UnlimitedAccepts<K(!new)>(log: map<K, seq<int>>, window: int, ip: K, limit: int, now: int)
    requires limit <= 0
    ensures Accepts(log, window, ip, limit, now)
  {
  }

  ghost predicate InOrder<K(!new)>(run: seq<Attempt<K>>) {
    forall i, j :: 0 <= i < j < |run| ==> run[i].now <= run[j].now
  }

  /** How many times lie in the half-open window (from, to]. */
  ghost function CountIn(ts: seq<int>, from: int, to: int): nat {
    if ts == [] then 0 else
      CountIn(ts[..|ts| - 1], from, to) + if from < ts[|ts| - 1] <= to then 1 else 0
  }

  /** Times ascend, and any limit + 1 of them span at least a window. */
  ghost predicate Spaced(ts: seq<int>, window: int, limit: nat) {
    && (forall i, j :: 0 <= i < j < |ts| ==> ts[i] <= ts[j])
    && (forall i :: 0 <= i < |ts| - limit ==> ts[i] + window <= ts[i + limit])
  }

  /** With a fixed positive limit and time that does not run backwards, no sliding window
      ever holds more than limit accepted attempts of one address. */
  lemma SlidingBound<K(!new)>(run: seq<Attempt<K>>, window: int, limit: int, ip: K, t: int)
    requires limit > 0 && window >= 0 && InOrder(run)
    ensures CountIn(Times(History(run, window, limit), ip), t - window, t) <= limit
  {
    HistorySpaced(run, window, limit, ip);
    SpacedBound(Times(History(run, window, limit), ip), window, limit, t);
  }

  lemma {:induction false} HistorySpaced<K(!new)>(run: seq<Attempt<K>>, window: int, limit: int, ip: K)
    requires limit > 0 && InOrder(run)
    ensures Spaced(Times(History(run, window, limit), ip), window, limit)
    ensures forall t :: t in Times(History(run, window, limit), ip) ==> exists i :: 0 <= i < |run| && run[i].now == t
  {
    if run != [] {
      var init, a := run[..|run| - 1], run[|run| - 1];
      HistorySpaced(init, window, limit, ip);
      var ts := Times(History(init, window, limit), ip);
      forall t | t in ts ensures t <= a.now && exists i :: 0 <= i < |run| && run[i].now == t {
        var i :| 0 <= i < |init| && init[i].now == t;
        assert run[i].now == t;
      }
      if a.ip == ip && Accepts(History(init, window, limit), window, ip, limit, a.now) {
        AppendSpaced(ts, window, limit, a.now);
        assert run[|run| - 1].now == a.now;
      }
    }
  }

  lemma AppendSpaced(ts: seq<int>, window: int, limit: nat, now: int)
    requires limit > 0 && Spaced(ts, window, limit) && (forall t :: t in ts ==> t <= now)
    requires |After(ts, now - window)| < limit
    ensures Spaced(ts + [now], window, limit)
  {
    var r := ts + [now];
    if |ts| >= limit && ts[|ts| - limit] > now - window {
      TailAfter(ts, now - window, |ts| - limit);
    }
    forall i, j | 0 <= i < j < |r| ensures r[i] <= r[j] {
      if j == |ts| { assert ts[i] in ts; }
    }
    forall i | 0 <= i < |r| - limit ensures r[i] + window <= r[i + limit] {
      if i + limit < |ts| { assert ts[i] + window <= ts[i + limit]; }
    }
  }

  /** Once an ascending sequence passes the cutoff it stays past it. */
  lemma {:induction false} TailAfter(ts: seq<int>, cutoff: int, i: nat)
    requires i < |ts| && ts[i] > cutoff && forall i, j :: 0 <= i < j < |ts| ==> ts[i] <= ts[j]
    ensures |After(ts, cutoff)| >= |ts| - i
  {
    if i < |ts| - 1 { TailAfter(ts[..|ts| - 1], cutoff, i); }
  }

  lemma {:induction false} SpacedBound(ts: seq<int>, window: int, limit: nat, t: int)
    requires limit > 0 && window >= 0 && Spaced(ts, window, limit)
    ensures CountIn(ts, t - window, t) <= limit
  {
    if ts != [] {
      var init, last := ts[..|ts| - 1], ts[|ts| - 1];
      if !(t - window < last <= t) {
        SpacedBound(init, window, limit, t);
      } else if |ts| <= limit {
        CountAll(init, t - window, t);
      } else {
        var p := |ts| - 1 - limit;
        assert ts[p] + window <= ts[p + limit];
        forall i | 0 <= i < p + 1 ensures init[i] <= t - window { assert ts[i] <= ts[p]; }
        CountTail(init, t - window, t, p + 1);
      }
    }
  }

  lemma {:induction false} CountAll(ts: seq<int>, from: int, to: int)
    ensures CountIn(ts, from, to) <= |ts|
  {
    if ts != [] { CountAll(ts[..|ts| - 1], from, to); }
  }

  /** When the first n of an ascending sequence are out of the window, only the rest count. */
  lemma {:induction false} CountTail(ts: seq<int>, from: int, to: int, n: nat)
    requires n <= |ts| && forall i :: 0 <= i < n ==> ts[i] <= from
    ensures CountIn(ts, from, to) <= |ts| - n
  {
    if |ts| > n { CountTail(ts[..|ts| - 1], from, to, n); }
    else if ts != [] { CountTail(ts[..|ts| - 1], from, to, n - 1); }
  }
}
