/** The do-not-disturb window of an account, on a 1440-minute clock. */
module QuietHours {

  const DAY: int := 1440

  datatype DND = DND(enabled: bool, startMin: int, endMin: int)

  predicate ActiveAt(d: DND, minOfDay: int) {
    if !d.enabled || d.startMin == d.endMin then false
    else if d.startMin < d.endMin then d.startMin <= minOfDay < d.endMin
    else minOfDay >= d.startMin || minOfDay < d.endMin
  }

  /** Minutes until the summary of the present silence is due. */
  function DigestWait(d: DND, minOfDay: int): int {
    if d.startMin < d.endMin then d.endMin - minOfDay else DAY + d.endMin - minOfDay
  }

  /** The bounds that storing a window enforces. */
  predicate Storable(d: DND) {
    0 <= d.startMin < DAY && 0 <= d.endMin < DAY
  }

  class Preferences<A(==,!new)> {
    var windows: map<A, DND>

    /** Every stored window is one that storing allows. */
    ghost predicate Valid()
      reads this
    {
      forall a :: a in windows ==> Storable(windows[a])
    }

    constructor ()
      ensures Valid() && windows == map[]
    {
      windows := map[];
    }

    method SetPushDND(address: A, d: DND) returns (ok: bool)
      requires Valid()
      modifies this
      ensures Valid() && (ok <==> 0 <= d.startMin <= 1439 && 0 <= d.endMin <= 1439)
      ensures windows == if ok then old(windows)[address := d] else old(windows)
    {
      ok := 0 <= d.startMin < 24 * 60 && 0 <= d.endMin < 24 * 60;
      if ok { windows := windows[address := d]; }
    }

    /** What is read keeps to the bounds that the waiting time rests on, and an account that
        never stored a window is never silent. */
    method GetPushDND(address: A) returns (d: DND)
      requires Valid()
      ensures Storable(d)
      ensures address in windows ==> d == windows[address]
      ensures address !in windows ==> forall m :: !ActiveAt(d, m)
    {
      d := if address in windows then windows[address] else DND(false, 0, 0);
    }
  }

  /** m is k minutes after the window's start, and the window is longer than that. */
  predicate MinuteOf(d: DND, m: int, k: int) {
    0 <= k < (d.endMin - d.startMin) % 1440 && m == (d.startMin + k) % 1440
  }

  /** A window is active when it is switched on and the clock is within the minutes from its
      start up to its end, over midnight if need be; one that ends where it starts has none. */
  lemma ActiveMeaning(d: DND, m: int)
    requires Storable(d) && 0 <= m < 1440
    ensures ActiveAt(d, m) <==> d.enabled && exists k :: MinuteOf(d, m, k)
  {
    var k := (m - d.startMin) % 1440;
    assert (d.startMin + k) % 1440 == m;
    if d.startMin < d.endMin {
      assert (d.endMin - d.startMin) % 1440 == d.endMin - d.startMin;
    }
    if ActiveAt(d, m) { assert MinuteOf(d, m, k); }
    forall j | MinuteOf(d, m, j) ensures d.startMin != d.endMin && (d.enabled ==> ActiveAt(d, m)) {
      assert m == if d.startMin + j < 1440 then d.startMin + j else d.startMin + j - 1440;
    }
  }

  function Minute(minOfDay: int, later: int): int {
    (minOfDay + later) % DAY
  }

  /** k is how long the silence that is on at minOfDay still lasts. */
  ghost predicate SilentFor(d: DND, minOfDay: int, k: int) {
    && k > 0 && !ActiveAt(d, Minute(minOfDay, k))
    && forall j :: 0 <= j < k ==> ActiveAt(d, Minute(minOfDay, j))
  }

  /** Within an active window the wait is positive and ends at the window's end. It is the
      remaining silence, except after midnight in a window that wraps: then it is exactly
      one day too long. */
  lemma WaitMeaning(d: DND, m: int)
    requires Storable(d) && 0 <= m < DAY && ActiveAt(d, m)
    ensures DigestWait(d, m) > 0 && Minute(m, DigestWait(d, m)) == d.endMin
    ensures SilentFor(d, m, DigestWait(d, m)) <==> (d.startMin < d.endMin || m >= d.startMin)
    ensures d.startMin > d.endMin && m < d.startMin ==> SilentFor(d, m, DigestWait(d, m) - DAY)
  {
    var w := DigestWait(d, m);
    if d.startMin < d.endMin || m >= d.startMin {
      RunsUntil(d, m, w);
    } else {
      RunsUntil(d, m, w - DAY);
      assert !ActiveAt(d, Minute(m, w - DAY));
    }
  }

  lemma RunsUntil(d: DND, m: int, k: int)
    requires Storable(d) && 0 <= m < DAY && ActiveAt(d, m)
    requires k == if d.startMin < d.endMin || m < d.startMin then d.endMin - m else DAY + d.endMin - m
    ensures SilentFor(d, m, k) && Minute(m, k) == d.endMin
  {
    forall j | 0 <= j < k ensures ActiveAt(d, Minute(m, j)) {
      assert Minute(m, j) == if m + j < DAY then m + j else m + j - DAY;
    }
  }
}
