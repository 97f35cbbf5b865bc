/** The one pass over all messages that feeds the management overview. */
module OverviewScan {
  import opened Wrappers
  import opened Tally

  /** What the scan reads of a message. first is the first To address; a message with
      no To address, or a blank one, has none. */
  datatype Event<A> = Event(from: A, recips: set<A>, first: Option<A>, runes: nat, at: int)

  datatype Acc = Acc(lastIn: int, lastOut: int, countIn: int, countOut: int, sumIn: int, sumOut: int)

  type Table<A> = map<A, map<A, int>>

  /** The accumulators: per core address, contact counts, directional counts, and the
      latest time of each unordered pair. */
  datatype Tallies<A> = Tallies(
    core: map<A, Acc>, contacts: Table<A>, dir: Table<A>, last: map<(A, A), int>)

  function At<A>(t: Table<A>, x: A, y: A): int {
    if x in t && y in t[x] then t[x][y] else 0
  }

  function Bump<A>(t: Table<A>, x: A, y: A): Table<A> {
    t[x := (if x in t then t[x] else map[])[y := At(t, x, y) + 1]]
  }

  function Latest<K>(last: map<K, int>, k: K): int {
    if k in last then last[k] else 0
  }

  // ---- the scan ----

  /** One message at a time, in the order given. */
  method Scan<A(==,!new)>(es: seq<Event<A>>, coreSet: set<A>, lo: int, pk: (A, A) -> (A, A)) returns (t: Tallies<A>)
    requires forall e :: e in es ==> Readable(e)
    ensures Tallied(t, multiset(es), coreSet, lo, pk)
  {
    t := Tallies(map c | c in coreSet :: Acc(0, 0, 0, 0, 0, 0), map[], map[], map[]);
    assert multiset(es[..0]) == multiset{};
    for i := 0 to |es|
      invariant Tallied(t, multiset(es[..i]), coreSet, lo, pk)
    {
      assert es[..i + 1] == es[..i] + [es[i]];
      StepTallied(t, multiset(es[..i]), coreSet, lo, pk, es[i]);
      t := ScanOne(t, es[i], lo, pk);
    }
    assert es[..|es|] == es;
  }

  /** The sender is handled first, then the recipients in any order. A pair is recorded
      from the sender's side when the sender is core, and else from the recipient's. */
  method ScanOne<A(==,!new)>(t0: Tallies<A>, e: Event<A>, lo: int, pk: (A, A) -> (A, A)) returns (t: Tallies<A>)
    requires Readable(e)
    ensures t == Step(t0, e, lo, pk)
  {
    t := ScanSender(t0, e, e.at >= lo, pk);
    t := ScanRecipients(t, e, e.at >= lo, pk);
    TwoHalves(t0, e, lo, pk);
  }

  method ScanSender<A(==,!new)>(t0: Tallies<A>, e: Event<A>, inWindow: bool,
      pk: (A, A) -> (A, A))
    returns (t: Tallies<A>)
    ensures t == SenderHalf(t0, e, inWindow, pk)
  {
    t := t0;
    if e.from in t.core {
      t := t.(core := t.core[e.from := SentOne(t.core[e.from], e, inWindow)]);
      if e.first.Some? {
        t := AddDir(t, e.from, e.first.value, e.at, inWindow, pk);
        if inWindow { t := t.(contacts := Bump(t.contacts, e.from, e.first.value)); }
      }
    }
  }

  method ScanRecipients<A(==,!new)>(t0: Tallies<A>, e: Event<A>, inWindow: bool,
      pk: (A, A) -> (A, A))
    returns (t: Tallies<A>)
    requires Readable(e)
    ensures t == AllBut(t0, e, {}, inWindow, pk)
  {
    t := t0;
    var todo := e.recips;
    NoneDone(t0, e, inWindow, pk);
    while todo != {}
      invariant todo <= e.recips && t == AllBut(t0, e, todo, inWindow, pk)
      decreases todo
    {
      var r :| r in todo;
      OneMoreDone(t0, e, todo, r, inWindow, pk);
      todo := todo - {r};
      if r in t.core {
        t := t.(core := t.core[r := GotOne(t.core[r], e, inWindow)]);
        if e.first == Some(r) && e.from !in t.core {
          t := AddDir(t, e.from, r, e.at, inWindow, pk);
          if inWindow { t := t.(contacts := Bump(t.contacts, r, e.from)); }
        }
      }
    }
  }

  method AddDir<A(==,!new)>(t: Tallies<A>, from: A, to: A, at: int, inWindow: bool, pk: (A, A) -> (A, A))
    returns (r: Tallies<A>)
    ensures r == t.(dir := if inWindow then Bump(t.dir, from, to) else t.dir,
                    last := Touched(t.last, pk(from, to), at))
  {
    r := t;
    if inWindow { r := r.(dir := Bump(r.dir, from, to)); }
    var k := pk(from, to);
    if at > Latest(r.last, k) { r := r.(last := r.last[k := at]); }
  }

  function SentOne<A>(a: Acc, e: Event<A>, inWindow: bool): Acc {
    var b := if e.at > a.lastOut then a.(lastOut := e.at) else a;
    if inWindow then b.(countOut := b.countOut + 1, sumOut := b.sumOut + e.runes) else b
  }

  function GotOne<A>(a: Acc, e: Event<A>, inWindow: bool): Acc {
    var b := if e.at > a.lastIn then a.(lastIn := e.at) else a;
    if inWindow then b.(countIn := b.countIn + 1, sumIn := b.sumIn + e.runes) else b
  }

  function Touched<K>(last: map<K, int>, k: K, at: int): map<K, int> {
    if at > Latest(last, k) then last[k := at] else last
  }

  ghost predicate Readable<A(!new)>(e: Event<A>) {
    e.first.Some? ==> e.first.value in e.recips
  }

  ghost predicate FromOutside<A>(e: Event<A>, core: set<A>) {
    e.first.Some? && e.from !in core && e.first.value in core
  }

  /** One attribution: to the directed pair and the pair's latest time, and as a contact
      of owner. */
  ghost function Attributed<A>(t: Tallies<A>, e: Event<A>, owner: A, other: A, inWindow: bool,
      pk: (A, A) -> (A, A)): Tallies<A>
    requires e.first.Some?
  {
    t.(dir := if inWindow then Bump(t.dir, e.from, e.first.value) else t.dir,
       last := Touched(t.last, pk(e.from, e.first.value), e.at),
       contacts := if inWindow then Bump(t.contacts, owner, other) else t.contacts)
  }

  ghost function SenderHalf<A(!new)>(t: Tallies<A>, e: Event<A>, inWindow: bool, pk: (A, A) -> (A, A)): Tallies<A> {
    if e.from !in t.core then t else
      var u := t.(core := t.core[e.from := SentOne(t.core[e.from], e, inWindow)]);
      if e.first.Some? then Attributed(u, e, e.from, e.first.value, inWindow, pk) else u
  }

  /** The state when the recipients in todo are still to come. */
  ghost function AllBut<A(!new)>(t: Tallies<A>, e: Event<A>, todo: set<A>, inWindow: bool,
      pk: (A, A) -> (A, A)): Tallies<A>
  {
    var u := t.(core := CoreAllBut(t.core, e, todo, inWindow));
    if FromOutside(e, t.core.Keys) && e.first.value !in todo
    then Attributed(u, e, e.first.value, e.from, inWindow, pk) else u
  }

  ghost function CoreAllBut<A(!new)>(core: map<A, Acc>, e: Event<A>, todo: set<A>, inWindow: bool): map<A, Acc> {
    map c | c in core :: if c in e.recips && c !in todo then GotOne(core[c], e, inWindow) else core[c]
  }

  ghost function OneRecipient<A(!new)>(t: Tallies<A>, e: Event<A>, r: A, inWindow: bool,
      pk: (A, A) -> (A, A)): Tallies<A>
  {
    if r !in t.core then t else
      var u := t.(core := t.core[r := GotOne(t.core[r], e, inWindow)]);
      if e.first == Some(r) && e.from !in t.core then Attributed(u, e, r, e.from, inWindow, pk) else u
  }

  lemma NoneDone<A(!new)>(t: Tallies<A>, e: Event<A>, inWindow: bool, pk: (A, A) -> (A, A))
    requires Readable(e)
    ensures AllBut(t, e, e.recips, inWindow, pk) == t
  {
    assert CoreAllBut(t.core, e, e.recips, inWindow) == t.core;
  }

  lemma OneMoreDone<A(!new)>(t: Tallies<A>, e: Event<A>, todo: set<A>, r: A, inWindow: bool, pk: (A, A) -> (A, A))
    requires Readable(e) && r in todo && todo <= e.recips
    ensures OneRecipient(AllBut(t, e, todo, inWindow, pk), e, r, inWindow, pk) == AllBut(t, e, todo - {r}, inWindow, pk)
  {
    CoreOneMore(t.core, e, todo, r, inWindow);
  }

  lemma CoreOneMore<A(!new)>(core: map<A, Acc>, e: Event<A>, todo: set<A>, r: A, inWindow: bool)
    requires r in todo && todo <= e.recips
    ensures var c := CoreAllBut(core, e, todo, inWindow);
      CoreAllBut(core, e, todo - {r}, inWindow) == if r in c then c[r := GotOne(c[r], e, inWindow)] else c
  {
  }

  lemma TwoHalves<A(!new)>(t: Tallies<A>, e: Event<A>, lo: int, pk: (A, A) -> (A, A))
    ensures AllBut(SenderHalf(t, e, e.at >= lo, pk), e, {}, e.at >= lo, pk) == Step(t, e, lo, pk)
  {
    TwoCoreHalves(t.core, e, e.at >= lo);
    assert SenderHalf(t, e, e.at >= lo, pk).core.Keys == t.core.Keys;
  }

  lemma TwoCoreHalves<A(!new)>(core: map<A, Acc>, e: Event<A>, inWindow: bool)
    ensures var sent := if e.from in core then core[e.from := SentOne(core[e.from], e, inWindow)] else core;
      CoreAllBut(sent, e, {}, inWindow) == map c | c in core :: StepAcc(core[c], e, c, inWindow)
  {
  }

  // ---- what one message changes ----

  /** The directed pair a message counts for: sender and first recipient, if one is core. */
  ghost function PairOf<A>(e: Event<A>, core: set<A>): Option<(A, A)> {
    if e.first.Some? && (e.from in core || e.first.value in core) then Some((e.from, e.first.value)) else None
  }

  /** Whose contact the message is: the core sender's, else the core first recipient's. */
  ghost function ContactOf<A>(e: Event<A>, core: set<A>): Option<(A, A)> {
    if e.first.None? then None
    else if e.from in core then Some((e.from, e.first.value))
    else if e.first.value in core then Some((e.first.value, e.from))
    else None
  }

  ghost function StepAcc<A>(a: Acc, e: Event<A>, c: A, inWindow: bool): Acc {
    var b := if e.from == c then SentOne(a, e, inWindow) else a;
    if c in e.recips then GotOne(b, e, inWindow) else b
  }

  ghost function Recorded<A>(t: Table<A>, o: Option<(A, A)>, inWindow: bool): Table<A> {
    if o.Some? && inWindow then Bump(t, o.value.0, o.value.1) else t
  }

  ghost function Step<A(!new)>(t: Tallies<A>, e: Event<A>, lo: int, pk: (A, A) -> (A, A)): Tallies<A> {
    var p := PairOf(e, t.core.Keys);
    Tallies(
      map c | c in t.core :: StepAcc(t.core[c], e, c, e.at >= lo),
      Recorded(t.contacts, ContactOf(e, t.core.Keys), e.at >= lo),
      Recorded(t.dir, p, e.at >= lo),
      if p.Some? then Touched(t.last, pk(p.value.0, p.value.1), e.at) else t.last)
  }

  // ---- the declarative meaning of the accumulators ----

  ghost function Sent<A(!new)>(c: A, lo: int): Event<A> -> int {
    (e: Event<A>) => if e.from == c && e.at >= lo then 1 else 0
  }

  ghost function Got<A(!new)>(c: A, lo: int): Event<A> -> int {
    (e: Event<A>) => if c in e.recips && e.at >= lo then 1 else 0
  }

  ghost function SentRunes<A(!new)>(c: A, lo: int): Event<A> -> int {
    (e: Event<A>) => if e.from == c && e.at >= lo then e.runes else 0
  }

  ghost function GotRunes<A(!new)>(c: A, lo: int): Event<A> -> int {
    (e: Event<A>) => if c in e.recips && e.at >= lo then e.runes else 0
  }

  ghost function SentAt<A(!new)>(c: A): Event<A> -> int {
    (e: Event<A>) => if e.from == c then e.at else 0
  }

  ghost function GotAt<A(!new)>(c: A): Event<A> -> int {
    (e: Event<A>) => if c in e.recips then e.at else 0
  }

  /** Activity of c over all messages: latest times of all, counts of the window. */
  ghost function AccOf<A(!new)>(s: multiset<Event<A>>, c: A, lo: int): Acc {
    Acc(Max0(s, GotAt(c)), Max0(s, SentAt(c)), Sum(s, Got(c, lo)), Sum(s, Sent(c, lo)),
        Sum(s, GotRunes(c, lo)), Sum(s, SentRunes(c, lo)))
  }

  /** 1 on a message of the window that counts for the directed pair (x, y). */
  ghost function OnPair<A(!new)>(core: set<A>, lo: int, x: A, y: A): Event<A> -> int {
    (e: Event<A>) => if e.at >= lo && PairOf(e, core) == Some((x, y)) then 1 else 0
  }

  ghost function OnContact<A(!new)>(core: set<A>, lo: int, x: A, y: A): Event<A> -> int {
    (e: Event<A>) => if e.at >= lo && ContactOf(e, core) == Some((x, y)) then 1 else 0
  }

  /** The time of a message that counts for the unordered pair k. */
  ghost function PairAt<A(!new)>(core: set<A>, pk: (A, A) -> (A, A), k: (A, A)): Event<A> -> int {
    (e: Event<A>) =>
      if PairOf(e, core).Some? && pk(PairOf(e, core).value.0, PairOf(e, core).value.1) == k then e.at else 0
  }

  ghost predicate AccOk<A(!new)>(t: Tallies<A>, s: multiset<Event<A>>, lo: int, c: A)
    requires c in t.core
  {
    t.core[c] == AccOf(s, c, lo)
  }

  ghost predicate CellsOk<A(!new)>(t: Tallies<A>, s: multiset<Event<A>>, core: set<A>, lo: int, x: A, y: A) {
    && At(t.dir, x, y) == Sum(s, OnPair(core, lo, x, y))
    && At(t.contacts, x, y) == Sum(s, OnContact(core, lo, x, y))
    && (x in t.dir && y in t.dir[x] ==> t.dir[x][y] > 0)
    && (x in t.contacts && y in t.contacts[x] ==> t.contacts[x][y] > 0)
  }

  ghost predicate LastOk<A(!new)>(t: Tallies<A>, s: multiset<Event<A>>, core: set<A>, pk: (A, A) -> (A, A), k: (A, A)) {
    Latest(t.last, k) == Max0(s, PairAt(core, pk, k))
  }

  /** The accumulators hold the declared counts and maxima of the messages s. */
  ghost predicate Tallied<A(!new)>(t: Tallies<A>, s: multiset<Event<A>>, core: set<A>, lo: int, pk: (A, A) -> (A, A)) {
    && t.core.Keys == core
    && (forall c {:trigger AccOk(t, s, lo, c)} :: c in core ==> AccOk(t, s, lo, c))
    && (forall x, y {:trigger CellsOk(t, s, core, lo, x, y)} :: CellsOk(t, s, core, lo, x, y))
    && (forall k {:trigger LastOk(t, s, core, pk, k)} :: LastOk(t, s, core, pk, k))
  }

  lemma StepTallied<A(!new)>(t: Tallies<A>, s: multiset<Event<A>>, core: set<A>, lo: int, pk: (A, A) -> (A, A),
      e: Event<A>)
    requires Tallied(t, s, core, lo, pk)
    ensures Tallied(Step(t, e, lo, pk), s + multiset{e}, core, lo, pk)
  {
    var r := Step(t, e, lo, pk);
    forall c | c in core ensures AccOk(r, s + multiset{e}, lo, c) { StepAccOk(t, s, lo, pk, e, c); }
    forall x, y ensures CellsOk(r, s + multiset{e}, core, lo, x, y) { StepCellsOk(t, s, core, lo, pk, e, x, y); }
    forall k ensures LastOk(r, s + multiset{e}, core, pk, k) { StepLastOk(t, s, core, lo, pk, e, k); }
  }

  lemma StepAccOk<A(!new)>(t: Tallies<A>, s: multiset<Event<A>>, lo: int, pk: (A, A) -> (A, A), e: Event<A>, c: A)
    requires c in t.core && AccOk(t, s, lo, c)
    ensures AccOk(Step(t, e, lo, pk), s + multiset{e}, lo, c)
  {
    GotTally(s, c, lo, e);
    SentTally(s, c, lo, e);
  }

  lemma GotLatest<A(!new)>(s: multiset<Event<A>>, c: A, e: Event<A>)
    ensures Max0(s + multiset{e}, GotAt(c)) ==
      if c in e.recips then Larger(e.at, Max0(s, GotAt(c))) else Max0(s, GotAt(c))
  {
    MaxAdd(s, GotAt(c), e);
    MaxMeaning(s, GotAt(c));
  }

  lemma GotSums<A(!new)>(s: multiset<Event<A>>, c: A, lo: int, e: Event<A>)
    ensures Sum(s + multiset{e}, Got(c, lo)) == Sum(s, Got(c, lo)) + if c in e.recips && e.at >= lo then 1 else 0
    ensures Sum(s + multiset{e}, GotRunes(c, lo)) ==
      Sum(s, GotRunes(c, lo)) + if c in e.recips && e.at >= lo then e.runes else 0
  {
    SumAdd(s, Got(c, lo), e);
    SumAdd(s, GotRunes(c, lo), e);
  }

  lemma GotTally<A(!new)>(s: multiset<Event<A>>, c: A, lo: int, e: Event<A>)
    ensures var a, b := AccOf(s, c, lo), AccOf(s + multiset{e}, c, lo);
      var g := if c in e.recips then GotOne(a, e, e.at >= lo) else a;
      b.lastIn == g.lastIn && b.countIn == g.countIn && b.sumIn == g.sumIn
  {
    GotLatest(s, c, e);
    GotSums(s, c, lo, e);
  }

  lemma SentLatest<A(!new)>(s: multiset<Event<A>>, c: A, e: Event<A>)
    ensures Max0(s + multiset{e}, SentAt(c)) ==
      if e.from == c then Larger(e.at, Max0(s, SentAt(c))) else Max0(s, SentAt(c))
  {
    MaxAdd(s, SentAt(c), e);
    MaxMeaning(s, SentAt(c));
  }

  lemma SentSums<A(!new)>(s: multiset<Event<A>>, c: A, lo: int, e: Event<A>)
    ensures Sum(s + multiset{e}, Sent(c, lo)) == Sum(s, Sent(c, lo)) + if e.from == c && e.at >= lo then 1 else 0
    ensures Sum(s + multiset{e}, SentRunes(c, lo)) ==
      Sum(s, SentRunes(c, lo)) + if e.from == c && e.at >= lo then e.runes else 0
  {
    SumAdd(s, Sent(c, lo), e);
    SumAdd(s, SentRunes(c, lo), e);
  }

  lemma SentTally<A(!new)>(s: multiset<Event<A>>, c: A, lo: int, e: Event<A>)
    ensures var a, b := AccOf(s, c, lo), AccOf(s + multiset{e}, c, lo);
      var g := if e.from == c then SentOne(a, e, e.at >= lo) else a;
      b.lastOut == g.lastOut && b.countOut == g.countOut && b.sumOut == g.sumOut
  {
    SentLatest(s, c, e);
    SentSums(s, c, lo, e);
  }

  lemma RecordedAt<A(!new)>(t: Table<A>, o: Option<(A, A)>, inWindow: bool, x: A, y: A)
    ensures At(Recorded(t, o, inWindow), x, y) == At(t, x, y) + if inWindow && o == Some((x, y)) then 1 else 0
    ensures (x in Recorded(t, o, inWindow) && y in Recorded(t, o, inWindow)[x]) ==>
      (x in t && y in t[x]) || (inWindow && o == Some((x, y)))
  {
  }

  lemma StepCellsOk<A(!new)>(t: Tallies<A>, s: multiset<Event<A>>, core: set<A>, lo: int, pk: (A, A) -> (A, A),
      e: Event<A>, x: A, y: A)
    requires Tallied(t, s, core, lo, pk)
    ensures CellsOk(Step(t, e, lo, pk), s + multiset{e}, core, lo, x, y)
  {
    assert CellsOk(t, s, core, lo, x, y);
    SumAdd(s, OnPair(core, lo, x, y), e);
    SumNonNegative(s, OnPair(core, lo, x, y));
    RecordedAt(t.dir, PairOf(e, core), e.at >= lo, x, y);
    SumAdd(s, OnContact(core, lo, x, y), e);
    SumNonNegative(s, OnContact(core, lo, x, y));
    RecordedAt(t.contacts, ContactOf(e, core), e.at >= lo, x, y);
  }

  lemma StepLastOk<A(!new)>(t: Tallies<A>, s: multiset<Event<A>>, core: set<A>, lo: int, pk: (A, A) -> (A, A),
      e: Event<A>, k: (A, A))
    requires Tallied(t, s, core, lo, pk)
    ensures LastOk(Step(t, e, lo, pk), s + multiset{e}, core, pk, k)
  {
    MaxAdd(s, PairAt(core, pk, k), e);
    MaxMeaning(s, PairAt(core, pk, k));
    assert LastOk(t, s, core, pk, k);
  }
}
