/** What registering a team stores, and when its members can be found again. */
module TeamLaws {
  import opened Wrappers
  import opened Text
  import opened Sorting
  import opened Sequences
  import opened Directory
  import opened IndexKeys
  import opened Subs
  import opened GraphLaws
  import opened AccountCase
  import opened StoreSpec
  import opened Teams
  import opened StoreRuns

  // ---- what is stored ----

  /** From s to u, the members have been added, each under a new address and below the owner. */
  ghost predicate Enlisted(s: State, u: State, t: Team, members: seq<string>) {
    && (forall i, j :: 0 <= i < j < |members| ==> members[i] != members[j])
    && (forall l :: l in u.accounts <==> l in s.accounts || l in members)
    && (forall l :: l in s.accounts ==> l !in members && u.accounts[l] == s.accounts[l])
    && (forall i :: 0 <= i < |members| ==> StoredMember(u, t, members, i))
    && SubsEnlisted(s.subs, u.subs, Owner(t).address, t.now, members)
  }

  /** The new edges are recorded with the time of the registration, the others stay as they were. */
  ghost predicate SubsEnlisted(before: map<string, SubRecord>, after: map<string, SubRecord>, owner: string, now: int,
      members: seq<string>)
  {
    && (forall k :: k in after <==> k in before || IsEdge(owner, members, k))
    && (forall k :: k in after ==> after[k] == if IsEdge(owner, members, k) then SubRecord("both", now) else before[k])
  }

  ghost predicate IsEdge(owner: string, members: seq<string>, k: string) {
    exists m :: m in members && k == SubKey(owner, m)
  }

  ghost predicate StoredMember(u: State, t: Team, members: seq<string>, i: nat)
    requires i < |members|
  {
    && members[i] in u.accounts && u.accounts[members[i]].uuid == t.uuid(i + 1)
    && u.accounts[members[i]].address == members[i]
  }

  lemma EnrolUnfold(s: State, t: Team, i: nat, n: nat)
    requires n == i + 1
    ensures Enrol(s, t, n) ==
      if Enrol(s, t, i).None? then None else EnrolNext(Enrol(s, t, i).value.0, Enrol(s, t, i).value.1, t, i)
  {
  }

  ghost predicate AllEnlisted(s: State, t: Team, n: nat, p: (State, seq<string>)) {
    |p.1| == n && Enlisted(s, p.0, t, p.1)
  }

  lemma {:induction false} EnrolMeaning(s: State, t: Team, n: nat)
    requires Enrol(s, t, n).Some?
    ensures AllEnlisted(s, t, n, Enrol(s, t, n).value)
  {
    if n > 0 {
      var i := n - 1;
      EnrolUnfold(s, t, i, n);
      EnrolMeaning(s, t, i);
      NextMeaning(s, Enrol(s, t, i).value.0, t, Enrol(s, t, i).value.1, i, n);
    }
  }

  lemma NextMeaning(s: State, u: State, t: Team, members: seq<string>, i: nat, n: nat)
    requires AllEnlisted(s, t, i, (u, members)) && n == i + 1 && EnrolNext(u, members, t, i).Some?
    ensures AllEnlisted(s, t, n, EnrolNext(u, members, t, i).value)
  {
    IsFree(u.accounts.Keys, t.domain, Candidates(t, i));
    EnlistMeaning(s, u, t, members, Member(t, i, NameFor(u, t, i).value));
  }

  lemma EnlistMeaning(s: State, u: State, t: Team, members: seq<string>, a: Account)
    requires Enlisted(s, u, t, members) && a.address !in u.accounts && a.uuid == t.uuid(|members| + 1)
    requires a.createdAt == t.now
    ensures Enlisted(s, Enlist(u, Owner(t).address, a), t, members + [a.address])
  {
    var v, more := Enlist(u, Owner(t).address, a), members + [a.address];
    InSnoc(members, a.address);
    NextEdge(s.subs, u.subs, Owner(t).address, t.now, members, a.address);
    forall i | 0 <= i < |more| ensures StoredMember(v, t, more, i) {
      if i < |members| { assert StoredMember(u, t, members, i); }
    }
  }

  lemma NextEdge(before: map<string, SubRecord>, after: map<string, SubRecord>, owner: string, now: int,
      members: seq<string>, m: string)
    requires SubsEnlisted(before, after, owner, now, members)
    ensures SubsEnlisted(before, after[SubKey(owner, m) := SubRecord("both", now)], owner, now, members + [m])
  {
    InSnoc(members, m);
    forall k ensures IsEdge(owner, members + [m], k) <==> IsEdge(owner, members, k) || k == SubKey(owner, m) {
      if k == SubKey(owner, m) { assert m in members + [m]; }
      if IsEdge(owner, members, k) {
        var x :| x in members && k == SubKey(owner, x);
        assert x in members + [m];
      }
    }
  }

  function Started(s: State, t: Team): State {
    s.(accounts := s.accounts[Owner(t).address := Owner(t)])
  }

  /** All or nothing: with an error nothing is stored; otherwise exactly the owner and size
      members, all under addresses that nobody had. */
  lemma TeamMeaning(s: State, t: Team)
    ensures var (u, r) := Teams.RegisterTeam(s, t);
      && (r.Err? ==> u == s)
      && (r.Ok? ==> r.value.0 == Owner(t).address && r.value.0 !in s.accounts && |r.value.1| == t.size
                    && Enlisted(Started(s, t), u, t, r.value.1))
  {
    if Teams.RegisterTeam(s, t).1.Ok? { EnrolMeaning(Started(s, t), t, t.size); }
  }

  /** Member i is the one that finds no name: the others before it have theirs. */
  ghost predicate Nameless(s: State, t: Team, i: nat) {
    && Enrol(Started(s, t), t, i).Some? && |Enrol(Started(s, t), t, i).value.1| == i
    && forall name :: name in Candidates(t, i) ==>
      name + "@" + t.domain in TakenFor(s, t, Enrol(Started(s, t), t, i).value.1, i)
  }

  /** When it fails. */
  lemma TeamRefused(s: State, t: Team)
    ensures var r := Teams.RegisterTeam(s, t).1;
      && (r == Err(BadTeam) <==> !(1 <= t.size <= 10) || (t.names != [] && |t.names| != t.size))
      && (r == Err(AccountExists) <==> WellSized(t) && Owner(t).address in s.accounts)
      && (r == Err(NoMemberName) <==>
           WellSized(t) && Owner(t).address !in s.accounts && SomeoneNameless(s, t, t.size))
      && (r.Err? ==> r.error in {BadTeam, AccountExists, NoMemberName})
  {
    if WellSized(t) && Owner(t).address !in s.accounts { EnrolFails(s, t, t.size); }
  }

  ghost function NamelessOf(s: State, t: Team): nat -> bool {
    (i: nat) => Nameless(s, t, i)
  }

  ghost predicate SomeoneNameless(s: State, t: Team, n: nat) {
    AnyBelow(NamelessOf(s, t), n)
  }

  ghost predicate AnyBelow(p: nat -> bool, n: nat) {
    exists i: nat :: i < n && p(i)
  }

  lemma AnyNext(p: nat -> bool, i: nat, n: nat)
    requires n == i + 1
    ensures AnyBelow(p, n) <==> AnyBelow(p, i) || p(i)
  {
  }

  lemma {:induction false} EnrolFails(s: State, t: Team, n: nat)
    ensures Enrol(Started(s, t), t, n).None? <==> SomeoneNameless(s, t, n)
  {
    if n > 0 {
      var i := n - 1;
      EnrolFails(s, t, i);
      FailsNext(s, t, i, n);
      AnyNext(NamelessOf(s, t), i, n);
    }
  }

  lemma FailsNext(s: State, t: Team, i: nat, n: nat)
    requires n == i + 1
    ensures Enrol(Started(s, t), t, n).None? <==> Enrol(Started(s, t), t, i).None? || Nameless(s, t, i)
  {
    EnrolNone(Started(s, t), t, i, n);
    if Enrol(Started(s, t), t, i).Some? { NamelessIff(s, t, i); }
  }

  lemma EnrolNone(s: State, t: Team, i: nat, n: nat)
    requires n == i + 1
    ensures Enrol(s, t, n).None? <==> Enrol(s, t, i).None? || NameFor(Enrol(s, t, i).value.0, t, i).None?
  {
    EnrolUnfold(s, t, i, n);
    if Enrol(s, t, i).Some? { NextNamed(Enrol(s, t, i).value.0, Enrol(s, t, i).value.1, t, i); }
  }

  lemma NamelessIff(s: State, t: Team, i: nat)
    requires Enrol(Started(s, t), t, i).Some?
    ensures Nameless(s, t, i) <==> NameFor(Enrol(Started(s, t), t, i).value.0, t, i).None?
  {
    var start := Started(s, t);
    EnrolMeaning(start, t, i);
    var before := Enrol(start, t, i).value;
    assert before.1[..i] == before.1;
    assert before.0.accounts.Keys == TakenFor(s, t, before.1, i);
    var k := FirstFreeMeaning(before.0.accounts.Keys, t.domain, Candidates(t, i));
  }

  /** The new edges go from the owner to its members; the others stay. */
  lemma TeamEdges(s: State, t: Team, x: string, y: string)
    requires NulFree(Owner(t).address) && NulFree(x) && Teams.RegisterTeam(s, t).1.Ok?
    ensures var (u, r) := Teams.RegisterTeam(s, t);
      IsSubordinate(u.subs, x, y) <==>
        IsSubordinate(s.subs, x, y) || (EqualFold(x, r.value.0) && exists m :: m in r.value.1 && EqualFold(y, m))
  {
    TeamMeaning(s, t);
    var owner, members := Owner(t).address, Teams.RegisterTeam(s, t).1.value.1;
    forall m ensures SubKey(x, y) == SubKey(owner, m) <==> SameEdge(x, y, owner, m) { KeyOfEdge(x, y, owner, m); }
  }

  // ---- names ----

  /** The first that is free is taken; all before it are not. */
  lemma {:induction false} FirstFreeMeaning(taken: set<string>, domain: string, names: seq<string>) returns (k: nat)
    ensures k <= |names| && forall j :: 0 <= j < k ==> names[j] + "@" + domain in taken
    ensures if k < |names| then names[k] + "@" + domain !in taken && FirstFree(taken, domain, names) == Some(names[k])
            else FirstFree(taken, domain, names) == None
  {
    k := 0;
    if names != [] && names[0] + "@" + domain in taken {
      k := FirstFreeMeaning(taken, domain, names[1..]);
      k := k + 1;
    }
  }

  lemma EnrolOneMore(s: State, t: Team, i: nat, n: nat)
    requires n == i + 1 && Enrol(s, t, n).Some?
    ensures Enrol(s, t, i).Some? && NameFor(Enrol(s, t, i).value.0, t, i).Some?
    ensures Enrol(s, t, n).value.1 ==
      Enrol(s, t, i).value.1 + [NameFor(Enrol(s, t, i).value.0, t, i).value + "@" + t.domain]
  {
    EnrolUnfold(s, t, i, n);
    NextNamed(Enrol(s, t, i).value.0, Enrol(s, t, i).value.1, t, i);
  }

  lemma NextNamed(s: State, members: seq<string>, t: Team, i: nat)
    ensures EnrolNext(s, members, t, i).Some? <==> NameFor(s, t, i).Some?
    ensures NameFor(s, t, i).Some? ==>
      EnrolNext(s, members, t, i).value.1 == members + [NameFor(s, t, i).value + "@" + t.domain]
  {
  }

  lemma {:induction false} EarlierMembers(s: State, t: Team, i: nat, n: nat)
    requires i < n && Enrol(s, t, n).Some?
    ensures |Enrol(s, t, n).value.1| == n && Enrol(s, t, i).Some?
    ensures Enrol(s, t, i).value.1 == Enrol(s, t, n).value.1[..i]
    ensures NameFor(Enrol(s, t, i).value.0, t, i).Some?
    ensures Enrol(s, t, n).value.1[i] == NameFor(Enrol(s, t, i).value.0, t, i).value + "@" + t.domain
  {
    var m := n - 1;
    EnrolMeaning(s, t, n);
    EnrolOneMore(s, t, m, n);
    EnrolMeaning(s, t, m);
    var members, before := Enrol(s, t, n).value.1, Enrol(s, t, m).value.1;
    if i < m {
      EarlierMembers(s, t, i, m);
      assert members[..i] == before[..i];
    } else {
      assert members[..i] == before;
    }
  }

  /** The addresses in use when member i is named. */
  function TakenFor(s: State, t: Team, members: seq<string>, i: nat): set<string>
    requires i <= |members|
  {
    s.accounts.Keys + {Owner(t).address} + Elements(members[..i])
  }

  /** Each member has the first of its candidate names that is not in use. */
  lemma MemberIs(s: State, t: Team, i: nat) returns (k: nat)
    requires Teams.RegisterTeam(s, t).1.Ok? && i < t.size
    ensures var members, names := Teams.RegisterTeam(s, t).1.value.1, Candidates(t, i);
      && |members| == t.size && k < |names| && members[i] == names[k] + "@" + t.domain
      && (forall j :: 0 <= j < k ==> names[j] + "@" + t.domain in TakenFor(s, t, members, i))
      && members[i] !in TakenFor(s, t, members, i)
  {
    var start := Started(s, t);
    EarlierMembers(start, t, i, t.size);
    EnrolMeaning(start, t, i);
    var before := Enrol(start, t, i).value;
    assert before.0.accounts.Keys == TakenFor(s, t, Teams.RegisterTeam(s, t).1.value.1, i);
    k := FirstFreeMeaning(before.0.accounts.Keys, t.domain, Candidates(t, i));
  }

  /** A numeral's digits, the last one counting least. */
  ghost function ValueOf(s: string): int {
    if s == "" then 0 else 10 * ValueOf(s[..|s| - 1]) + (s[|s| - 1] as int - '0' as int)
  }

  /** A number is written in decimal digits without leading zeros. */
  lemma {:induction false} DecimalMeaning(n: nat)
    ensures ValueOf(Decimal(n)) == n && Decimal(n) != "" && (n > 0 ==> Decimal(n)[0] != '0')
    ensures forall i :: 0 <= i < |Decimal(n)| ==> '0' <= Decimal(n)[i] <= '9'
  {
    var last := ['0' + (n % 10) as char];
    assert last[..0] == "";
    if n >= 10 {
      DecimalMeaning(n / 10);
      assert (Decimal(n / 10) + last)[..|Decimal(n / 10)|] == Decimal(n / 10);
    }
  }

  /** What is tried for a member: the name that was asked for, trimmed and in lower case, then the
      same with -2 to -21, then five drawn names; or the drawn names alone. */
  lemma CandidatesMeaning(t: Team, i: nat, k: nat)
    ensures var names, asked := Candidates(t, i), if i < |t.names| then ToLower(TrimSpace(t.names[i])) else "";
      && |names| == (if asked == "" then 5 else 26)
      && (asked != "" && k < 21 ==>
           names[k] == if k == 0 then asked else asked + "-" + Decimal(k + 1))
      && (k < 5 ==> names[if asked == "" then k else 21 + k] == "bot-" + t.draw(i, k))
  {
  }

  /** The stored records: fresh uuids, the time of the registration, and the spelling of a name
      that was granted as it was asked for. */
  lemma RecordsMeaning(s: State, t: Team, i: nat)
    requires Teams.RegisterTeam(s, t).1.Ok? && i < t.size
    ensures var (u, r) := Teams.RegisterTeam(s, t);
      && |r.value.1| == t.size && r.value.1[i] in u.accounts && r.value.0 in u.accounts
      && r.value.0 == ToLower(t.username + "@" + t.domain)
      && IsRecord(u.accounts[r.value.0], t.uuid(0), r.value.0, t.now, TrimSpace(t.username))
      && IsRecord(u.accounts[r.value.1[i]], t.uuid(i + 1), r.value.1[i], t.now,
           if i < |t.names| && r.value.1[i] == ToLower(TrimSpace(t.names[i])) + "@" + t.domain
           then TrimSpace(t.names[i]) else "")
  {
    TeamMeaning(s, t);
    var name := RecordOf(Started(s, t), t, i, t.size);
    LowerIffNoCapital(TrimSpace(t.username));
    MemberRecord(t, i, name);
  }

  /** Member i has been stored with its first free name. */
  ghost predicate RecordIn(t: Team, i: nat, name: string, p: (State, seq<string>)) {
    i < |p.1| && p.1[i] == Member(t, i, name).address && p.1[i] in p.0.accounts
    && p.0.accounts[p.1[i]] == Member(t, i, name)
  }

  /** A member's record is stored as it was made, whoever is enrolled later. */
  lemma {:induction false} RecordOf(s: State, t: Team, i: nat, n: nat) returns (name: string)
    requires i < n && Enrol(s, t, n).Some?
    ensures RecordIn(t, i, name, Enrol(s, t, n).value) && name in Candidates(t, i)
  {
    var m := n - 1;
    EnrolUnfold(s, t, m, n);
    EnrolMeaning(s, t, m);
    if i < m { name := RecordOf(s, t, i, m); } else { name := NameFor(Enrol(s, t, m).value.0, t, m).value; }
    NextRecord(Enrol(s, t, m).value.0, Enrol(s, t, m).value.1, t, i, m, name);
  }

  lemma NextRecord(s: State, members: seq<string>, t: Team, i: nat, m: nat, name: string)
    requires EnrolNext(s, members, t, m).Some? && |members| == m && i <= m
    requires if i < m then RecordIn(t, i, name, (s, members)) && name in Candidates(t, i)
             else NameFor(s, t, m).value == name
    ensures RecordIn(t, i, name, EnrolNext(s, members, t, m).value) && name in Candidates(t, i)
  {
    IsFree(s.accounts.Keys, t.domain, Candidates(t, m));
  }

  lemma MemberRecord(t: Team, i: nat, name: string)
    requires name in Candidates(t, i)
    ensures IsRecord(Member(t, i, name), t.uuid(i + 1), name + "@" + t.domain, t.now,
      if i < |t.names| && name + "@" + t.domain == ToLower(TrimSpace(t.names[i])) + "@" + t.domain
      then TrimSpace(t.names[i]) else "")
  {
    if i < |t.names| {
      LowerIffNoCapital(TrimSpace(t.names[i]));
      SameStart(name, Base(t, i), "@", t.domain);
    }
  }

  lemma SameStart(a: string, b: string, at: string, domain: string)
    ensures a + at + domain == b + at + domain <==> a == b
  {
    if a + at + domain == b + at + domain {
      assert |a| == |b|;
      assert a == (a + at + domain)[..|a|] && b == (b + at + domain)[..|b|];
    }
  }

  /** asked is kept for display if it has capitals. */
  predicate IsRecord(a: Account, uuid: string, address: string, now: int, asked: string) {
    a.uuid == uuid && a.address == address && a.signature == "" && a.createdAt == now
    && a.displayLocal == if HasCapital(asked) then asked else ""
  }

  // ---- letter case ----

  /** The candidates before the random ones. */
  function Asked(t: Team, i: nat): (n: nat)
    ensures n + RANDOM_TRIES == |Candidates(t, i)|
  {
    if Base(t, i) == "" then 0 else NUMBERED
  }

  /** A member's address is lowercase exactly if the domain is, and the name either follows from
      what the caller asked for or happens to have been drawn so. */
  lemma MemberLowerIff(t: Team, i: nat, k: nat)
    requires k < |Candidates(t, i)|
    ensures IsLower(Candidates(t, i)[k] + "@" + t.domain) <==>
      IsLower(t.domain) && (k < Asked(t, i) || IsLower(t.draw(i, k - Asked(t, i))))
  {
    var name := Candidates(t, i)[k];
    LowerJoined(name + "@", t.domain);
    LowerJoined(name, "@");
    if k < Asked(t, i) {
      LowerIsLower(TrimSpace(t.names[i]));
      DecimalLower(k + 1);
      LowerJoined(Base(t, i) + "-", Decimal(k + 1));
      LowerJoined(Base(t, i), "-");
    } else {
      LowerJoined("bot-", t.draw(i, k - Asked(t, i)));
      assert IsLower("bot-");
    }
  }

  lemma {:induction false} DecimalLower(n: nat)
    ensures IsLower(Decimal(n))
  {
    if n >= 10 {
      DecimalLower(n / 10);
      LowerJoined(Decimal(n / 10), ['0' + (n % 10) as char]);
    }
  }

  predicate LowerMembers(r: Result<(string, seq<string>), Error>) {
    r.Ok? ==> forall m :: m in r.value.1 ==> IsLower(m)
  }

  /** The keys stay lowercase exactly if every member's address is. */
  lemma KeysLowerIff(s: State, t: Team)
    requires AllLower(s.accounts)
    ensures AllLower(Teams.RegisterTeam(s, t).0.accounts) <==> LowerMembers(Teams.RegisterTeam(s, t).1)
  {
    TeamMeaning(s, t);
    LowerIsLower(t.username + "@" + t.domain);
  }

  /** An account is found by its own address exactly if that is lowercase. */
  lemma FoundIffLower(accounts: map<string, Account>, l: string)
    requires ValidAccounts(accounts) && l in accounts
    ensures GetAccount(accounts, l) == Some(accounts[l]) <==> IsLower(l)
  {
    if GetAccount(accounts, l) == Some(accounts[l]) { assert accounts[ToLower(l)].uuid == accounts[l].uuid; }
  }

  /** So a registered member can log in, or be reached, under the address that was returned for
      it exactly if that is lowercase. The owner always can. */
  lemma MemberFound(s: State, t: Team, i: nat)
    requires Sound(s) && Fresh(s, RegisterTeam(t)) && Teams.RegisterTeam(s, t).1.Ok? && i < t.size
    ensures var (u, r) := Teams.RegisterTeam(s, t);
      && |r.value.1| == t.size && r.value.1[i] in u.accounts && r.value.0 in u.accounts
      && (GetAccount(u.accounts, r.value.1[i]) == Some(u.accounts[r.value.1[i]]) <==> IsLower(r.value.1[i]))
      && GetAccount(u.accounts, r.value.0) == Some(u.accounts[r.value.0])
  {
    var u, r := Teams.RegisterTeam(s, t).0, Teams.RegisterTeam(s, t).1;
    RegisterTeamSound(s, t);
    TeamMeaning(s, t);
    assert r.value.1[i] in r.value.1;
    FoundIffLower(u.accounts, r.value.1[i]);
    LowerIsLower(t.username + "@" + t.domain);
  }

  // ---- over whole runs ----

  ghost predicate StoresMixedCase(s: State, op: Op) {
    op.RegisterTeam? && !LowerMembers(Teams.RegisterTeam(s, op.team).1)
  }

  /** Since the last repair, no team was given a member name that is not lowercase. */
  ghost predicate Repaired(ops: seq<Op>) {
    if ops == [] then true
    else
      var before, op := ops[..|ops| - 1], ops[|ops| - 1];
      op.Normalize? || (Repaired(before) && !StoresMixedCase(Run(before), op))
  }

  /** That is exactly when all account keys are lowercase. */
  lemma {:induction false} KeysLowerExactly(ops: seq<Op>)
    ensures AllLower(Run(ops).accounts) <==> Repaired(ops)
  {
    if ops != [] {
      KeysLowerExactly(ops[..|ops| - 1]);
      KeysStep(Run(ops[..|ops| - 1]), ops[|ops| - 1]);
    }
  }

  lemma KeysStep(s: State, op: Op)
    ensures AllLower(Apply(s, op).accounts) <==> op.Normalize? || (AllLower(s.accounts) && !StoresMixedCase(s, op))
  {
    match op {
      case CreateAccount(uuid, name, domain, now) => CreateKeys(s, NewAccount(uuid, name, domain, now), name, domain);
      case RegisterTeam(t) => TeamKeys(s, t);
      case Normalize => SecondRunChangesNothing(s.accounts);
      case _ => OtherAccounts(s, op);
    }
  }

  lemma CreateKeys(s: State, a: Account, name: string, domain: string)
    requires a.address == ToLower(TrimSpace(name) + "@" + domain)
    ensures AllLower(StoreSpec.CreateAccount(s, a).0.accounts) <==> AllLower(s.accounts)
  {
    LowerIsLower(TrimSpace(name) + "@" + domain);
    if !AllLower(s.accounts) {
      var l :| l in s.accounts && !IsLower(l);
      assert l in StoreSpec.CreateAccount(s, a).0.accounts;
    }
  }

  lemma TeamKeys(s: State, t: Team)
    ensures AllLower(Teams.RegisterTeam(s, t).0.accounts) <==>
      AllLower(s.accounts) && LowerMembers(Teams.RegisterTeam(s, t).1)
  {
    TeamMeaning(s, t);
    if AllLower(s.accounts) {
      KeysLowerIff(s, t);
    } else {
      var l :| l in s.accounts && !IsLower(l);
      assert l in Started(s, t).accounts;
      assert l in Teams.RegisterTeam(s, t).0.accounts;
    }
  }

  lemma OtherAccounts(s: State, op: Op)
    requires !op.CreateAccount? && !op.RegisterTeam? && !op.Normalize?
    ensures Apply(s, op).accounts == s.accounts
  {
  }

  // ---- a team that nobody can reach ----

  function LoneTeam(domain: string, drawn: string, owner: string, member: string): Team {
    Team("boss", domain, 1, [], 0, i => if i == 0 then owner else member, (i, k) => drawn)
  }

  /** A first team without a list of names, and a draw with a capital letter: its member cannot
      be found under the address that was returned. */
  lemma MixedCaseMember(domain: string, drawn: string, owner: string, member: string)
    requires NulFree(domain) && NulFree(drawn) && !IsLower(drawn)
    requires |owner| == |member| == UUID_LENGTH && owner != member
    ensures var t := LoneTeam(domain, drawn, owner, member);
      && Admissible([RegisterTeam(t)]) && !AllLower(Run([RegisterTeam(t)]).accounts)
      && var r := Teams.RegisterTeam(Empty(), t).1;
        r.Ok? && |r.value.1| == 1 && GetAccount(Run([RegisterTeam(t)]).accounts, r.value.1[0]) == None
  {
    var t := LoneTeam(domain, drawn, owner, member);
    RunSnoc([], RegisterTeam(t));
    assert [] + [RegisterTeam(t)] == [RegisterTeam(t)];
    BossIsFirst(t, domain, drawn);
  }

  lemma BossIsFirst(t: Team, domain: string, drawn: string)
    requires t.username == "boss" && t.domain == domain && t.size == 1 && t.names == [] && t.draw(0, 0) == drawn
    requires !IsLower(drawn)
    ensures var (u, r) := Teams.RegisterTeam(Empty(), t);
      r.Ok? && |r.value.1| == 1 && !AllLower(u.accounts) && GetAccount(u.accounts, r.value.1[0]) == None
  {
    var m := "bot-" + drawn + "@" + domain;
    assert Candidates(t, 0)[0] == "bot-" + drawn;
    MemberLowerIff(t, 0, 0);
    assert Owner(t).address[2] == 's' && m[2] == 't' && ToLower(m)[2] == 't';
    BossAccepted(t, m);
    BossAndOne(Empty(), t, 0, m);
  }

  lemma BossAccepted(t: Team, m: string)
    requires t.size == 1 && t.names == [] && m == Candidates(t, 0)[0] + "@" + t.domain && m != Owner(t).address
    ensures Teams.RegisterTeam(Empty(), t).1.Ok?
  {
    TeamRefused(Empty(), t);
    assert Candidates(t, 0)[0] in Candidates(t, 0);
    assert !Nameless(Empty(), t, 0);
  }

  lemma BossAndOne(s: State, t: Team, i: nat, m: string)
    requires s.accounts == map[] && t.size == 1 && i == 0 && m == Candidates(t, i)[0] + "@" + t.domain
    requires Teams.RegisterTeam(s, t).1.Ok? && m != Owner(t).address && ToLower(m) != Owner(t).address && !IsLower(m)
    ensures var (u, r) := Teams.RegisterTeam(s, t);
      |r.value.1| == 1 && !AllLower(u.accounts) && GetAccount(u.accounts, r.value.1[0]) == None
  {
    var r := Teams.RegisterTeam(s, t).1;
    var k := MemberIs(s, t, i);
    assert r.value.1 == [m];
    TwoKeys(s, t, m, Teams.RegisterTeam(s, t).0, r.value.1);
  }

  lemma TwoKeys(s: State, t: Team, m: string, u: State, members: seq<string>)
    requires s.accounts == map[] && members == [m] && ToLower(m) != Owner(t).address && !IsLower(m)
    requires Teams.RegisterTeam(s, t) == (u, Ok((Owner(t).address, members)))
    ensures !AllLower(u.accounts) && GetAccount(u.accounts, m) == None
  {
    TeamMeaning(s, t);
    assert m in members;
    assert forall l :: l in u.accounts <==> l == Owner(t).address || l == m;
  }
}
