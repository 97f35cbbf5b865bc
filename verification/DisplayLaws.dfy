/** The spelling of a local part that an account keeps for display. */
module DisplayLaws {
  import opened Wrappers
  import opened Text
  import opened Directory
  import opened AccountCase
  import opened StoreSpec
  import opened Teams
  import opened StoreRuns
  import opened TeamLaws

  /** The display spelling, if there is one, is a spelling of the local part. */
  predicate Displayed(a: Account) {
    a.displayLocal == "" || ToLower(a.displayLocal) + "@" <= a.address
  }

  ghost predicate AllDisplayed(accounts: map<string, Account>) {
    forall l :: l in accounts ==> Displayed(accounts[l])
  }

  ghost predicate Addressed(accounts: map<string, Account>) {
    forall l :: l in accounts ==> accounts[l].address == l
  }

  /** The owner's spelling is kept right exactly if its username comes without spaces around it,
      or has no capital letters. */
  predicate OwnerFits(t: Team) {
    Display(TrimSpace(t.username)) == "" || TrimSpace(t.username) == t.username
  }

  lemma LowerPrefix(u: string, domain: string)
    ensures ToLower(u) + "@" <= ToLower(u + "@" + domain)
  {
    assert ToLower(u + "@" + domain) == ToLower(u) + "@" + ToLower(domain);
  }

  lemma OwnerDisplayed(t: Team)
    ensures Displayed(Owner(t)) <==> OwnerFits(t)
  {
    var u, w := t.username, TrimSpace(t.username);
    LowerPrefix(u, t.domain);
    if w != u && Display(w) != "" {
      var i, j := TrimMeaning(u);
      assert ToLower(u + "@" + t.domain) == ToLower(u) + "@" + ToLower(t.domain);
      if i > 0 {
        assert IsSpace(u[0]) && ToLower(u)[0] == u[0];
        assert !IsSpace(u[i]) && w[0] == u[i] && ToLower(w)[0] != u[0];
        assert (ToLower(w) + "@")[0] == ToLower(w)[0];
      } else {
        assert |w| == j < |u| && IsSpace(u[j]);
        assert (ToLower(w) + "@")[j] == '@' && Owner(t).address[j] == ToLower(u)[j] == u[j];
      }
    }
  }

  lemma MemberDisplayed(t: Team, i: nat, name: string)
    ensures Displayed(Member(t, i, name))
  {
  }

  lemma CreatedDisplayed(uuid: string, name: string, domain: string, now: int)
    ensures Displayed(NewAccount(uuid, name, domain, now))
  {
    LowerPrefix(TrimSpace(name), domain);
  }

  lemma {:induction false} EnrolDisplayed(s: State, t: Team, n: nat)
    requires Enrol(s, t, n).Some? && Addressed(s.accounts)
    ensures Addressed(Enrol(s, t, n).value.0.accounts)
    ensures AllDisplayed(Enrol(s, t, n).value.0.accounts) <==> AllDisplayed(s.accounts)
  {
    if n > 0 {
      var before := Enrol(s, t, n - 1).value;
      EnrolDisplayed(s, t, n - 1);
      NextDisplayed(before.0, before.1, t, n - 1);
    }
  }

  lemma NextDisplayed(s: State, members: seq<string>, t: Team, i: nat)
    requires EnrolNext(s, members, t, i).Some? && Addressed(s.accounts)
    ensures Addressed(EnrolNext(s, members, t, i).value.0.accounts)
    ensures AllDisplayed(EnrolNext(s, members, t, i).value.0.accounts) <==> AllDisplayed(s.accounts)
  {
    IsFree(s.accounts.Keys, t.domain, Candidates(t, i));
    MemberDisplayed(t, i, NameFor(s, t, i).value);
    OneMoreDisplayed(s.accounts, Member(t, i, NameFor(s, t, i).value));
  }

  lemma OneMoreDisplayed(accounts: map<string, Account>, a: Account)
    requires a.address !in accounts
    ensures AllDisplayed(accounts[a.address := a]) <==> AllDisplayed(accounts) && Displayed(a)
    ensures Addressed(accounts) ==> Addressed(accounts[a.address := a])
  {
    var more := accounts[a.address := a];
    assert a.address in more;
    if AllDisplayed(more) {
      forall l | l in accounts ensures Displayed(accounts[l]) { assert l in more && more[l] == accounts[l]; }
    }
  }

  // ---- over whole runs ----

  /** Records carry their own key, and only those under lowercase keys can have a display spelling
      that does not fit. */
  ghost predicate DisplaySound(accounts: map<string, Account>) {
    && Addressed(accounts)
    && forall l :: l in accounts && !Displayed(accounts[l]) ==> IsLower(l)
  }

  ghost predicate MisfitOwner(s: State, op: Op) {
    op.RegisterTeam? && Teams.RegisterTeam(s, op.team).1.Ok? && !OwnerFits(op.team)
  }

  ghost predicate OwnersFit(ops: seq<Op>) {
    ops == [] || (OwnersFit(ops[..|ops| - 1]) && !MisfitOwner(Run(ops[..|ops| - 1]), ops[|ops| - 1]))
  }

  /** Every display spelling fits exactly if no team was registered by an owner that does not. */
  lemma {:induction false} DisplayExactly(ops: seq<Op>)
    ensures DisplaySound(Run(ops).accounts) && (AllDisplayed(Run(ops).accounts) <==> OwnersFit(ops))
  {
    if ops != [] {
      DisplayExactly(ops[..|ops| - 1]);
      DisplayStep(Run(ops[..|ops| - 1]), ops[|ops| - 1]);
    }
  }

  ghost predicate StaysDisplayed(accounts: map<string, Account>, more: map<string, Account>, misfit: bool) {
    DisplaySound(more) && (AllDisplayed(more) <==> AllDisplayed(accounts) && !misfit)
  }

  lemma DisplayStep(s: State, op: Op)
    requires DisplaySound(s.accounts)
    ensures StaysDisplayed(s.accounts, Apply(s, op).accounts, MisfitOwner(s, op))
  {
    match op {
      case CreateAccount(uuid, name, domain, now) =>
        CreatedDisplayed(uuid, name, domain, now);
        AddDisplayed(s.accounts, NewAccount(uuid, name, domain, now));
      case RegisterTeam(t) => TeamDisplayed(s, t);
      case Normalize => NormalizedDisplayed(s.accounts);
      case _ => OtherAccounts(s, op);
    }
  }

  lemma AddDisplayed(accounts: map<string, Account>, a: Account)
    requires DisplaySound(accounts) && Displayed(a)
    ensures a.address !in accounts ==> StaysDisplayed(accounts, accounts[a.address := a], false)
  {
    if a.address !in accounts { OneMoreDisplayed(accounts, a); }
  }

  lemma TeamDisplayed(s: State, t: Team)
    requires DisplaySound(s.accounts)
    ensures StaysDisplayed(s.accounts, Teams.RegisterTeam(s, t).0.accounts, MisfitOwner(s, RegisterTeam(t)))
  {
    if Teams.RegisterTeam(s, t).1.Ok? {
      var start := Started(s, t);
      OwnerDisplayed(t);
      OneMoreDisplayed(s.accounts, Owner(t));
      LowerIsLower(t.username + "@" + t.domain);
      EnrolDisplayed(start, t, t.size);
      EnrolMisfits(start, t, t.size);
    }
  }

  lemma {:induction false} EnrolMisfits(s: State, t: Team, n: nat)
    requires Enrol(s, t, n).Some? && DisplaySound(s.accounts)
    ensures DisplaySound(Enrol(s, t, n).value.0.accounts)
  {
    if n > 0 {
      EnrolMisfits(s, t, n - 1);
      var before := Enrol(s, t, n - 1).value;
      IsFree(before.0.accounts.Keys, t.domain, Candidates(t, n - 1));
      AddDisplayed(before.0.accounts, Member(t, n - 1, NameFor(before.0, t, n - 1).value));
    }
  }

  lemma NormalizedDisplayed(accounts: map<string, Account>)
    requires DisplaySound(accounts)
    ensures StaysDisplayed(accounts, Normalized(accounts), false)
  {
    var n := Normalized(accounts);
    forall l | l in n
      ensures n[l].address == l && (l in accounts ==> n[l] == accounts[l]) && (l !in accounts ==> Displayed(n[l]))
    {
      var k :| k in accounts && ToLower(k) == l;
      LowerIsLower(k);
      if l !in accounts { MovedDisplayed(accounts, First(accounts, l)); }
    }
    forall l | l in accounts && !Displayed(accounts[l]) ensures l in n && n[l] == accounts[l] {
      assert l in LowerKeys(accounts);
    }
  }

  lemma MovedDisplayed(accounts: map<string, Account>, k: string)
    requires Addressed(accounts) && k in accounts && Displayed(accounts[k])
    ensures Displayed(accounts[k].(address := ToLower(k)))
  {
    var d := accounts[k].displayLocal;
    if d != "" {
      var p := ToLower(d) + "@";
      LowerIsLower(d);
      forall i | 0 <= i < |p| ensures ToLower(k)[i] == p[i] {
        assert k[i] == p[i];
        if i < |d| { assert ToLower(ToLower(d))[i] == ToLower(d)[i]; }
      }
    }
  }
}
