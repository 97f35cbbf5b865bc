/** Registering a team: an owner, its members and the edges between them, in one transaction. */
module Teams {
  import opened Wrappers
  import opened Text
  import opened Sequences
  import opened Directory
  import opened Subs
  import opened StoreSpec

  const RANDOM_TRIES: nat := 5
  const NUMBERED: nat := 21

  /** uuid(0) is the owner's, uuid(i + 1) member i's; draw(i, k) is the k-th random name that is
      drawn for member i. */
  datatype Team = Team(username: string, domain: string, size: int, names: seq<string>, now: int,
    uuid: nat -> string, draw: (nat, nat) -> string)

  // ---- names ----

  function Decimal(n: nat): string {
    var digit := ['0' + (n % 10) as char];
    if n < 10 then digit else Decimal(n / 10) + digit
  }

  function Candidate(base: string, k: nat): string {
    if k == 0 then base else base + "-" + Decimal(k + 1)
  }

  function Random(t: Team, i: nat): seq<string> {
    seq(RANDOM_TRIES, k requires 0 <= k < RANDOM_TRIES => "bot-" + t.draw(i, k))
  }

  /** What the caller wants member i to be called, or "". */
  function Base(t: Team, i: nat): string {
    if i < |t.names| then ToLower(TrimSpace(t.names[i])) else ""
  }

  function Numbered(base: string): seq<string> {
    seq(NUMBERED, k requires 0 <= k < NUMBERED => Candidate(base, k))
  }

  /** The names that are tried for member i, in this order. */
  function Candidates(t: Team, i: nat): seq<string> {
    if Base(t, i) == "" then Random(t, i) else Numbered(Base(t, i)) + Random(t, i)
  }

  function FirstFree(taken: set<string>, domain: string, names: seq<string>): Option<string> {
    if names == [] then None
    else if names[0] + "@" + domain !in taken then Some(names[0])
    else FirstFree(taken, domain, names[1..])
  }

  /** claimed are the addresses given out by this transaction. */
  method AllocateMemberName(taken: set<string>, claimed: set<string>, t: Team, i: nat) returns (name: Option<string>)
    requires claimed <= taken
    ensures name == FirstFree(taken, t.domain, Candidates(t, i))
  {
    var base := "";
    if i < |t.names| { base := ToLower(TrimSpace(t.names[i])); }
    if base == "" {
      name := AllocateRandom(taken, claimed, t, i);
      return;
    }
    var cand, attempt := base, 0;
    ghost var tried := Candidates(t, i);
    while true
      invariant attempt < NUMBERED && cand == Candidate(base, attempt)
      invariant FirstFree(taken, t.domain, tried) == FirstFree(taken, t.domain, tried[attempt..])
      decreases NUMBERED - attempt
    {
      var addr := cand + "@" + t.domain;
      DropOne(tried, attempt);
      if addr !in claimed && addr !in taken { return Some(cand); }
      if attempt >= 20 { break; }
      cand := base + "-" + Decimal(attempt + 2);
      attempt := attempt + 1;
    }
    assert tried[NUMBERED..] == Random(t, i);
    name := AllocateRandom(taken, claimed, t, i);
  }

  method AllocateRandom(taken: set<string>, claimed: set<string>, t: Team, i: nat) returns (name: Option<string>)
    requires claimed <= taken
    ensures name == FirstFree(taken, t.domain, Random(t, i))
  {
    ghost var tried := Random(t, i);
    for attempt := 0 to 5
      invariant FirstFree(taken, t.domain, tried) == FirstFree(taken, t.domain, tried[attempt..])
    {
      var cand := "bot-" + t.draw(i, attempt);
      var addr := cand + "@" + t.domain;
      DropOne(tried, attempt);
      if addr !in claimed && addr !in taken { return Some(cand); }
    }
    name := None;
  }

  // ---- the transaction ----

  function Owner(t: Team): Account {
    Account(t.uuid(0), ToLower(t.username + "@" + t.domain), "", Display(TrimSpace(t.username)), t.now)
  }

  /** A member that got the name it asked for keeps its spelling. */
  function Member(t: Team, i: nat, name: string): Account {
    Account(t.uuid(i + 1), name + "@" + t.domain, "",
      if i < |t.names| && name == Base(t, i) then Display(TrimSpace(t.names[i])) else "", t.now)
  }

  function Enlist(s: State, superior: string, a: Account): State {
    s.(accounts := s.accounts[a.address := a],
       subs := s.subs[SubKey(superior, a.address) := SubRecord("both", a.createdAt)])
  }

  function NameFor(s: State, t: Team, i: nat): Option<string> {
    FirstFree(s.accounts.Keys, t.domain, Candidates(t, i))
  }

  /** The first n members: their addresses, unless some member finds no name. */
  function Enrol(s: State, t: Team, n: nat): Option<(State, seq<string>)> {
    if n == 0 then Some((s, []))
    else
      var before := Enrol(s, t, n - 1);
      if before.None? then None else EnrolNext(before.value.0, before.value.1, t, n - 1)
  }

  function EnrolNext(s: State, members: seq<string>, t: Team, i: nat): Option<(State, seq<string>)> {
    var name := NameFor(s, t, i);
    if name.None? then None
    else
      var a := Member(t, i, name.value);
      Some((Enlist(s, Owner(t).address, a), members + [a.address]))
  }

  lemma {:induction false} StaysNone(s: State, t: Team, n: nat, m: nat)
    requires n <= m && Enrol(s, t, n) == None
    ensures Enrol(s, t, m) == None
  {
    if n < m { StaysNone(s, t, n, m - 1); }
  }

  predicate WellSized(t: Team) {
    1 <= t.size <= 10 && (t.names == [] || |t.names| == t.size)
  }

  /** The addresses of the owner and of the members; nothing is stored if there is an error. */
  function RegisterTeam(s: State, t: Team): (State, Result<(string, seq<string>), Error>) {
    if !WellSized(t) then (s, Err(BadTeam))
    else if Owner(t).address in s.accounts then (s, Err(AccountExists))
    else
      var r := Enrol(s.(accounts := s.accounts[Owner(t).address := Owner(t)]), t, t.size);
      if r.None? then (s, Err(NoMemberName)) else (r.value.0, Ok((Owner(t).address, r.value.1)))
  }

  /** Mail and files are not touched. */
  lemma RegisterFrame(s: State, t: Team)
    ensures var u := RegisterTeam(s, t).0; u.box == s.box && u.shelf == s.shelf && u.lastRead == s.lastRead
  {
    var start := s.(accounts := s.accounts[Owner(t).address := Owner(t)]);
    if t.size >= 0 && Enrol(start, t, t.size).Some? { EnrolFrame(start, t, t.size); }
  }

  lemma {:induction false} EnrolFrame(s: State, t: Team, n: nat)
    requires Enrol(s, t, n).Some?
    ensures var u := Enrol(s, t, n).value.0; u.box == s.box && u.shelf == s.shelf && u.lastRead == s.lastRead
  {
    if n > 0 { EnrolFrame(s, t, n - 1); }
  }
}
