/** Runs of the store: any sequence of transactions, and what all of them keep. */
module StoreRuns {
  import opened Wrappers
  import opened Text
  import opened Sequences
  import opened Mail
  import opened Directory
  import opened Mailbox
  import opened IndexKeys
  import opened Files
  import opened Subs
  import opened StoreSpec
  import opened AccountCase
  import opened Teams

  // ---- transactions ----

  /** One write transaction with its inputs. The two-transaction operations appear by their
      second half, with whatever their first half may have seen. */
  datatype Op =
    | CreateAccount(uuid: string, name: string, domain: string, now: int)
    | RegisterTeam(team: Team)
    | Normalize
    | Send(m: Message)
    | SendWithAttachments(m: Message, attachIDs: seq<string>)
    | Declare(superior: string, subordinate: string, now: int)
    | Revoke(superior: string, subordinate: string)
    | Remove(caller: string, other: string, id: string, subject: string, body: string, now: int)
    | Clear(uuid: string, ids: set<string>, now: int)
    | Touch(address: string, now: int)
    | Save(f: FileRecord, content: Bytes, quota: int, cap: int)
    | Delete(fileID: string, owner: string)
    | Extend(fileID: string, owner: string, now: int)
    | Sweep(doomed: set<string>)

  ghost function Apply(s: State, op: Op): State {
    match op
    case CreateAccount(uuid, name, domain, now) =>
      StoreSpec.CreateAccount(s, NewAccount(uuid, name, domain, now)).0
    case RegisterTeam(t) => Teams.RegisterTeam(s, t).0
    case Normalize => s.(accounts := Normalized(s.accounts))
    case Send(m) => StoreSpec.Send(s, m).0
    case SendWithAttachments(m, ids) => StoreSpec.SendWithAttachments(s, m, ids).0
    case Declare(superior, subordinate, now) => StoreSpec.Declare(s, superior, subordinate, now).0
    case Revoke(superior, subordinate) => StoreSpec.Revoke(s, superior, subordinate)
    case Remove(caller, other, id, subject, body, now) =>
      StoreSpec.Remove(s, caller, other, Notice(id, now, caller, other, subject, body)).0
    case Clear(uuid, ids, now) => ClearRead(s, uuid, RefsWith(uuid, ids), now)
    case Touch(address, now) => StoreSpec.Touch(s, address, now)
    case Save(f, content, quota, cap) => SaveFile(s, f, content, quota, cap).0
    case Delete(id, owner) => DeleteFile(s, id, owner).0
    case Extend(id, owner, now) => ExtendFile(s, id, owner, now).0
    case Sweep(doomed) => StoreSpec.Sweep(s, doomed)
  }

  /** New uuids and ids are fresh. A send may still collide: it checks for that. */
  ghost predicate Fresh(s: State, op: Op) {
    match op
    case CreateAccount(uuid, name, domain, _) =>
      NulFree(name) && NulFree(domain) && Unused(s.accounts, uuid)
    case RegisterTeam(t) =>
      CleanTeam(t) && forall i: nat :: i <= t.size ==> Unused(s.accounts, t.uuid(i))
    case Send(m) => m.attachments == []
    case SendWithAttachments(m, _) => m.attachments == []
    case Remove(_, _, id, _, _, _) => id !in s.box.messages
    case Save(f, content, _, _) => f.size == |content| && f.id !in s.shelf.files && !Mentioned(s.box.messages, f.id)
    case _ => true
  }

  ghost predicate CleanTeam(t: Team) {
    && NulFree(t.username) && NulFree(t.domain) && (forall name :: name in t.names ==> NulFree(name))
    && (forall i, k {:trigger t.draw(i, k)} :: NulFree(t.draw(i, k)))
    && (forall i: nat, j: nat :: i < j <= t.size ==> t.uuid(i) != t.uuid(j))
  }

  ghost predicate Unused(accounts: map<string, Account>, uuid: string) {
    |uuid| == UUID_LENGTH && forall l :: l in accounts ==> accounts[l].uuid != uuid
  }

  /** The id of a file that some message carries, live or not. */
  ghost predicate Mentioned(msgs: map<string, Message>, id: string) {
    exists mid, a :: mid in msgs && a in msgs[mid].attachments && a.id == id
  }

  ghost function Run(ops: seq<Op>): State {
    if ops == [] then Empty() else Apply(Run(ops[..|ops| - 1]), ops[|ops| - 1])
  }

  ghost predicate Admissible(ops: seq<Op>) {
    ops == [] || (Admissible(ops[..|ops| - 1]) && Fresh(Run(ops[..|ops| - 1]), ops[|ops| - 1]))
  }

  lemma RunSnoc(ops: seq<Op>, op: Op)
    ensures Run(ops + [op]) == Apply(Run(ops), op)
    ensures Admissible(ops + [op]) <==> Admissible(ops) && Fresh(Run(ops), op)
  {
    TakeInit(ops, op);
  }

  // ---- the invariant ----

  /** u is the uuid of an account that lookups find: one under a lowercase key. */
  ghost predicate Found(accounts: map<string, Account>, u: string) {
    exists l :: l in accounts && IsLower(l) && accounts[l].uuid == u
  }

  /** Every index entry belongs to such an account. */
  ghost predicate Owned(accounts: map<string, Account>, refs: set<Ref>) {
    forall r :: r in refs ==> Found(accounts, r.uuid)
  }

  /** Not that keys are lowercase: teams may be registered under others. */
  ghost predicate AccountsSound(s: State) {
    && ValidAccounts(s.accounts) && Uniform(s)
    && Owned(s.accounts, s.box.inbox) && Owned(s.accounts, s.box.sent)
    && forall l :: l in s.accounts ==> NulFree(l)
  }

  /** If the attached file is still there, the embedded code opens it to every account that
      holds the message in its inbox. */
  ghost predicate ServedAt(s: State, mid: string, a: Attachment) {
    a.id in s.shelf.files ==>
      && s.shelf.files[a.id].accessCode == a.accessCode
      && forall l :: l in s.accounts && Ref(s.accounts[l].uuid, mid) in s.box.inbox ==>
        Permitted(s.shelf.files[a.id], l)
  }

  ghost predicate Served(s: State) {
    forall mid, a {:trigger ServedAt(s, mid, a)} ::
      mid in s.box.messages && a in s.box.messages[mid].attachments ==> ServedAt(s, mid, a)
  }

  ghost predicate Sound(s: State) {
    AccountsSound(s) && ValidSubs(s.subs) && ValidBox(s.box) && ValidShelf(s.shelf) && Served(s)
  }

  // ---- accounts ----

  lemma PostedAccounts(s: State, m: Message)
    requires AccountsSound(s) && s.box.unread <= s.box.inbox
    ensures AccountsSound(Posted(s, m))
  {
    var to, from := RecipientUuids(s.accounts, m), SenderUuids(s.accounts, m.from);
    RecipientsLower(s.accounts, m.to + m.cc);
    LowerIsLower(m.from);
    forall r | r in RefsTo(to, m.id) + RefsTo(from, m.id) ensures Found(s.accounts, r.uuid) && |r.uuid| == UUID_LENGTH {
      var l :| l in s.accounts && IsLower(l) && s.accounts[l].uuid == r.uuid;
    }
  }

  lemma OwnedKept(accounts: map<string, Account>, more: map<string, Account>, refs: set<Ref>)
    requires Owned(accounts, refs) && StillFound(accounts, more)
    ensures Owned(more, refs)
  {
    forall r | r in refs ensures Found(more, r.uuid) {
      var l :| l in accounts && IsLower(l) && accounts[l].uuid == r.uuid;
      assert more[l].uuid == r.uuid;
    }
  }

  lemma AddAccountSound(s: State, a: Account)
    requires AccountsSound(s) && a.address !in s.accounts && NulFree(a.address) && Unused(s.accounts, a.uuid)
    ensures AccountsSound(s.(accounts := s.accounts[a.address := a]))
  {
    OwnedKept(s.accounts, s.accounts[a.address := a], s.box.inbox);
    OwnedKept(s.accounts, s.accounts[a.address := a], s.box.sent);
  }

  lemma DeclareSound(s: State, superior: string, subordinate: string, now: int)
    requires AccountsSound(s) && ValidSubs(s.subs)
    ensures ValidSubs(StoreSpec.Declare(s, superior, subordinate, now).0.subs)
  {
    if ToLower(superior) in s.accounts && ToLower(subordinate) in s.accounts {
      LowerNulFree(superior);
      LowerNulFree(subordinate);
      KeyIsJoined(superior, subordinate);
    }
  }

  // ---- attachments ----

  /** The files of t are files of s with their codes and all their readers. */
  ghost predicate StillServes(s: map<string, FileRecord>, t: map<string, FileRecord>) {
    forall id :: id in t ==> id in s && KeepsReaders(s[id], t[id])
  }

  ghost predicate KeepsReaders(f: FileRecord, g: FileRecord) {
    g.accessCode == f.accessCode && g.owner == f.owner && forall l :: Permitted(f, l) ==> Permitted(g, l)
  }

  lemma ServedKept(s: State, t: State)
    requires Served(s) && t.accounts == s.accounts && t.box.messages == s.box.messages && t.box.inbox == s.box.inbox
    requires StillServes(s.shelf.files, t.shelf.files)
    ensures Served(t)
  {
    forall mid, a | mid in t.box.messages && a in t.box.messages[mid].attachments ensures ServedAt(t, mid, a) {
      assert ServedAt(s, mid, a);
    }
  }

  lemma RecipientsLower(accounts: map<string, Account>, addrs: seq<string>)
    ensures forall l :: l in Recipients(accounts, addrs) ==> IsLower(l)
  {
    forall l | l in Recipients(accounts, addrs) ensures IsLower(l) {
      var a :| a in addrs && ToLower(a) == l;
      LowerIsLower(a);
    }
  }

  lemma GrantedServes(s: State, m: Message, ids: seq<string>)
    ensures StillServes(s.shelf.files, Granted(s, m, ids).shelf.files)
    ensures forall id, l :: id in ids && id in s.shelf.files && l in Recipients(s.accounts, m.to + m.cc) ==>
      Permitted(Granted(s, m, ids).shelf.files[id], l)
  {
    var files, names := s.shelf.files, Recipients(s.accounts, m.to + m.cc);
    RecipientsLower(s.accounts, m.to + m.cc);
    forall id | id in files ensures KeepsReaders(files[id], Grant(files[id], names)) {
      forall l | Permitted(files[id], l) ensures Permitted(Grant(files[id], names), l) {
        GrantPermits(files[id], names, l);
      }
    }
    forall id, l | id in ids && id in files && l in names ensures Permitted(Grant(files[id], names), l) {
      assert IsLower(l);
      GrantPermits(files[id], names, l);
    }
  }

  /** m's attachments serve everyone m is about to reach. */
  ghost predicate ServesRecipients(s: State, m: Message) {
    forall a :: a in m.attachments && a.id in s.shelf.files ==>
      && s.shelf.files[a.id].accessCode == a.accessCode
      && forall l :: l in Recipients(s.accounts, m.to + m.cc) ==> Permitted(s.shelf.files[a.id], l)
  }

  lemma PostedServed(s: State, m: Message)
    requires Served(s) && ValidAccounts(s.accounts) && RefsResolve(s.box) && m.id !in s.box.messages
    requires ServesRecipients(s, m)
    ensures Served(Posted(s, m))
  {
    var t := Posted(s, m);
    forall mid, a | mid in t.box.messages && a in t.box.messages[mid].attachments ensures ServedAt(t, mid, a) {
      if mid != m.id {
        assert ServedAt(s, mid, a);
      } else if a.id in s.shelf.files {
        forall l | l in s.accounts && Ref(s.accounts[l].uuid, mid) in t.box.inbox
          ensures l in Recipients(s.accounts, m.to + m.cc) { Reaches(s, m, l); }
      }
    }
  }

  /** Only the accounts that m names get an entry for it. */
  lemma Reaches(s: State, m: Message, l: string)
    requires ValidAccounts(s.accounts) && RefsResolve(s.box) && m.id !in s.box.messages
    requires l in s.accounts && Ref(s.accounts[l].uuid, m.id) in Posted(s, m).box.inbox
    ensures l in Recipients(s.accounts, m.to + m.cc)
  {
    var u := s.accounts[l].uuid;
    assert Ref(u, m.id) !in s.box.inbox;
    assert u in RecipientUuids(s.accounts, m);
    var k :| k in Recipients(s.accounts, m.to + m.cc) && s.accounts[k].uuid == u;
  }

  /** An account that had no entries before may get a new key or a new record. */
  lemma RekeyedServed(s: State, accounts: map<string, Account>)
    requires Served(s)
    requires forall l, mid :: l in accounts && Ref(accounts[l].uuid, mid) in s.box.inbox ==>
      l in s.accounts && s.accounts[l].uuid == accounts[l].uuid
    ensures Served(s.(accounts := accounts))
  {
    var t := s.(accounts := accounts);
    forall mid, x | mid in t.box.messages && x in t.box.messages[mid].attachments ensures ServedAt(t, mid, x) {
      assert ServedAt(s, mid, x);
    }
  }

  lemma SaveServed(s: State, f: FileRecord, content: Bytes)
    requires Served(s) && !Mentioned(s.box.messages, f.id)
    ensures Served(s.(shelf := Files.Save(s.shelf, f, content)))
  {
    var t := s.(shelf := Files.Save(s.shelf, f, content));
    forall mid, a | mid in t.box.messages && a in t.box.messages[mid].attachments ensures ServedAt(t, mid, a) {
      assert ServedAt(s, mid, a);
    }
  }

  // ---- every transaction keeps the invariant ----

  lemma AddSound(s: State, a: Account)
    requires Sound(s) && a.address !in s.accounts && NulFree(a.address) && Unused(s.accounts, a.uuid)
    ensures Sound(s.(accounts := s.accounts[a.address := a]))
  {
    var more := s.accounts[a.address := a];
    AddAccountSound(s, a);
    forall l, mid | l in more && Ref(more[l].uuid, mid) in s.box.inbox
      ensures l in s.accounts && s.accounts[l].uuid == more[l].uuid
    {
      assert Found(s.accounts, more[l].uuid);
    }
    RekeyedServed(s, more);
  }

  lemma CreateSound(s: State, op: Op)
    requires Sound(s) && Fresh(s, op) && op.CreateAccount?
    ensures Sound(Apply(s, op))
  {
    var a := NewAccount(op.uuid, op.name, op.domain, op.now);
    TrimmedNulFree(op.name);
    LowerNulFree(TrimSpace(op.name) + "@" + op.domain);
    if a.address !in s.accounts { AddSound(s, a); }
  }

  lemma TrimmedNulFree(name: string)
    requires NulFree(name)
    ensures NulFree(TrimSpace(name))
  {
    var i, j := TrimMeaning(name);
  }

  lemma NormalizeSound(s: State)
    requires Sound(s)
    ensures Sound(s.(accounts := Normalized(s.accounts)))
  {
    var n := Normalized(s.accounts);
    NormalizedAccounts(s.accounts);
    OwnedKept(s.accounts, n, s.box.inbox);
    OwnedKept(s.accounts, n, s.box.sent);
    forall l, mid | l in n && Ref(n[l].uuid, mid) in s.box.inbox
      ensures l in s.accounts && s.accounts[l].uuid == n[l].uuid
    {
      var k :| k in s.accounts && IsLower(k) && s.accounts[k].uuid == n[l].uuid;
      assert n[k] == s.accounts[k];
    }
    RekeyedServed(s, n);
  }

  /** Each record that is kept is one of those there were, the lowercase ones as they are. */
  lemma NormalizedAccounts(accounts: map<string, Account>)
    requires ValidAccounts(accounts) && forall l :: l in accounts ==> NulFree(l)
    ensures var n := Normalized(accounts);
      && ValidAccounts(n) && (forall l :: l in n ==> NulFree(l))
      && (forall l :: l in n ==> exists k :: k in accounts && accounts[k].uuid == n[l].uuid)
      && (forall l :: l in accounts && IsLower(l) ==> l in n && n[l] == accounts[l])
  {
    var n := Normalized(accounts);
    forall l | l in n
      ensures NulFree(l) && exists k :: k in accounts && ToLower(k) == l && accounts[k].uuid == n[l].uuid
    {
      NormalizedFrom(accounts, l);
    }
    forall l, j | l in n && j in n && n[l].uuid == n[j].uuid ensures l == j {
      var k :| k in accounts && ToLower(k) == l && accounts[k].uuid == n[l].uuid;
    }
  }

  lemma NormalizedFrom(accounts: map<string, Account>, l: string)
    requires l in Normalized(accounts) && forall l :: l in accounts ==> NulFree(l)
    ensures NulFree(l)
    ensures exists k :: k in accounts && ToLower(k) == l && accounts[k].uuid == Normalized(accounts)[l].uuid
  {
    var j :| j in accounts && ToLower(j) == l;
    LowerNulFree(j);
    LowerIsLower(j);
    var k := if l in accounts then l else First(accounts, l);
    assert ToLower(k) == l && accounts[k].uuid == Normalized(accounts)[l].uuid;
  }

  // ---- teams ----

  lemma RegisterTeamSound(s: State, t: Team)
    requires Sound(s) && Fresh(s, RegisterTeam(t))
    ensures Sound(Teams.RegisterTeam(s, t).0)
  {
    var owner := Owner(t);
    if WellSized(t) && owner.address !in s.accounts {
      LowerNulFree(t.username + "@" + t.domain);
      AddSound(s, owner);
      var start := s.(accounts := s.accounts[owner.address := owner]);
      if Enrol(start, t, t.size).Some? { EnrolSound(start, t, t.size); }
    }
  }

  /** The uuids of the members from n on are still unused. */
  ghost predicate Ahead(s: State, t: Team, n: nat) {
    forall i: nat :: n < i <= t.size ==> Unused(s.accounts, t.uuid(i))
  }

  lemma {:induction false} EnrolSound(s: State, t: Team, n: nat)
    requires Sound(s) && CleanTeam(t) && Ahead(s, t, 0) && n <= t.size && Enrol(s, t, n).Some?
    ensures Sound(Enrol(s, t, n).value.0) && Ahead(Enrol(s, t, n).value.0, t, n)
  {
    if n > 0 {
      var i := n - 1;
      EnrolSound(s, t, i);
      var before := Enrol(s, t, i).value.0;
      var name := NameFor(before, t, i).value;
      IsFree(before.accounts.Keys, t.domain, Candidates(t, i));
      CandidatesNulFree(t, i, name);
      EnlistSound(before, t, i, n, name);
    }
  }

  lemma EnlistSound(s: State, t: Team, i: nat, n: nat, name: string)
    requires Sound(s) && CleanTeam(t) && Ahead(s, t, i) && n == i + 1 <= t.size
    requires NulFree(name) && name + "@" + t.domain !in s.accounts
    ensures Sound(Enlist(s, Owner(t).address, Member(t, i, name)))
    ensures Ahead(Enlist(s, Owner(t).address, Member(t, i, name)), t, n)
  {
    var a := Member(t, i, name);
    AddSound(s, a);
    LowerNulFree(t.username + "@" + t.domain);
    KeyIsJoined(Owner(t).address, a.address);
    GraphSound(s.(accounts := s.accounts[a.address := a]), Enlist(s, Owner(t).address, a));
  }

  lemma KeyIsJoined(superior: string, subordinate: string)
    requires NulFree(superior) && NulFree(subordinate)
    ensures Joined(SubKey(superior, subordinate))
  {
    var a, b := ToLower(superior), ToLower(subordinate);
    LowerIsLower(superior);
    LowerIsLower(subordinate);
    LowerNulFree(superior);
    LowerNulFree(subordinate);
    assert SubKey(superior, subordinate) == SubKey(a, b);
  }

  lemma {:induction false} IsFree(taken: set<string>, domain: string, names: seq<string>)
    requires FirstFree(taken, domain, names).Some?
    ensures var name := FirstFree(taken, domain, names).value; name in names && name + "@" + domain !in taken
  {
    if names[0] + "@" + domain in taken { IsFree(taken, domain, names[1..]); }
  }

  lemma CandidatesNulFree(t: Team, i: nat, name: string)
    requires CleanTeam(t) && name in Candidates(t, i)
    ensures NulFree(name)
  {
    if name in Random(t, i) {
      var k :| 0 <= k < RANDOM_TRIES && name == Random(t, i)[k];
      assert NulFree(t.draw(i, k));
    } else {
      var base := Base(t, i);
      var k :| 0 <= k < NUMBERED && name == Numbered(base)[k];
      TrimmedNulFree(t.names[i]);
      LowerNulFree(TrimSpace(t.names[i]));
      DecimalNulFree(k + 1);
    }
  }

  lemma {:induction false} DecimalNulFree(n: nat)
    ensures NulFree(Decimal(n))
  {
    if n >= 10 { DecimalNulFree(n / 10); }
  }

  lemma SendSound(s: State, m: Message)
    requires Sound(s) && m.attachments == []
    ensures Sound(StoreSpec.Send(s, m).0)
  {
    if HasParent(s.box.messages, m.inReplyTo) && m.id !in s.box.messages { PostedSound(s, m); }
  }

  lemma PostedSound(s: State, m: Message)
    requires Sound(s) && HasParent(s.box.messages, m.inReplyTo) && m.id !in s.box.messages && ServesRecipients(s, m)
    ensures Sound(Posted(s, m))
  {
    PostedAccounts(s, m);
    DeliverKeeps(s.box, m, RecipientUuids(s.accounts, m), SenderUuids(s.accounts, m.from));
    PostedServed(s, m);
  }

  lemma FilesUpdated(s: State, files: map<string, FileRecord>)
    requires Sound(s) && files.Keys == s.shelf.files.Keys && StillServes(s.shelf.files, files)
    requires forall id :: id in files ==>
      files[id].id == s.shelf.files[id].id && files[id].size == s.shelf.files[id].size
    ensures Sound(s.(shelf := s.shelf.(files := files)))
  {
    UpdateKeeps(s.shelf, files);
    ServedKept(s, s.(shelf := s.shelf.(files := files)));
  }

  lemma GrantedSound(s: State, m: Message, ids: seq<string>)
    requires Sound(s)
    ensures Sound(Granted(s, m, ids))
  {
    GrantedServes(s, m, ids);
    FilesUpdated(s, Granted(s, m, ids).shelf.files);
  }

  lemma SendWithAttachmentsSound(s: State, m: Message, ids: seq<string>)
    requires Sound(s) && m.attachments == []
    ensures Sound(StoreSpec.SendWithAttachments(s, m, ids).0)
  {
    var r := StoreSpec.SendWithAttachments(s, m, ids).1;
    if HasParent(s.box.messages, m.inReplyTo) && Refusal(s.shelf.files, m.from, ids).None? {
      AcceptedStored(s.shelf.files, m.from, ids);
      GrantedSound(s, m, ids);
      if m.id !in s.box.messages {
        var full := m.(attachments := Projections(s.shelf.files, ids));
        AttachedServes(s, m, ids);
        PostedSound(Granted(s, m, ids), full);
      }
    }
  }

  lemma AttachedServes(s: State, m: Message, ids: seq<string>)
    requires ValidShelf(s.shelf) && forall id :: id in ids ==> id in s.shelf.files
    ensures ServesRecipients(Granted(s, m, ids), m.(attachments := Projections(s.shelf.files, ids)))
  {
    var full := m.(attachments := Projections(s.shelf.files, ids));
    GrantedServes(s, m, ids);
    forall a | a in full.attachments
      ensures a.id in ids && a.accessCode == s.shelf.files[a.id].accessCode
    {
      var i :| 0 <= i < |ids| && full.attachments[i] == a;
      assert Shelved(s.shelf, ids[i]);
    }
  }

  lemma RemoveSound(s: State, op: Op)
    requires Sound(s) && Fresh(s, op) && op.Remove?
    ensures Sound(Apply(s, op))
  {
    var notice := Notice(op.id, op.now, op.caller, op.other, op.subject, op.body);
    var a, b := StoreSpec.Revoke(s, op.other, op.caller), StoreSpec.Revoke(s, op.caller, op.other);
    ServedKept(s, a);
    ServedKept(s, b);
    PostedSound(a, notice);
    PostedSound(b, notice);
  }

  lemma SaveSound(s: State, f: FileRecord, content: Bytes, quota: int, cap: int)
    requires Sound(s) && Fresh(s, Save(f, content, quota, cap))
    ensures Sound(SaveFile(s, f, content, quota, cap).0)
  {
    SaveKeeps(s.shelf, f, content);
    SaveServed(s, f, content);
  }

  lemma SweepSound(s: State, doomed: set<string>)
    requires Sound(s)
    ensures Sound(StoreSpec.Sweep(s, doomed))
  {
    DiscardKeeps(s.shelf, doomed);
    ServedKept(s, StoreSpec.Sweep(s, doomed));
  }

  lemma ExtendSound(s: State, id: string, owner: string, now: int)
    requires Sound(s)
    ensures Sound(ExtendFile(s, id, owner, now).0)
  {
    if Owns(s, id, owner) {
      RenewKeepsReaders(s.shelf.files[id], now);
      FilesUpdated(s, s.shelf.files[id := Renew(s.shelf.files[id], now)]);
    }
  }

  lemma RenewKeepsReaders(f: FileRecord, now: int)
    ensures KeepsReaders(f, Renew(f, now))
  {
  }

  /** Transactions that touch neither mail nor files. */
  lemma GraphSound(s: State, t: State)
    requires Sound(s) && t.accounts == s.accounts && t.box == s.box && t.shelf == s.shelf && ValidSubs(t.subs)
    ensures Sound(t)
  {
    ServedKept(s, t);
  }

  lemma ClearSound(s: State, uuid: string, refs: set<Ref>, now: int)
    requires Sound(s)
    ensures Sound(ClearRead(s, uuid, refs, now))
  {
    ServedKept(s, ClearRead(s, uuid, refs, now));
  }

  lemma StepSound(s: State, op: Op)
    requires Sound(s) && Fresh(s, op)
    ensures Sound(Apply(s, op))
  {
    match op {
      case CreateAccount(_, _, _, _) => CreateSound(s, op);
      case RegisterTeam(t) => RegisterTeamSound(s, t);
      case Normalize => NormalizeSound(s);
      case Send(m) => SendSound(s, m);
      case SendWithAttachments(m, ids) => SendWithAttachmentsSound(s, m, ids);
      case Declare(superior, subordinate, now) =>
        DeclareSound(s, superior, subordinate, now);
        GraphSound(s, Apply(s, op));
      case Revoke(_, _) => GraphSound(s, Apply(s, op));
      case Remove(_, _, _, _, _, _) => RemoveSound(s, op);
      case Clear(uuid, ids, now) => ClearSound(s, uuid, RefsWith(uuid, ids), now);
      case Touch(_, _) => GraphSound(s, Apply(s, op));
      case Save(f, content, quota, cap) => SaveSound(s, f, content, quota, cap);
      case Delete(id, owner) => SweepSound(s, {id});
      case Extend(id, owner, now) => ExtendSound(s, id, owner, now);
      case Sweep(doomed) => SweepSound(s, doomed);
    }
  }

  /** Every reachable state is sound. */
  lemma {:induction false} RunSound(ops: seq<Op>)
    requires Admissible(ops)
    ensures Sound(Run(ops))
  {
    if ops == [] {
      assert Ranks(map[], Empty().box.messages);
    } else {
      RunSound(ops[..|ops| - 1]);
      StepSound(Run(ops[..|ops| - 1]), ops[|ops| - 1]);
    }
  }

  lemma OtherShelves(s: State, op: Op)
    requires !op.SendWithAttachments? && !op.Save? && !op.Delete? && !op.Extend? && !op.Sweep?
    ensures Apply(s, op).shelf == s.shelf
  {
    if op.RegisterTeam? { RegisterFrame(s, op.team); }
  }
}
