/** What the store promises its users, in every reachable state. */
module StoreLaws {
  import opened Wrappers
  import opened Text
  import opened Mail
  import opened Directory
  import opened Mailbox
  import opened IndexKeys
  import opened Files
  import opened StoreSpec
  import opened Teams
  import opened StoreRuns
  import opened TeamLaws

  // ---- attachments ----

  /** Whoever holds a message in the inbox can download each attachment that is still live,
      with the code embedded in the message and the address in any case. */
  lemma RecipientsAuthorized(ops: seq<Op>, requester: string, mid: string, a: Attachment)
    requires Admissible(ops)
    requires var s := Run(ops);
      && ToLower(requester) in s.accounts && Ref(s.accounts[ToLower(requester)].uuid, mid) in s.box.inbox
      && mid in s.box.messages && a in s.box.messages[mid].attachments && a.id in s.shelf.files
    ensures Authorize(Run(ops), requester, a.id, a.accessCode) == Ok(Run(ops).shelf.files[a.id])
  {
    var s := Run(ops);
    RunSound(ops);
    assert ServedAt(s, mid, a);
    AnyCase(s.shelf.files[a.id], requester);
  }

  lemma AnyCase(f: FileRecord, requester: string)
    requires Permitted(f, ToLower(requester))
    ensures Permitted(f, requester)
  {
    LowerIsLower(requester);
  }

  /** While a file lives, its owner and code stay and nobody loses access. */
  lemma AccessGrows(s: State, op: Op, id: string)
    requires Fresh(s, op) && id in s.shelf.files && id in Apply(s, op).shelf.files
    ensures KeepsReaders(s.shelf.files[id], Apply(s, op).shelf.files[id])
  {
    match op {
      case SendWithAttachments(m, ids) => SendingGrants(s, m, ids, id);
      case Extend(_, _, now) => RenewKeepsReaders(s.shelf.files[id], now);
      case Save(_, _, _, _) => FilesComeAndGo(s, op, id);
      case Delete(_, _) => FilesComeAndGo(s, op, id);
      case Sweep(_) => FilesComeAndGo(s, op, id);
      case _ => OtherShelves(s, op);
    }
  }

  lemma FilesComeAndGo(s: State, op: Op, id: string)
    requires op.Save? || op.Delete? || op.Sweep?
    requires Fresh(s, op) && id in s.shelf.files && id in Apply(s, op).shelf.files
    ensures Apply(s, op).shelf.files[id] == s.shelf.files[id]
  {
  }

  lemma SendingGrants(s: State, m: Message, ids: seq<string>, id: string)
    requires id in s.shelf.files
    ensures var t := StoreSpec.SendWithAttachments(s, m, ids).0;
      id in t.shelf.files && KeepsReaders(s.shelf.files[id], t.shelf.files[id])
  {
    GrantedServes(s, m, ids);
    var g := Granted(s, m, ids);
    assert id in g.shelf.files && KeepsReaders(s.shelf.files[id], g.shelf.files[id]);
  }

  // ---- mailboxes ----

  /** Every entry resolves to a message stored under its own id; only inbox entries are
      unread; and the reply relation is well-founded. */
  lemma MailboxesConsistent(ops: seq<Op>)
    requires Admissible(ops)
    ensures var b := Run(ops).box;
      && b.unread <= b.inbox
      && (forall r :: r in b.inbox + b.sent ==> r.id in b.messages && b.messages[r.id].id == r.id)
      && Grounded(b.messages)
  {
    RunSound(ops);
  }

  /** The marks that a transaction clears for the account. */
  function Cleared(op: Op, uuid: string): set<Ref> {
    if op.Clear? && op.uuid == uuid then RefsWith(uuid, op.ids) else {}
  }

  /** Read marks move only by the account's own clearing and by new mail to it: no transaction
      on one account changes the marks of another. */
  lemma MarkersStep(s: State, op: Op, uuid: string)
    requires Sound(s) && Fresh(s, op)
    ensures MarkersMoved(s.box, Apply(s, op).box, uuid, Cleared(op, uuid))
  {
    match op {
      case Send(m) =>
        if m.id !in s.box.messages { PostedMarkers(s, m, uuid); }
      case SendWithAttachments(m, ids) => AttachedMarkers(s, m, ids, uuid);
      case Remove(_, _, _, _, _, _) => RemovedMarkers(s, op, uuid);
      case Clear(u, ids, now) =>
      case _ => OtherBoxes(s, op);
    }
  }

  /** From b to c, the account loses the cleared marks and gains one for each new entry. */
  ghost predicate MarkersMoved(b: Box, c: Box, uuid: string, cleared: set<Ref>) {
    && b.inbox <= c.inbox
    && RefsOf(c.unread, uuid) == RefsOf(b.unread, uuid) - cleared + (RefsOf(c.inbox, uuid) - RefsOf(b.inbox, uuid))
  }

  lemma OtherBoxes(s: State, op: Op)
    requires !op.Send? && !op.SendWithAttachments? && !op.Remove? && !op.Clear?
    ensures Apply(s, op).box == s.box
  {
    if op.RegisterTeam? { RegisterFrame(s, op.team); }
  }

  lemma AttachedMarkers(s: State, m: Message, ids: seq<string>, uuid: string)
    requires ValidBox(s.box)
    ensures MarkersMoved(s.box, StoreSpec.SendWithAttachments(s, m, ids).0.box, uuid, {})
  {
    if m.id !in s.box.messages && Refusal(s.shelf.files, m.from, ids).None? {
      AcceptedStored(s.shelf.files, m.from, ids);
      PostedMarkers(Granted(s, m, ids), m.(attachments := Projections(s.shelf.files, ids)), uuid);
    }
  }

  lemma RemovedMarkers(s: State, op: Op, uuid: string)
    requires ValidBox(s.box) && Fresh(s, op) && op.Remove?
    ensures MarkersMoved(s.box, Apply(s, op).box, uuid, {})
  {
    var notice := Notice(op.id, op.now, op.caller, op.other, op.subject, op.body);
    PostedMarkers(StoreSpec.Revoke(s, op.other, op.caller), notice, uuid);
    PostedMarkers(StoreSpec.Revoke(s, op.caller, op.other), notice, uuid);
  }

  lemma PostedMarkers(s: State, m: Message, uuid: string)
    requires ValidBox(s.box) && m.id !in s.box.messages
    ensures MarkersMoved(s.box, Posted(s, m).box, uuid, {})
  {
    DeliverMarkers(s.box, m, RecipientUuids(s.accounts, m), SenderUuids(s.accounts, m.from), uuid);
  }

  // ---- marking everything read ----

  ghost function RunFrom(s: State, ops: seq<Op>): State {
    if ops == [] then s else Apply(RunFrom(s, ops[..|ops| - 1]), ops[|ops| - 1])
  }

  ghost predicate AdmissibleFrom(s: State, ops: seq<Op>) {
    ops == [] || (AdmissibleFrom(s, ops[..|ops| - 1]) && Fresh(RunFrom(s, ops[..|ops| - 1]), ops[|ops| - 1]))
  }

  /** Inbox entries stay, whatever runs. */
  lemma {:induction false} InboxOnlyGrows(s: State, ops: seq<Op>)
    requires Sound(s) && AdmissibleFrom(s, ops)
    ensures s.box.inbox <= RunFrom(s, ops).box.inbox
  {
    if ops != [] {
      var before := ops[..|ops| - 1];
      InboxOnlyGrows(s, before);
      RunFromSound(s, before);
      MarkersStep(RunFrom(s, before), ops[|ops| - 1], "");
    }
  }

  /** Nor does a stored message change or go, or an account that could be found. */
  lemma {:induction false} RunExtends(s: State, ops: seq<Op>)
    requires Sound(s) && AdmissibleFrom(s, ops)
    ensures Extends(s.box, RunFrom(s, ops).box) && StillFound(s.accounts, RunFrom(s, ops).accounts)
  {
    if ops != [] {
      var before, op := ops[..|ops| - 1], ops[|ops| - 1];
      RunExtends(s, before);
      RunFromSound(s, before);
      StepExtends(RunFrom(s, before), op);
      StepStillFound(RunFrom(s, before), op);
    }
  }

  lemma StepExtends(s: State, op: Op)
    requires Sound(s) && Fresh(s, op)
    ensures Extends(s.box, Apply(s, op).box)
  {
    match op {
      case Send(m) => if m.id !in s.box.messages { PostedExtends(s, m); }
      case SendWithAttachments(m, ids) => AttachedExtends(s, m, ids);
      case Remove(_, _, _, _, _, _) => RemovedExtends(s, op);
      case Clear(_, _, _) =>
      case _ => OtherBoxes(s, op);
    }
  }

  lemma PostedExtends(s: State, m: Message)
    requires m.id !in s.box.messages
    ensures Extends(s.box, Posted(s, m).box)
  {
  }

  lemma AttachedExtends(s: State, m: Message, ids: seq<string>)
    ensures Extends(s.box, StoreSpec.SendWithAttachments(s, m, ids).0.box)
  {
    if m.id !in s.box.messages && Refusal(s.shelf.files, m.from, ids).None? {
      AcceptedStored(s.shelf.files, m.from, ids);
      PostedExtends(Granted(s, m, ids), m.(attachments := Projections(s.shelf.files, ids)));
    }
  }

  lemma RemovedExtends(s: State, op: Op)
    requires Fresh(s, op) && op.Remove?
    ensures Extends(s.box, Apply(s, op).box)
  {
    var notice := Notice(op.id, op.now, op.caller, op.other, op.subject, op.body);
    PostedExtends(StoreSpec.Revoke(s, op.other, op.caller), notice);
    PostedExtends(StoreSpec.Revoke(s, op.caller, op.other), notice);
  }

  lemma StepStillFound(s: State, op: Op)
    requires Sound(s)
    ensures StillFound(s.accounts, Apply(s, op).accounts)
  {
    match op {
      case RegisterTeam(t) => TeamMeaning(s, t);
      case Normalize => NormalizedAccounts(s.accounts);
      case CreateAccount(_, _, _, _) =>
      case _ => OtherAccounts(s, op);
    }
  }

  /** Mail once read stays read. */
  lemma {:induction false} ReadStaysRead(s: State, ops: seq<Op>, r: Ref)
    requires Sound(s) && AdmissibleFrom(s, ops)
    requires r in s.box.inbox && r !in s.box.unread
    ensures r in RunFrom(s, ops).box.inbox && r !in RunFrom(s, ops).box.unread
  {
    if ops != [] {
      var before, op := ops[..|ops| - 1], ops[|ops| - 1];
      ReadStaysRead(s, before, r);
      RunFromSound(s, before);
      MarkersStep(RunFrom(s, before), op, r.uuid);
      var t := RunFrom(s, ops);
      assert r !in RefsOf(RunFrom(s, before).box.unread, r.uuid);
      assert r !in RefsOf(t.box.unread, r.uuid);
    }
  }

  lemma {:induction false} RunFromSound(s: State, ops: seq<Op>)
    requires Sound(s) && AdmissibleFrom(s, ops)
    ensures Sound(RunFrom(s, ops))
  {
    if ops != [] {
      RunFromSound(s, ops[..|ops| - 1]);
      StepSound(RunFrom(s, ops[..|ops| - 1]), ops[|ops| - 1]);
    }
  }

  /** MarkRead looks for the mark in one transaction and clears it in another. Whatever runs
      between them, the message is read afterwards, unless it only came in between. */
  lemma MarkReadLeaves(s: State, between: seq<Op>, uuid: string, id: string, now: int)
    requires Sound(s) && AdmissibleFrom(s, between)
    ensures var t, r := RunFrom(s, between), Ref(uuid, id);
      var after := if r in s.box.unread then ClearRead(t, uuid, {r}, now) else t;
      && (r in after.box.unread <==> r in t.box.unread && r !in s.box.inbox)
      && (forall q: Ref :: q != r ==> (q in after.box.unread <==> q in t.box.unread))
  {
    var r := Ref(uuid, id);
    if r in s.box.inbox && r !in s.box.unread { ReadStaysRead(s, between, r); }
  }

  /** GetMessage finds the entry in one transaction and loads the message in a later one: it is
      still there, as it was, and the account still has the same entries. */
  lemma OpenedAsStored(s: State, between: seq<Op>, requester: string, id: string)
    requires Sound(s) && AdmissibleFrom(s, between) && GetAccount(s.accounts, requester).Some?
    requires Ref(GetAccount(s.accounts, requester).value.uuid, id) in s.box.inbox + s.box.sent
    ensures var t, uuid := RunFrom(s, between), GetAccount(s.accounts, requester).value.uuid;
      && id in s.box.messages && id in t.box.messages && t.box.messages[id] == s.box.messages[id]
      && GetAccount(t.accounts, requester).Some? && GetAccount(t.accounts, requester).value.uuid == uuid
      && (Ref(uuid, id) in s.box.inbox ==> Ref(uuid, id) in t.box.inbox)
      && (Ref(uuid, id) in s.box.sent ==> Ref(uuid, id) in t.box.sent)
  {
    RunExtends(s, between);
    LowerIsLower(requester);
  }

  /** Whatever runs between the two transactions of MarkAllRead, afterwards the account's
      unread mail is the mail that came since the first one (and was not read meanwhile);
      other accounts' marks are as they were before the second one. */
  lemma MarkAllReadLeaves(s: State, between: seq<Op>, uuid: string, now: int)
    requires Sound(s) && AdmissibleFrom(s, between)
    ensures var t := RunFrom(s, between);
      var after := ClearRead(t, uuid, RefsOf(s.box.unread, uuid), now);
      && (forall r: Ref :: r.uuid == uuid ==> (r in after.box.unread <==> r in t.box.unread && r !in s.box.inbox))
      && (forall r: Ref :: r.uuid != uuid ==> (r in after.box.unread <==> r in t.box.unread))
  {
    forall r: Ref | r.uuid == uuid && r in RunFrom(s, between).box.unread && r in s.box.inbox
      ensures r in s.box.unread
    {
      if r !in s.box.unread { ReadStaysRead(s, between, r); }
    }
  }

  // ---- sending ----

  /** Who gets a new message: exactly the accounts under lowercase keys that To or CC name in
      some spelling, as unread inbox mail, and the sender's sent folder. Nothing else moves. */
  lemma DeliveryMeaning(s: State, m: Message, l: string)
    requires ValidAccounts(s.accounts) && ValidBox(s.box) && m.id !in s.box.messages && l in s.accounts
    ensures var b, r := Posted(s, m).box, Ref(s.accounts[l].uuid, m.id);
      && (r in b.inbox <==> IsLower(l) && exists a :: a in m.to + m.cc && EqualFold(a, l))
      && (r in b.unread <==> r in b.inbox) && (r in b.sent <==> IsLower(l) && EqualFold(m.from, l))
      && b.messages == s.box.messages[m.id := m]
      && forall q: Ref :: q.id != m.id ==>
        (q in b.inbox <==> q in s.box.inbox) && (q in b.sent <==> q in s.box.sent)
        && (q in b.unread <==> q in s.box.unread)
  {
    var r := Ref(s.accounts[l].uuid, m.id);
    NamedInList(s.accounts, m.to + m.cc, l);
    LowerIsLower(m.from);
    OnlyNamed(s.accounts, Recipients(s.accounts, m.to + m.cc), l);
    OnlyNamed(s.accounts, {ToLower(m.from)}, l);
    assert r !in s.box.inbox && r !in s.box.sent && r !in s.box.unread;
  }

  lemma NamedInList(accounts: map<string, Account>, addrs: seq<string>, l: string)
    requires l in accounts
    ensures l in Recipients(accounts, addrs) <==> IsLower(l) && exists a :: a in addrs && EqualFold(a, l)
  {
    RecipientsLower(accounts, addrs);
  }

  lemma OnlyNamed(accounts: map<string, Account>, names: set<string>, l: string)
    requires ValidAccounts(accounts) && l in accounts
    ensures accounts[l].uuid in Uuids(accounts, names) <==> l in names
  {
  }

  /** Each account the list names gets one copy, whatever the spellings and repetitions. */
  lemma OneCopyEach(s: State, m: Message)
    requires ValidAccounts(s.accounts) && ValidBox(s.box) && m.id !in s.box.messages
    ensures |Posted(s, m).box.inbox - s.box.inbox| == |Recipients(s.accounts, m.to + m.cc)|
    ensures Posted(s, m).box.unread - s.box.unread == Posted(s, m).box.inbox - s.box.inbox
  {
    var names := Recipients(s.accounts, m.to + m.cc);
    EntryCount(s.accounts, names, m.id);
    assert Posted(s, m).box.inbox - s.box.inbox == RefsTo(Uuids(s.accounts, names), m.id);
  }

  lemma {:induction false} EntryCount(accounts: map<string, Account>, names: set<string>, id: string)
    requires ValidAccounts(accounts) && names <= accounts.Keys
    ensures |RefsTo(Uuids(accounts, names), id)| == |names|
    decreases names
  {
    if names == {} {
      assert RefsTo(Uuids(accounts, names), id) == {};
    } else {
      var l :| l in names;
      var rest := names - {l};
      EntryCount(accounts, rest, id);
      UuidsStep(accounts, rest, l);
      assert rest + {l} == names;
      assert accounts[l].uuid !in Uuids(accounts, rest);
      OneMoreRef(Uuids(accounts, rest), accounts[l].uuid, id);
    }
  }

  lemma OneMoreRef(us: set<string>, u: string, id: string)
    requires u !in us
    ensures |RefsTo(us + {u}, id)| == |RefsTo(us, id)| + 1
  {
    forall r | r in RefsTo(us, id) + {Ref(u, id)} ensures r in RefsTo(us + {u}, id) { assert r.uuid in us + {u}; }
    assert RefsTo(us + {u}, id) == RefsTo(us, id) + {Ref(u, id)};
  }

  /** Without attachments the two ways to send agree as long as somebody can be reached.
      If nobody can, both report it, but only SendWithAttachments leaves the store alone. */
  lemma SendsCompared(s: State, m: Message)
    requires m.attachments == []
    ensures Recipients(s.accounts, m.to + m.cc) != {} ==>
      StoreSpec.Send(s, m) == StoreSpec.SendWithAttachments(s, m, [])
    ensures Recipients(s.accounts, m.to + m.cc) == {} ==>
      && StoreSpec.Send(s, m).1.Err? && StoreSpec.SendWithAttachments(s, m, []) == (s, StoreSpec.Send(s, m).1)
      && (StoreSpec.Send(s, m).0 == s <==> !HasParent(s.box.messages, m.inReplyTo) || m.id in s.box.messages)
  {
    assert Granted(s, m, []).shelf.files == s.shelf.files;
    assert Projections(s.shelf.files, []) == [];
    if Recipients(s.accounts, m.to + m.cc) == {} { assert m.id in Posted(s, m).box.messages; }
  }
}
