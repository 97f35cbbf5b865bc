/** Who may download a file: exactly those it was given to, and only with its code. */
module AccessLaws {
  import opened Wrappers
  import opened Text
  import opened Mail
  import opened Directory
  import opened Files
  import opened StoreSpec
  import opened StoreRuns
  import opened StoreLaws
  import opened OperationLaws

  /** The owner, or one on the list, in whatever case. */
  predicate Reader(f: FileRecord, requester: string) {
    ToLower(f.owner) == ToLower(requester)
    || exists i :: 0 <= i < |f.allowed| && ToLower(f.allowed[i]) == ToLower(requester)
  }

  lemma ReaderIsPermitted(f: FileRecord, requester: string)
    ensures Permitted(f, requester) <==> Reader(f, requester)
  {
    if a :| a in f.allowed && EqualFold(a, requester) {
      var i :| 0 <= i < |f.allowed| && f.allowed[i] == a;
    }
    if i :| 0 <= i < |f.allowed| && ToLower(f.allowed[i]) == ToLower(requester) { assert f.allowed[i] in f.allowed; }
  }

  /** A download needs a stored file, its code, and a reader; without any of them the answer is
      the same. */
  lemma AuthorizeMeaning(s: State, requester: string, id: string, code: string)
    ensures Authorize(s, requester, id, code) ==
      if id in s.shelf.files && s.shelf.files[id].accessCode == code && Reader(s.shelf.files[id], requester)
      then Ok(s.shelf.files[id]) else Err(FileNotFound)
  {
    if id in s.shelf.files { ReaderIsPermitted(s.shelf.files[id], requester); }
  }

  // ---- what sending attachments does ----

  /** To or CC names the requester, who has an account. */
  predicate Named(accounts: map<string, Account>, m: Message, requester: string) {
    ToLower(requester) in accounts && exists a :: a in m.to + m.cc && ToLower(a) == ToLower(requester)
  }

  predicate Attachable(s: State, from: string, id: string) {
    id in s.shelf.files && ToLower(s.shelf.files[id].owner) == ToLower(from)
  }

  /** Attachment i is the first that is missing or someone else's, and e says which. */
  predicate RefusedAt(s: State, from: string, ids: seq<string>, i: int, e: Error) {
    && 0 <= i < |ids| && !Attachable(s, from, ids[i]) && (forall j :: 0 <= j < i ==> Attachable(s, from, ids[j]))
    && e == if ids[i] in s.shelf.files then AttachmentNotOwned(ids[i]) else AttachmentNotFound(ids[i])
  }

  predicate AllAttachable(s: State, from: string, ids: seq<string>) {
    forall i :: 0 <= i < |ids| ==> Attachable(s, from, ids[i])
  }

  /** f with more readers: those that the message names. */
  ghost predicate Shared(f: FileRecord, g: FileRecord, accounts: map<string, Account>, m: Message) {
    g == f.(allowed := g.allowed) && forall x :: Reader(g, x) <==> Reader(f, x) || Named(accounts, m, x)
  }

  ghost predicate FilesShared(s: State, t: State, m: Message, ids: seq<string>) {
    && t.shelf.data == s.shelf.data && t.shelf.files.Keys == s.shelf.files.Keys
    && forall id :: id in s.shelf.files ==>
      if id in ids then Shared(s.shelf.files[id], t.shelf.files[id], s.accounts, m)
      else t.shelf.files[id] == s.shelf.files[id]
  }

  predicate IsSnapshot(a: Attachment, f: FileRecord) {
    a.id == f.id && a.filename == f.filename && a.size == f.size && a.accessCode == f.accessCode
    && a.createdAt == f.createdAt
  }

  /** full is m with a snapshot of each attached file, in the order given. */
  ghost predicate Carries(full: Message, m: Message, s: State, ids: seq<string>) {
    && full == m.(attachments := full.attachments) && |full.attachments| == |ids|
    && forall i :: 0 <= i < |ids| ==> ids[i] in s.shelf.files && IsSnapshot(full.attachments[i], s.shelf.files[ids[i]])
  }

  predicate NoParent(s: State, m: Message) {
    m.inReplyTo != "" && m.inReplyTo !in s.box.messages
  }

  lemma {:induction false} RefusalMeaning(s: State, from: string, ids: seq<string>)
    ensures Refusal(s.shelf.files, from, ids).None? <==> AllAttachable(s, from, ids)
    ensures Refusal(s.shelf.files, from, ids).Some? ==>
      exists i :: RefusedAt(s, from, ids, i, Refusal(s.shelf.files, from, ids).value)
  {
    if ids != [] && Attachable(s, from, ids[0]) {
      RefusalMeaning(s, from, ids[1..]);
      var refused := Refusal(s.shelf.files, from, ids[1..]);
      if refused.Some? {
        var i :| RefusedAt(s, from, ids[1..], i, refused.value);
        RefusedLater(s, from, ids, i, refused.value);
      } else {
        forall i | 0 <= i < |ids| ensures Attachable(s, from, ids[i]) { if i > 0 { assert ids[i] == ids[1..][i - 1]; } }
      }
    } else if ids != [] {
      assert RefusedAt(s, from, ids, 0, Refusal(s.shelf.files, from, ids).value);
    }
  }

  lemma RefusedLater(s: State, from: string, ids: seq<string>, i: int, e: Error)
    requires ids != [] && Attachable(s, from, ids[0]) && RefusedAt(s, from, ids[1..], i, e)
    ensures RefusedAt(s, from, ids, i + 1, e)
  {
    forall j | 0 <= j < i + 1 ensures Attachable(s, from, ids[j]) { if j > 0 { assert ids[j] == ids[1..][j - 1]; } }
  }

  lemma NamedIsRecipient(accounts: map<string, Account>, m: Message, requester: string)
    ensures ToLower(requester) in Recipients(accounts, m.to + m.cc) <==> Named(accounts, m, requester)
  {
  }

  lemma GrantedFiles(s: State, m: Message, ids: seq<string>)
    ensures FilesShared(s, Granted(s, m, ids), m, ids)
  {
    var names := Recipients(s.accounts, m.to + m.cc);
    RecipientsLower(s.accounts, m.to + m.cc);
    forall id | id in s.shelf.files && id in ids
      ensures Shared(s.shelf.files[id], Grant(s.shelf.files[id], names), s.accounts, m)
    {
      var f := s.shelf.files[id];
      forall x ensures Reader(Grant(f, names), x) <==> Reader(f, x) || Named(s.accounts, m, x) {
        GrantPermits(f, names, x);
        ReaderIsPermitted(f, x);
        ReaderIsPermitted(Grant(f, names), x);
        NamedIsRecipient(s.accounts, m, x);
      }
    }
  }

  /** The answer, in the order in which the checks are made. */
  ghost predicate Answer(s: State, m: Message, ids: seq<string>, r: Result<string, Error>) {
    if NoParent(s, m) then r == Err(NoSuchParent)
    else if !AllAttachable(s, m.from, ids) then r.Err? && exists i :: RefusedAt(s, m.from, ids, i, r.error)
    else r == if SomeoneReached(s.accounts, m) && m.id !in s.box.messages then Ok(m.id) else Err(NoRecipients)
  }

  /** Every check passes but perhaps that of the message's id. */
  ghost predicate Attaches(s: State, m: Message, ids: seq<string>) {
    !NoParent(s, m) && AllAttachable(s, m.from, ids) && SomeoneReached(s.accounts, m)
  }

  /** A refused send leaves the store alone. Otherwise those it names become readers of the attached
      files, and unless the id is taken the message comes in with snapshots of them. */
  lemma SendWithAttachmentsMeaning(s: State, m: Message, ids: seq<string>)
    requires Sound(s)
    ensures var (t, r) := StoreSpec.SendWithAttachments(s, m, ids);
      && Answer(s, m, ids, r)
      && if !Attaches(s, m, ids) then t == s
         else FilesShared(s, t, m, ids) && t == s.(shelf := t.shelf, box := t.box)
              && if m.id in s.box.messages then t.box == s.box
                 else m.id in t.box.messages && Carries(t.box.messages[m.id], m, s, ids)
                      && CameIn(s.accounts, s.box, t.box, t.box.messages[m.id])
  {
    var (t, r) := StoreSpec.SendWithAttachments(s, m, ids);
    RefusalMeaning(s, m.from, ids);
    RecipientsReached(s.accounts, m);
    if Attaches(s, m, ids) {
      AcceptedStored(s.shelf.files, m.from, ids);
      GrantedFiles(s, m, ids);
      if m.id !in s.box.messages { AttachedComesIn(s, m, ids); }
    }
  }

  lemma AttachedComesIn(s: State, m: Message, ids: seq<string>)
    requires Sound(s) && m.id !in s.box.messages && forall id :: id in ids ==> id in s.shelf.files
    ensures var full := m.(attachments := Projections(s.shelf.files, ids));
      && Carries(full, m, s, ids)
      && CameIn(s.accounts, s.box, Posted(Granted(s, m, ids), full).box, full)
  {
    GrantedSound(s, m, ids);
    PostedComesIn(Granted(s, m, ids), m.(attachments := Projections(s.shelf.files, ids)));
  }

  // ---- in every run ----

  /** The file was last uploaded with the requester as its owner or on its list, or since then a
      message that attached it named the requester. */
  ghost predicate WasGiven(ops: seq<Op>, id: string, requester: string) {
    ops != [] &&
      var before, op := ops[..|ops| - 1], ops[|ops| - 1];
      match op
      case Save(f, _, _, _) => if f.id == id then Reader(f, requester) else WasGiven(before, id, requester)
      case SendWithAttachments(m, ids) =>
        WasGiven(before, id, requester)
        || (id in ids && Attaches(Run(before), m, ids) && Named(Run(before).accounts, m, requester))
      case _ => WasGiven(before, id, requester)
  }

  /** The readers of a live file are exactly those it was given to. */
  lemma {:induction false} ReadersExactly(ops: seq<Op>, id: string, requester: string)
    requires Admissible(ops) && id in Run(ops).shelf.files
    ensures Reader(Run(ops).shelf.files[id], requester) <==> WasGiven(ops, id, requester)
  {
    var before, op := ops[..|ops| - 1], ops[|ops| - 1];
    var s := Run(before);
    RunSound(before);
    if op.Save? && op.f.id == id {
      assert Run(ops).shelf.files[id] == op.f;
    } else {
      ReadersStep(s, op, id, requester);
      ReadersExactly(before, id, requester);
    }
  }

  ghost predicate Gives(s: State, op: Op, id: string, requester: string) {
    op.SendWithAttachments? && id in op.attachIDs && Attaches(s, op.m, op.attachIDs)
    && Named(s.accounts, op.m, requester)
  }

  lemma ReadersStep(s: State, op: Op, id: string, requester: string)
    requires Sound(s) && Fresh(s, op) && id in Apply(s, op).shelf.files && !(op.Save? && op.f.id == id)
    ensures id in s.shelf.files
    ensures Reader(Apply(s, op).shelf.files[id], requester) <==>
      Reader(s.shelf.files[id], requester) || Gives(s, op, id, requester)
  {
    match op {
      case SendWithAttachments(m, ids) => SendGives(s, m, ids, id, requester);
      case Extend(_, _, _) => ExtendKeepsReaders(s, op, id);
      case _ => OthersKeepFile(s, op, id);
    }
  }

  lemma SendGives(s: State, m: Message, ids: seq<string>, id: string, requester: string)
    requires Sound(s)
    ensures var files, more := s.shelf.files, StoreSpec.SendWithAttachments(s, m, ids).0.shelf.files;
      && more.Keys == files.Keys
      && (id in files ==> (Reader(more[id], requester) <==>
           Reader(files[id], requester) || (id in ids && Attaches(s, m, ids) && Named(s.accounts, m, requester))))
  {
    SendWithAttachmentsMeaning(s, m, ids);
  }

  lemma ExtendKeepsReaders(s: State, op: Op, id: string)
    requires op.Extend? && id in Apply(s, op).shelf.files
    ensures id in s.shelf.files
    ensures var f, g := s.shelf.files[id], Apply(s, op).shelf.files[id]; g.allowed == f.allowed && g.owner == f.owner
  {
  }

  lemma OthersKeepFile(s: State, op: Op, id: string)
    requires Fresh(s, op) && !op.SendWithAttachments? && !op.Extend? && !(op.Save? && op.f.id == id)
    requires id in Apply(s, op).shelf.files
    ensures id in s.shelf.files && Apply(s, op).shelf.files[id] == s.shelf.files[id]
  {
    if op.Save? || op.Delete? || op.Sweep? { FilesComeAndGo(s, op, id); } else { OtherShelves(s, op); }
  }

  /** So a download succeeds exactly for those a live file was given to, with its code. */
  lemma DownloadsExactly(ops: seq<Op>, requester: string, id: string, code: string)
    requires Admissible(ops)
    ensures Authorize(Run(ops), requester, id, code).Ok? <==>
      id in Run(ops).shelf.files && Run(ops).shelf.files[id].accessCode == code && WasGiven(ops, id, requester)
  {
    AuthorizeMeaning(Run(ops), requester, id, code);
    if id in Run(ops).shelf.files { ReadersExactly(ops, id, requester); }
  }
}
