/** The store as a value, and what each transaction makes of it. */
module StoreSpec {
  import opened Wrappers
  import opened Text
  import opened Sorting
  import opened Mail
  import opened Directory
  import opened Mailbox
  import opened Files
  import opened Subs
  import opened IndexKeys

  datatype Error =
    | AccountExists | NoSuchAccount
    | MessageNotFound | NoSuchParent | NoRecipients | AttachmentNotFound(id: string) | AttachmentNotOwned(id: string)
    | FileNotFound | QuotaExceeded
    | SelfDeclared | NoRelationship
    | BadTeam | NoMemberName

  datatype Role = Superior | Subordinate

  datatype State = State(
    accounts: map<string, Account>, subs: map<string, SubRecord>, box: Box, shelf: Shelf, lastRead: map<string, int>)

  function Empty(): State {
    State(map[], map[], Box(map[], {}, {}, {}), Shelf(map[], map[]), map[])
  }

  /** All uuids have the length that makes index keys prefix-free. */
  ghost predicate Uniform(s: State) {
    && (forall l :: l in s.accounts ==> |s.accounts[l].uuid| == UUID_LENGTH)
    && UniformUuids(s.box.inbox) && UniformUuids(s.box.sent) && UniformUuids(s.box.unread)
  }

  // ---- accounts ----

  /** The record of a new account; the name is trimmed, and kept as spelled for display. */
  function NewAccount(uuid: string, name: string, domain: string, now: int): Account {
    Account(uuid, ToLower(TrimSpace(name) + "@" + domain), "", Display(TrimSpace(name)), now)
  }

  function CreateAccount(s: State, a: Account): (State, Result<string, Error>) {
    if a.address in s.accounts then (s, Err(AccountExists))
    else (s.(accounts := s.accounts[a.address := a]), Ok(a.uuid))
  }

  // ---- mail ----

  function RecipientUuids(accounts: map<string, Account>, m: Message): set<string> {
    Uuids(accounts, Recipients(accounts, m.to + m.cc))
  }

  function SenderUuids(accounts: map<string, Account>, from: string): set<string> {
    Uuids(accounts, {ToLower(from)})
  }

  function Posted(s: State, m: Message): State {
    s.(box := Deliver(s.box, m, RecipientUuids(s.accounts, m), SenderUuids(s.accounts, m.from)))
  }

  /** Stores the message and its sent entry even when nobody can be reached: the error that
      is then returned comes after the commit. An id in use makes it a no-op. */
  function Send(s: State, m: Message): (State, Result<string, Error>) {
    if !HasParent(s.box.messages, m.inReplyTo) then (s, Err(NoSuchParent))
    else if m.id in s.box.messages then (s, Err(NoRecipients))
    else (Posted(s, m), if Recipients(s.accounts, m.to + m.cc) == {} then Err(NoRecipients) else Ok(m.id))
  }

  /** The first attachment that is missing or belongs to someone else. */
  function Refusal(files: map<string, FileRecord>, from: string, ids: seq<string>): Option<Error> {
    if ids == [] then None
    else if ids[0] !in files then Some(AttachmentNotFound(ids[0]))
    else if !EqualFold(files[ids[0]].owner, from) then Some(AttachmentNotOwned(ids[0]))
    else Refusal(files, from, ids[1..])
  }

  function Projections(files: map<string, FileRecord>, ids: seq<string>): seq<Attachment>
    requires forall id :: id in ids ==> id in files
  {
    seq(|ids|, i requires 0 <= i < |ids| => Projection(files[ids[i]]))
  }

  lemma {:induction false} AcceptedStored(files: map<string, FileRecord>, from: string, ids: seq<string>)
    requires Refusal(files, from, ids) == None
    ensures forall id :: id in ids ==> id in files && EqualFold(files[id].owner, from)
  {
    if ids != [] {
      AcceptedStored(files, from, ids[1..]);
      forall id | id in ids ensures id in files && EqualFold(files[id].owner, from) {
        assert id == ids[0] || id in ids[1..];
      }
    }
  }

  function Granted(s: State, m: Message, ids: seq<string>): State {
    s.(shelf := s.shelf.(files :=
      GrantAll(s.shelf.files, Elements(ids), Recipients(s.accounts, m.to + m.cc))))
  }

  /** m carries no attachments; they are filled in from the files. */
  function SendWithAttachments(s: State, m: Message, ids: seq<string>): (State, Result<string, Error>) {
    if !HasParent(s.box.messages, m.inReplyTo) then (s, Err(NoSuchParent))
    else
      var refused := Refusal(s.shelf.files, m.from, ids);
      if refused.Some? then (s, Err(refused.value))
      else if Recipients(s.accounts, m.to + m.cc) == {} then (s, Err(NoRecipients))
      else if m.id in s.box.messages then (Granted(s, m, ids), Err(NoRecipients))
      else
        AcceptedStored(s.shelf.files, m.from, ids);
        (Posted(Granted(s, m, ids), m.(attachments := Projections(s.shelf.files, ids))), Ok(m.id))
  }

  // ---- read marks ----

  function ClearRead(s: State, uuid: string, refs: set<Ref>, now: int): State {
    s.(box := s.box.(unread := s.box.unread - refs), lastRead := s.lastRead[uuid := now])
  }

  function MarkRead(s: State, uuid: string, id: string, now: int): State {
    if Ref(uuid, id) in s.box.unread then ClearRead(s, uuid, {Ref(uuid, id)}, now) else s
  }

  function MarkAllRead(s: State, address: string, now: int): (State, Result<nat, Error>) {
    var acc := GetAccount(s.accounts, address);
    if acc.None? then (s, Err(NoSuchAccount))
    else
      var refs := RefsOf(s.box.unread, acc.value.uuid);
      (if refs == {} then s else ClearRead(s, acc.value.uuid, refs, now), Ok(|refs|))
  }

  function Touch(s: State, address: string, now: int): State {
    var acc := GetAccount(s.accounts, address);
    if acc.None? then s else s.(lastRead := s.lastRead[acc.value.uuid := now])
  }

  // ---- the graph of subordinates ----

  function Declare(s: State, superior: string, subordinate: string, now: int): (State, Result<(), Error>) {
    if EqualFold(superior, subordinate) then (s, Err(SelfDeclared))
    else if GetAccount(s.accounts, superior).None? || GetAccount(s.accounts, subordinate).None?
    then (s, Err(NoSuchAccount))
    else (s.(subs := s.subs[SubKey(superior, subordinate) := SubRecord("both", now)]), Ok(()))
  }

  function Revoke(s: State, superior: string, subordinate: string): State {
    s.(subs := s.subs - {SubKey(superior, subordinate)})
  }

  function Notice(id: string, now: int, caller: string, other: string, subject: string, body: string): Message {
    Message(id, caller, [other], [], "", subject, body, [], now)
  }

  /** Ends one edge between the two, the one the caller declared if there are both, and
      tells the other side in the same transaction. */
  function Remove(s: State, caller: string, other: string, notice: Message): (State, Result<Role, Error>) {
    if IsSubordinate(s.subs, other, caller) then (Posted(Revoke(s, other, caller), notice), Ok(Subordinate))
    else if IsSubordinate(s.subs, caller, other) then (Posted(Revoke(s, caller, other), notice), Ok(Superior))
    else (s, Err(NoRelationship))
  }

  // ---- files ----

  ghost function SaveFile(s: State, f: FileRecord, content: Bytes,
      quota: int, cap: int): (State, Result<FileRecord, Error>)
  {
    if Fits(s.shelf, f, quota, cap) then (s.(shelf := Save(s.shelf, f, content)), Ok(f)) else (s, Err(QuotaExceeded))
  }

  predicate Owns(s: State, id: string, owner: string) {
    id in s.shelf.files && EqualFold(s.shelf.files[id].owner, owner)
  }

  function DeleteFile(s: State, id: string, owner: string): (State, Result<(), Error>) {
    if Owns(s, id, owner) then (s.(shelf := Discard(s.shelf, {id})), Ok(())) else (s, Err(FileNotFound))
  }

  function ExtendFile(s: State, id: string, owner: string, now: int): (State, Result<int, Error>) {
    if Owns(s, id, owner)
    then (s.(shelf := s.shelf.(files := s.shelf.files[id := Renew(s.shelf.files[id], now)])), Ok(now + FILE_TTL))
    else (s, Err(FileNotFound))
  }

  function Sweep(s: State, doomed: set<string>): State {
    s.(shelf := Discard(s.shelf, doomed))
  }

  function Authorize(s: State, requester: string, id: string, code: string): Result<FileRecord, Error> {
    if id in s.shelf.files && Permitted(s.shelf.files[id], requester) && s.shelf.files[id].accessCode == code
    then Ok(s.shelf.files[id]) else Err(FileNotFound)
  }
}
