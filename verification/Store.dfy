/** The store itself: buckets changed in place, one method for each transaction. */
module Store {
  import opened Wrappers
  import opened Text
  import opened Sorting
  import opened Mail
  import opened Directory
  import opened Mailbox
  import opened Files
  import opened Subs
  import opened StoreSpec
  import opened Sequences
  import opened Delivery
  import opened Granting
  import opened IndexKeys
  import opened AccountCase
  import opened Teams

  class Store {
    var accounts: map<string, Account>
    var subs: map<string, SubRecord>
    var messages: map<string, Message>
    var inbox: set<Ref>
    var sent: set<Ref>
    var unread: set<Ref>
    var files: map<string, FileRecord>
    var fileData: map<string, Bytes>
    var lastRead: map<string, int>

    function View(): State
      reads this
    {
      State(accounts, subs, Box(messages, inbox, sent, unread), Shelf(files, fileData), lastRead)
    }

    constructor ()
      ensures View() == Empty()
    {
      accounts, subs, messages, files, fileData, lastRead := map[], map[], map[], map[], map[], map[];
      inbox, sent, unread := {}, {}, {};
    }

    // ---- mail ----

    /** Files an entry for each account the addresses reach, one copy per account however
        often and in whatever case it is named. */
    method DeliverTo(id: string, addrs: seq<string>) returns (delivered: nat)
      modifies this`inbox, this`unread
      ensures delivered == |Recipients(accounts, addrs)|
      ensures inbox == old(inbox) + RefsTo(Uuids(accounts, Recipients(accounts, addrs)), id)
      ensures unread == old(unread) + RefsTo(Uuids(accounts, Recipients(accounts, addrs)), id)
    {
      delivered := 0;
      var seen: set<string> := {};
      ghost var refs: set<Ref> := {};
      for i := 0 to |addrs|
        invariant Reached(accounts, addrs[..i], id, seen, refs, delivered)
        invariant inbox == old(inbox) + refs && unread == old(unread) + refs
      {
        var l := ToLower(addrs[i]);
        if l !in seen {
          ReachNew(accounts, addrs, i, id, seen, refs, delivered);
          seen := seen + {l};
          var found := DeliverOne(id, addrs[i]);
          if found {
            JoinOne(old(inbox), refs, Ref(accounts[l].uuid, id));
            JoinOne(old(unread), refs, Ref(accounts[l].uuid, id));
            refs := refs + {Ref(accounts[l].uuid, id)};
            delivered := delivered + 1;
          }
        } else {
          ReachAgain(accounts, addrs, i, id, seen, refs, delivered);
        }
      }
      TakeAll(addrs);
    }

    method DeliverOne(id: string, addr: string) returns (found: bool)
      modifies this`inbox, this`unread
      ensures found == (ToLower(addr) in accounts)
      ensures found ==> inbox == old(inbox) + {Ref(accounts[ToLower(addr)].uuid, id)}
      ensures found ==> unread == old(unread) + {Ref(accounts[ToLower(addr)].uuid, id)}
      ensures !found ==> inbox == old(inbox) && unread == old(unread)
    {
      var acc := GetAccount(accounts, addr);
      found := acc.Some?;
      if acc.Some? {
        inbox := inbox + {Ref(acc.value.uuid, id)};
        unread := unread + {Ref(acc.value.uuid, id)};
      }
    }

    method FileSent(id: string, from: string)
      modifies this`sent
      ensures sent == old(sent) + RefsTo(SenderUuids(accounts, from), id)
    {
      var acc := GetAccount(accounts, from);
      if acc.Some? { sent := sent + {Ref(acc.value.uuid, id)}; }
    }

    /** Stores the message and every entry that refers to it. */
    method Post(m: Message) returns (delivered: nat)
      modifies this`messages, this`inbox, this`unread, this`sent
      ensures View() == Posted(old(View()), m) && delivered == |Recipients(accounts, m.to + m.cc)|
    {
      messages := messages[m.id := m];
      delivered := DeliverTo(m.id, m.to + m.cc);
      FileSent(m.id, m.from);
    }

    method Send(msgID: string, now: int, from: string, to: seq<string>, cc: seq<string>,
        subject: string, body: string, inReplyTo: string)
      returns (r: Result<string, Error>)
      modifies this
      ensures (View(), r) ==
        StoreSpec.Send(old(View()), Message(msgID, from, to, cc, inReplyTo, subject, body, [], now))
    {
      if inReplyTo != "" && inReplyTo !in messages { return Err(NoSuchParent); }
      var delivered := 0;
      if msgID !in messages {
        delivered := Post(Message(msgID, from, to, cc, inReplyTo, subject, body, [], now));
      }
      if delivered == 0 { return Err(NoRecipients); }
      r := Ok(msgID);
    }

    /** Resolves the attachments; the first that is missing or foreign ends it. */
    method ResolveAttachments(from: string, ids: seq<string>) returns (metas: seq<Attachment>, refused: Option<Error>)
      ensures refused == Refusal(files, from, ids)
      ensures refused.None? ==> (forall id :: id in ids ==> id in files) && metas == Projections(files, ids)
    {
      metas := [];
      for i := 0 to |ids|
        invariant Refusal(files, from, ids) == Refusal(files, from, ids[i..])
        invariant |metas| == i
        invariant forall j :: 0 <= j < i ==> ids[j] in files && metas[j] == Projection(files[ids[j]])
      {
        DropOne(ids, i);
        if ids[i] !in files { return metas, Some(AttachmentNotFound(ids[i])); }
        if !EqualFold(files[ids[i]].owner, from) { return metas, Some(AttachmentNotOwned(ids[i])); }
        metas := metas + [Projection(files[ids[i]])];
      }
      refused := None;
    }

    /** The addresses that name accounts, in the spelling that came first. */
    method ValidRecipients(addrs: seq<string>) returns (valid: seq<string>)
      ensures Lowered(valid) == Recipients(accounts, addrs) && Distinct(valid)
    {
      valid := [];
      var seen: set<string> := {};
      for i := 0 to |addrs|
        invariant seen == Lowered(addrs[..i]) && Lowered(valid) == seen * accounts.Keys && Distinct(valid)
      {
        LoweredTake(addrs, i);
        var l := ToLower(addrs[i]);
        if l !in seen {
          Meet(seen, accounts.Keys, l);
          seen := seen + {l};
          if GetAccount(accounts, addrs[i]).Some? {
            LoweredStep(valid, addrs[i]);
            DistinctStep(valid, addrs[i]);
            valid := valid + [addrs[i]];
          }
        } else {
          JoinOne({}, seen, l);
        }
      }
      TakeAll(addrs);
    }

    method GrantFiles(ids: seq<string>, valid: seq<string>)
      requires forall id :: id in ids ==> id in files
      modifies this`files
      ensures files == GrantAll(old(files), Elements(ids), Lowered(valid))
    {
      for i := 0 to |ids|
        invariant files == GrantAll(old(files), Elements(ids[..i]), Lowered(valid))
      {
        GrantNext(old(files), ids, i, valid);
        var f := Extend(files[ids[i]], valid);
        files := files[ids[i] := f];
      }
      TakeAll(ids);
    }

    /** One entry per valid recipient. */
    method DeliverEach(id: string, valid: seq<string>, ghost names: set<string>) returns (delivered: nat)
      requires Distinct(valid) && names == Recipients(accounts, valid)
      modifies this`inbox, this`unread
      ensures delivered == |names|
      ensures inbox == old(inbox) + RefsTo(Uuids(accounts, names), id)
      ensures unread == old(unread) + RefsTo(Uuids(accounts, names), id)
    {
      delivered := 0;
      ghost var refs: set<Ref> := {};
      for i := 0 to |valid|
        invariant Reached(accounts, valid[..i], id, Lowered(valid[..i]), refs, delivered)
        invariant inbox == old(inbox) + refs && unread == old(unread) + refs
      {
        DistinctNew(valid, i);
        ReachNew(accounts, valid, i, id, Lowered(valid[..i]), refs, delivered);
        LoweredTake(valid, i);
        var found := DeliverOne(id, valid[i]);
        if found {
          var l := ToLower(valid[i]);
          JoinOne(old(inbox), refs, Ref(accounts[l].uuid, id));
          JoinOne(old(unread), refs, Ref(accounts[l].uuid, id));
          refs := refs + {Ref(accounts[l].uuid, id)};
          delivered := delivered + 1;
        }
      }
      TakeAll(valid);
    }

    method SendWithAttachments(msgID: string, now: int, from: string, to: seq<string>, cc: seq<string>,
        subject: string, body: string, attachIDs: seq<string>, inReplyTo: string)
      returns (r: Result<string, Error>)
      modifies this
      ensures (View(), r) == StoreSpec.SendWithAttachments(old(View()),
        Message(msgID, from, to, cc, inReplyTo, subject, body, [], now), attachIDs)
    {
      if inReplyTo != "" && inReplyTo !in messages { return Err(NoSuchParent); }
      var metas, refused := ResolveAttachments(from, attachIDs);
      if refused.Some? { return Err(refused.value); }
      var valid := ValidRecipients(to + cc);
      if |valid| == 0 { NobodyValid(valid); return Err(NoRecipients); }
      SomebodyValid(valid);
      GrantFiles(attachIDs, valid);
      if msgID in messages { return Err(NoRecipients); }
      PostTo(Message(msgID, from, to, cc, inReplyTo, subject, body, metas, now), valid);
      r := Ok(msgID);
    }

    method PostTo(m: Message, valid: seq<string>)
      requires Lowered(valid) == Recipients(accounts, m.to + m.cc) && Distinct(valid)
      modifies this`messages, this`inbox, this`unread, this`sent
      ensures View() == Posted(old(View()), m)
    {
      SameRecipients(accounts, valid, m.to + m.cc);
      messages := messages[m.id := m];
      var delivered := DeliverEach(m.id, valid, Recipients(accounts, m.to + m.cc));
      FileSent(m.id, m.from);
    }

    // ---- read marks: a View, then an Update if there is anything to do ----

    method MarkReadView(uuid: string, id: string) returns (needsWrite: bool)
      ensures needsWrite == (Ref(uuid, id) in unread)
    {
      needsWrite := Ref(uuid, id) in unread;
    }

    method MarkReadUpdate(uuid: string, id: string, now: int)
      modifies this`unread, this`lastRead
      ensures View() == ClearRead(old(View()), uuid, {Ref(uuid, id)}, now)
    {
      unread := unread - {Ref(uuid, id)};
      lastRead := lastRead[uuid := now];
    }

    method MarkRead(uuid: string, id: string, now: int)
      modifies this`unread, this`lastRead
      ensures View() == StoreSpec.MarkRead(old(View()), uuid, id, now)
    {
      var needsWrite := MarkReadView(uuid, id);
      if needsWrite { MarkReadUpdate(uuid, id, now); }
    }

    /** Opening a message needs an inbox or a sent entry, and clears its unread mark. */
    method GetMessage(requester: string, id: string, now: int) returns (r: Result<Message, Error>)
      requires Uniform(View())
      modifies this`unread, this`lastRead
      ensures var acc := GetAccount(accounts, requester);
        if acc.None? then r == Err(NoSuchAccount) && View() == old(View())
        else if (Ref(acc.value.uuid, id) in inbox || Ref(acc.value.uuid, id) in sent) && id in messages
        then r == Ok(messages[id]) && View() == StoreSpec.MarkRead(old(View()), acc.value.uuid, id, now)
        else r == Err(MessageNotFound) && View() == old(View())
    {
      var acc := GetAccount(accounts, requester);
      if acc.None? { return Err(NoSuchAccount); }
      var uuid := acc.value.uuid;
      var received := Collect(inbox, uuid);
      var visible := id in received;
      if !visible {
        var posted := Collect(sent, uuid);
        visible := id in posted;
        assert visible <==> Ref(uuid, id) in sent by { IdListed(sent, uuid, id); }
      }
      IdListed(inbox, uuid, id);
      if !visible || id !in messages { return Err(MessageNotFound); }
      MarkRead(uuid, id, now);
      r := Ok(messages[id]);
    }

    /** The first transaction of MarkAllRead. */
    method MarkAllReadView(address: string) returns (uuid: string, ids: seq<string>, found: bool)
      requires Uniform(View())
      ensures found == GetAccount(accounts, address).Some?
      ensures found ==> uuid == accounts[ToLower(address)].uuid && ids == Ascending(Ids(unread, uuid))
    {
      var acc := GetAccount(accounts, address);
      found, uuid, ids := acc.Some?, "", [];
      if found {
        uuid := acc.value.uuid;
        ids := Collect(unread, uuid);
      }
    }

    /** The second transaction: it clears what the first one saw, whatever came since. */
    method MarkAllReadUpdate(uuid: string, ids: seq<string>, now: int)
      modifies this`unread, this`lastRead
      ensures View() == ClearRead(old(View()), uuid, RefsWith(uuid, Elements(ids)), now)
    {
      for i := 0 to |ids|
        invariant unread == old(unread) - RefsWith(uuid, Elements(ids[..i])) && lastRead == old(lastRead)
      {
        WithoutNext(old(unread), uuid, ids, i);
        unread := unread - {Ref(uuid, ids[i])};
      }
      TakeAll(ids);
      lastRead := lastRead[uuid := now];
    }

    method MarkAllRead(address: string, now: int) returns (r: Result<nat, Error>)
      requires Uniform(View())
      modifies this`unread, this`lastRead
      ensures (View(), r) == StoreSpec.MarkAllRead(old(View()), address, now)
    {
      var uuid, ids, found := MarkAllReadView(address);
      if !found { return Err(NoSuchAccount); }
      AllIdsListed(unread, uuid);
      if |ids| == 0 { return Ok(0); }
      MarkAllReadUpdate(uuid, ids, now);
      r := Ok(|ids|);
    }

    method TouchLastReadPull(address: string, now: int)
      modifies this`lastRead
      ensures View() == Touch(old(View()), address, now)
    {
      var acc := GetAccount(accounts, address);
      if acc.Some? { lastRead := lastRead[acc.value.uuid := now]; }
    }

    // ---- accounts and the graph of subordinates ----

    method CreateAccount(uuid: string, name: string, domain: string, now: int) returns (r: Result<string, Error>)
      modifies this`accounts
      ensures (View(), r) ==
        StoreSpec.CreateAccount(old(View()), NewAccount(uuid, name, domain, now))
    {
      var trimmed := TrimSpace(name);
      var address := ToLower(trimmed + "@" + domain);
      var acc := Account(uuid, address, "", "", now);
      TrimTwice(name);
      var display := TrimSpace(trimmed);
      if display != "" && display != ToLower(display) { acc := acc.(displayLocal := display); }
      if address in accounts { return Err(AccountExists); }
      accounts := accounts[address := acc];
      r := Ok(uuid);
    }

    /** An error rolls the transaction back. */
    method RegisterTeam(t: Team) returns (r: Result<(string, seq<string>), Error>)
      modifies this`accounts, this`subs
      ensures (View(), r) == Teams.RegisterTeam(old(View()), t)
    {
      if t.size < 1 || t.size > 10 { return Err(BadTeam); }
      if |t.names| > 0 && |t.names| != t.size { return Err(BadTeam); }
      var ownerAddr := ToLower(t.username + "@" + t.domain);
      if ownerAddr in accounts { return Err(AccountExists); }
      var accountsBefore, subsBefore := accounts, subs;
      var owner := Account(t.uuid(0), ownerAddr, "", "", t.now);
      var u := TrimSpace(t.username);
      if u != "" && u != ToLower(u) { owner := owner.(displayLocal := u); }
      accounts := accounts[ownerAddr := owner];
      var members := EnrolMembers(t, ownerAddr);
      if members.None? {
        accounts, subs := accountsBefore, subsBefore;
        return Err(NoMemberName);
      }
      r := Ok((ownerAddr, members.value));
    }

    method EnrolMembers(t: Team, ownerAddr: string) returns (members: Option<seq<string>>)
      requires t.size >= 0 && ownerAddr == Owner(t).address && ownerAddr in accounts
      modifies this`accounts, this`subs
      ensures members.None? ==> Enrol(old(View()), t, t.size) == None
      ensures members.Some? ==> Enrol(old(View()), t, t.size) == Some((View(), members.value))
    {
      var claimed := {ownerAddr};
      var addrs: seq<string> := [];
      for i := 0 to t.size
        invariant Enrol(old(View()), t, i) == Some((View(), addrs))
        invariant claimed <= accounts.Keys
      {
        var addr := EnrolOne(t, ownerAddr, claimed, i);
        if addr.None? {
          StaysNone(old(View()), t, i + 1, t.size);
          return None;
        }
        claimed := claimed + {addr.value};
        addrs := addrs + [addr.value];
      }
      members := Some(addrs);
    }

    method EnrolOne(t: Team, ownerAddr: string, claimed: set<string>, i: nat) returns (addr: Option<string>)
      requires claimed <= accounts.Keys
      modifies this`accounts, this`subs
      ensures var name := NameFor(old(View()), t, i);
        if name.None? then addr == None
        else (addr == Some(Member(t, i, name.value).address)
              && View() == Enlist(old(View()), ownerAddr, Member(t, i, name.value)))
    {
      var name := AllocateMemberName(accounts.Keys, claimed, t, i);
      if name.None? { return None; }
      var mAddr := name.value + "@" + t.domain;
      var mAcc := Account(t.uuid(i + 1), mAddr, "", "", t.now);
      if i < |t.names| {
        var orig := TrimSpace(t.names[i]);
        if orig != "" && orig != ToLower(orig) && name.value == ToLower(orig) { mAcc := mAcc.(displayLocal := orig); }
      }
      accounts := accounts[mAddr := mAcc];
      subs := subs[SubKey(ownerAddr, mAddr) := SubRecord("both", t.now)];
      addr := Some(mAddr);
    }

    /** Repairs keys with uppercase letters: of several spellings of one address, the lowercase
        record stays, or else the first in byte order moves to the lowercase key. */
    method NormalizeAccountCase() returns (alreadyLower: nat, renamed: nat, deletedDupes: nat)
      modifies this`accounts
      ensures accounts == Normalized(old(accounts))
      ensures alreadyLower == |AlreadyLower(old(accounts))|
      ensures renamed == |LowerKeys(old(accounts)) - old(accounts).Keys|
      ensures alreadyLower + renamed + deletedDupes == |old(accounts)|
    {
      var todo: seq<string>;
      todo, alreadyLower := CollectPending(accounts);
      ghost var before := accounts;
      renamed, deletedDupes := Settle(todo);
      Finished(before, todo, accounts);
      PendingCount(before, todo);
    }

    /** The second pass. */
    method Settle(todo: seq<string>) returns (renamed: nat, deletedDupes: nat)
      requires IsPending(accounts, todo)
      modifies this`accounts
      ensures Settling(old(accounts), todo, |todo|, accounts, renamed, deletedDupes)
    {
      var before := accounts;
      renamed, deletedDupes := 0, 0;
      StartHalfway(before, todo);
      for i := 0 to |todo|
        invariant Settling(before, todo, i, accounts, renamed, deletedDupes)
      {
        var lower := ToLower(todo[i]);
        SettleNext(before, todo, i, accounts, renamed, deletedDupes);
        if lower in accounts {
          accounts := accounts - {todo[i]};
          deletedDupes := deletedDupes + 1;
        } else {
          accounts := accounts[lower := before[todo[i]].(address := lower)] - {todo[i]};
          renamed := renamed + 1;
        }
      }
    }

    method DeclareSubordinate(superior: string, subordinate: string, now: int) returns (r: Result<(), Error>)
      modifies this`subs
      ensures (View(), r) == Declare(old(View()), superior, subordinate, now)
    {
      if EqualFold(superior, subordinate) { return Err(SelfDeclared); }
      if GetAccount(accounts, superior).None? { return Err(NoSuchAccount); }
      if GetAccount(accounts, subordinate).None? { return Err(NoSuchAccount); }
      subs := subs[SubKey(superior, subordinate) := SubRecord("both", now)];
      r := Ok(());
    }

    method RevokeSubordinate(superior: string, subordinate: string)
      modifies this`subs
      ensures View() == Revoke(old(View()), superior, subordinate)
    {
      subs := subs - {SubKey(superior, subordinate)};
    }

    /** The texts of the notice are parameters. */
    method RemoveSubordinate(msgID: string, now: int, caller: string, other: string, subject: string, body: string)
      returns (r: Result<Role, Error>)
      modifies this
      ensures (View(), r) == Remove(old(View()), caller, other, Notice(msgID, now, caller, other, subject, body))
    {
      var role := Subordinate;
      if IsSubordinate(subs, other, caller) {
        RevokeSubordinate(other, caller);
      } else if IsSubordinate(subs, caller, other) {
        RevokeSubordinate(caller, other);
        role := Superior;
      } else {
        return Err(NoRelationship);
      }
      var delivered := Post(Notice(msgID, now, caller, other, subject, body));
      r := Ok(role);
    }

    // ---- files ----

    /** quota and cap are the settings in force; one scan sums both totals. */
    method SaveFile(id: string, code: string, now: int, owner: string, filename: string, allowed: seq<string>,
        content: Bytes, quota: int, cap: int)
      returns (r: Result<FileRecord, Error>)
      modifies this`files, this`fileData
      ensures (View(), r) == StoreSpec.SaveFile(old(View()),
        FileRecord(id, owner, filename, |content|, code, allowed, now), content, quota, cap)
    {
      var f := FileRecord(id, owner, filename, |content|, code, allowed, now);
      var used, total := SumSizes(owner);
      if used + f.size > quota { return Err(QuotaExceeded); }
      if total + f.size > cap { return Err(QuotaExceeded); }
      files := files[id := f];
      fileData := fileData[DataKey(id) := content];
      r := Ok(f);
    }

    method SumSizes(owner: string) returns (used: int, total: int)
      ensures used == Used(files, OwnedBy(owner)) && total == Used(files, Anyone())
    {
      used, total := 0, 0;
      var todo := files.Keys;
      while todo != {}
        invariant todo <= files.Keys
        invariant used + SumOver(files, todo, OwnedBy(owner)) == Used(files, OwnedBy(owner))
        invariant total + SumOver(files, todo, Anyone()) == Used(files, Anyone())
        decreases todo
      {
        var id :| id in todo;
        SumOverTake(files, todo, OwnedBy(owner), id);
        SumOverTake(files, todo, Anyone(), id);
        total := total + files[id].size;
        if files[id].owner == owner { used := used + files[id].size; }
        todo := todo - {id};
      }
    }

    method AuthorizeFileDownload(requester: string, id: string, code: string) returns (r: Result<FileRecord, Error>)
      ensures r == Authorize(View(), requester, id, code)
    {
      if id !in files { return Err(FileNotFound); }
      var rec := files[id];
      var permitted := EqualFold(rec.owner, requester);
      var i := 0;
      while !permitted && i < |rec.allowed|
        invariant 0 <= i <= |rec.allowed|
        invariant permitted ==> Permitted(rec, requester)
        invariant !permitted ==> !EqualFold(rec.owner, requester)
        invariant !permitted ==> forall j :: 0 <= j < i ==> !EqualFold(rec.allowed[j], requester)
      {
        if EqualFold(rec.allowed[i], requester) { permitted := true; }
        i := i + 1;
      }
      if !permitted || rec.accessCode != code { return Err(FileNotFound); }
      r := Ok(rec);
    }

    method DeleteFile(id: string, owner: string) returns (r: Result<(), Error>)
      modifies this`files, this`fileData
      ensures (View(), r) == StoreSpec.DeleteFile(old(View()), id, owner)
    {
      if id !in files || !EqualFold(files[id].owner, owner) { return Err(FileNotFound); }
      DropFile(id);
      r := Ok(());
    }

    method DropFile(id: string)
      modifies this`files, this`fileData
      ensures Shelf(files, fileData) == Discard(old(Shelf(files, fileData)), {id})
    {
      if id in files { fileData := fileData - {DataKey(files[id].id)}; }
      files := files - {id};
    }

    method ExtendFile(id: string, owner: string, now: int) returns (r: Result<int, Error>)
      modifies this`files
      ensures (View(), r) == StoreSpec.ExtendFile(old(View()), id, owner, now)
      ensures r.Ok? ==> forall later :: id in Expired(files, later) <==> later > r.value
    {
      if id !in files || !EqualFold(files[id].owner, owner) { return Err(FileNotFound); }
      files := files[id := files[id].(createdAt := now)];
      r := Ok(now + FILE_TTL);
    }

    /** The first transaction of the sweep. */
    method CleanupView(now: int) returns (doomed: set<string>)
      ensures doomed == Expired(files, now)
    {
      var cutoff := now - FILE_TTL;
      doomed := {};
      var todo := files.Keys;
      while todo != {}
        invariant todo <= files.Keys && doomed == Expired(files, now) - todo
        decreases todo
      {
        var id :| id in todo;
        if files[id].createdAt < cutoff { doomed := doomed + {id}; }
        todo := todo - {id};
      }
    }

    /** The second transaction: what the first one saw goes, renewed or not. */
    method CleanupUpdate(doomed: set<string>)
      modifies this`files, this`fileData
      ensures View() == Sweep(old(View()), doomed)
    {
      ghost var done: set<string> := {};
      var todo := doomed;
      DiscardNothing(Shelf(files, fileData));
      while todo != {}
        invariant todo !! done && done + todo == doomed
        invariant Shelf(files, fileData) == Discard(old(Shelf(files, fileData)), done)
        decreases todo
      {
        var id :| id in todo;
        DiscardNext(old(Shelf(files, fileData)), done, id);
        DropFile(id);
        done := done + {id};
        todo := todo - {id};
      }
      assert done == doomed;
    }

    /** Run without interruption, the sweep removes exactly the files past their time. */
    method CleanupExpiredFiles(now: int) returns (evicted: nat)
      modifies this`files, this`fileData
      ensures View() == Sweep(old(View()), Expired(old(files), now)) && evicted == |Expired(old(files), now)|
    {
      var doomed := CleanupView(now);
      DiscardNothing(Shelf(files, fileData));
      if |doomed| == 0 { return 0; }
      CleanupUpdate(doomed);
      evicted := |doomed|;
    }

    method AccountFileStats(owner: string, now: int) returns (used: int, count: nat, soon: nat)
      ensures used == Used(files, OwnedByFold(owner))
      ensures count == |LiveFiles(files, owner)| && soon == |ExpiringSoon(files, owner, now)|
    {
      used, count, soon := 0, 0, 0;
      var todo := files.Keys;
      TallyStart(files, owner, now);
      while todo != {}
        invariant Tallied(files, owner, now, todo, used, count, soon)
        decreases todo
      {
        var id :| id in todo;
        TallyNext(files, owner, now, todo, used, count, soon, id);
        if EqualFold(files[id].owner, owner) {
          used := used + files[id].size;
          count := count + 1;
          var age := now - files[id].createdAt;
          if age >= FILE_TTL - WEEK && age < FILE_TTL { soon := soon + 1; }
        }
        todo := todo - {id};
      }
    }
  }
}
