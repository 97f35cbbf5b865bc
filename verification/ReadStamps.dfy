/** When an account was last read. */
module ReadStamps {
  import opened Wrappers
  import opened Text
  import opened Mailbox
  import opened StoreSpec
  import opened StoreRuns
  import opened Teams

  /** The time of the account's last clearing or pull; a pull finds the account by its address. */
  ghost function LastRead(ops: seq<Op>, uuid: string): Option<int> {
    if ops == [] then None
    else
      var before, op := ops[..|ops| - 1], ops[|ops| - 1];
      var accounts := Run(before).accounts;
      if op.Clear? && op.uuid == uuid then Some(op.now)
      else if op.Touch? && ToLower(op.address) in accounts && accounts[ToLower(op.address)].uuid == uuid
      then Some(op.now)
      else LastRead(before, uuid)
  }

  /** That is the account's stamp: nothing else sets it, and nothing that anyone else does moves
      it. */
  lemma {:induction false} StampMeaning(ops: seq<Op>, uuid: string)
    ensures var stamps := Run(ops).lastRead;
      if uuid in stamps then LastRead(ops, uuid) == Some(stamps[uuid]) else LastRead(ops, uuid) == None
  {
    if ops != [] {
      StampMeaning(ops[..|ops| - 1], uuid);
      OthersLeaveStamps(Run(ops[..|ops| - 1]), ops[|ops| - 1]);
    }
  }

  lemma OthersLeaveStamps(s: State, op: Op)
    ensures !op.Clear? && !op.Touch? ==> Apply(s, op).lastRead == s.lastRead
  {
    if op.RegisterTeam? { RegisterFrame(s, op.team); }
  }

  // ---- the operations that stamp ----

  /** Reading one message takes its mark and sets the stamp; a message already read leaves the
      store alone. */
  lemma MarkReadMeaning(s: State, uuid: string, id: string, now: int)
    ensures var t := StoreSpec.MarkRead(s, uuid, id, now);
      if Ref(uuid, id) in s.box.unread
      then t == s.(box := s.box.(unread := t.box.unread), lastRead := t.lastRead)
           && t.box.unread == s.box.unread - {Ref(uuid, id)} && t.lastRead == s.lastRead[uuid := now]
      else t == s
  {
  }

  /** Reading all takes the account's marks and no others, and counts them; with none it leaves the
      store alone. */
  lemma MarkAllReadMeaning(s: State, address: string, now: int)
    ensures var (t, r) := StoreSpec.MarkAllRead(s, address, now);
      if ToLower(address) !in s.accounts then t == s && r == Err(NoSuchAccount)
      else
        var uuid := s.accounts[ToLower(address)].uuid;
        && t == s.(box := s.box.(unread := t.box.unread), lastRead := t.lastRead)
        && (forall q: Ref :: q in t.box.unread <==> q in s.box.unread && q.uuid != uuid)
        && r == Ok(|s.box.unread| - |t.box.unread|)
        && t.lastRead == if t.box.unread == s.box.unread then s.lastRead else s.lastRead[uuid := now]
  {
    if ToLower(address) in s.accounts {
      var uuid := s.accounts[ToLower(address)].uuid;
      var rest := s.box.unread - RefsOf(s.box.unread, uuid);
      assert s.box.unread == rest + RefsOf(s.box.unread, uuid);
      if RefsOf(s.box.unread, uuid) == {} { assert rest == s.box.unread; }
    }
  }

  /** A pull stamps the account it finds. */
  lemma TouchMeaning(s: State, address: string, now: int)
    ensures var t := StoreSpec.Touch(s, address, now);
      if ToLower(address) in s.accounts
      then t == s.(lastRead := t.lastRead) && t.lastRead == s.lastRead[s.accounts[ToLower(address)].uuid := now]
      else t == s
  {
  }
}
