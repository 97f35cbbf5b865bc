/** What uploading, deleting, renewing and sweeping do to the files, and what the statistics
    count. */
module FileMeaning {
  import opened Wrappers
  import opened Text
  import opened Mail
  import opened Files
  import opened StoreSpec
  import opened StoreRuns
  import opened FileLaws
  import opened AccessLaws

  // ---- the bytes in use ----

  /** The quota adds up the sizes of the files whose owner is spelled exactly so, the cap those of
      all files, and the statistics those whose owner is spelled so in some case. */
  lemma UsedMeaning(files: map<string, FileRecord>, f: FileRecord, owner: string)
    requires f.id !in files
    ensures Used(map[], OwnedBy(owner)) == Used(map[], Anyone()) == Used(map[], OwnedByFold(owner)) == 0
    ensures Used(files[f.id := f], Anyone()) == Used(files, Anyone()) + f.size
    ensures Used(files[f.id := f], OwnedBy(owner)) ==
      Used(files, OwnedBy(owner)) + if f.owner == owner then f.size else 0
    ensures Used(files[f.id := f], OwnedByFold(owner)) ==
      Used(files, OwnedByFold(owner)) + if ToLower(f.owner) == ToLower(owner) then f.size else 0
  {
    Nothing(OwnedBy(owner));
    Nothing(Anyone());
    Nothing(OwnedByFold(owner));
    UsedAdd(files, f, Anyone());
    UsedAdd(files, f, OwnedBy(owner));
    UsedAdd(files, f, OwnedByFold(owner));
  }

  // ---- one operation ----

  /** An upload is accepted if the owner's bytes with it stay within the quota and all bytes within
      the cap; then the record and the contents are stored, each under its key. */
  lemma SaveMeaning(s: State, f: FileRecord, content: Bytes, quota: int, cap: int)
    ensures var (t, r) := StoreSpec.SaveFile(s, f, content, quota, cap);
      if Used(s.shelf.files, OwnedBy(f.owner)) + f.size <= quota && Used(s.shelf.files, Anyone()) + f.size <= cap
      then r == Ok(f) && t == s.(shelf := t.shelf)
           && t.shelf.files == s.shelf.files[f.id := f] && t.shelf.data == s.shelf.data[f.id + ":d" := content]
      else t == s && r == Err(QuotaExceeded)
  {
  }

  /** The file and its contents are gone, all other files and contents are as they were. */
  ghost predicate OnlyGone(s: State, t: State, gone: set<string>) {
    && t == s.(shelf := t.shelf)
    && (forall id :: id in t.shelf.files <==> id in s.shelf.files && id !in gone)
    && (forall id :: id in t.shelf.files ==> t.shelf.files[id] == s.shelf.files[id])
    && (forall id :: id in s.shelf.files ==> (id + ":d" in t.shelf.data <==> id !in gone))
    && (forall k :: k in t.shelf.data ==> k in s.shelf.data && t.shelf.data[k] == s.shelf.data[k])
  }

  lemma SweepMeaning(s: State, doomed: set<string>)
    requires Sound(s)
    ensures OnlyGone(s, StoreSpec.Sweep(s, doomed), doomed)
  {
    var t := StoreSpec.Sweep(s, doomed);
    forall id | id in s.shelf.files ensures id + ":d" in t.shelf.data <==> id !in doomed {
      DiscardPairs(s.shelf, doomed, id);
      assert DataKey(id) == id + ":d";
    }
  }

  /** Only the owner, in whatever case, deletes a file; the same refusal answers everyone else. */
  lemma DeleteMeaning(s: State, id: string, requester: string)
    requires Sound(s)
    ensures var (t, r) := StoreSpec.DeleteFile(s, id, requester);
      if id in s.shelf.files && ToLower(s.shelf.files[id].owner) == ToLower(requester)
      then r == Ok(()) && OnlyGone(s, t, {id})
      else t == s && r == Err(FileNotFound)
  {
    SweepMeaning(s, {id});
  }

  /** Only the owner renews a file: it then counts as made now, and everything else stays. */
  lemma ExtendMeaning(s: State, id: string, requester: string, now: int)
    ensures var (t, r) := StoreSpec.ExtendFile(s, id, requester, now);
      if id in s.shelf.files && ToLower(s.shelf.files[id].owner) == ToLower(requester)
      then r == Ok(now + 30 * 24 * 60 * 60) && t == s.(shelf := t.shelf) && t.shelf.data == s.shelf.data
           && t.shelf.files.Keys == s.shelf.files.Keys
           && t.shelf.files[id] == s.shelf.files[id].(createdAt := now)
           && forall other :: other in s.shelf.files && other != id ==> t.shelf.files[other] == s.shelf.files[other]
      else t == s && r == Err(FileNotFound)
  {
  }

  // ---- in every run ----

  /** The last upload under the id. */
  ghost function Uploaded(ops: seq<Op>, id: string): Option<Op> {
    if ops == [] then None
    else if ops[|ops| - 1].Save? && ops[|ops| - 1].f.id == id then Some(ops[|ops| - 1])
    else Uploaded(ops[..|ops| - 1], id)
  }

  /** While a file lives, its contents are the bytes that were uploaded, and of its record only the
      list of readers and the time have changed. */
  ghost predicate AsUploaded(s: State, id: string, op: Option<Op>) {
    && op.Some? && op.value.Save? && id in s.shelf.files && id + ":d" in s.shelf.data
    && s.shelf.data[id + ":d"] == op.value.content
    && var f := s.shelf.files[id];
      f == op.value.f.(allowed := f.allowed, createdAt := f.createdAt)
  }

  lemma {:induction false} ContentsKept(ops: seq<Op>, id: string)
    requires Admissible(ops) && id in Run(ops).shelf.files
    ensures AsUploaded(Run(ops), id, Uploaded(ops, id))
  {
    var before, op := ops[..|ops| - 1], ops[|ops| - 1];
    var s := Run(before);
    RunSound(before);
    RunSound(ops);
    assert DataKey(id) == id + ":d";
    if op.Save? && op.f.id == id {
      assert Apply(s, op).shelf.files[id] == op.f;
    } else {
      ContentsStep(s, op, id);
      ContentsKept(before, id);
    }
  }

  /** From s to t, the file is still there with its contents; its readers and time may differ. */
  ghost predicate StillThere(s: State, t: State, id: string) {
    && id in s.shelf.files && id in t.shelf.files
    && (id + ":d" in s.shelf.data ==> id + ":d" in t.shelf.data && t.shelf.data[id + ":d"] == s.shelf.data[id + ":d"])
    && t.shelf.files[id] ==
         s.shelf.files[id].(allowed := t.shelf.files[id].allowed, createdAt := t.shelf.files[id].createdAt)
  }

  lemma ContentsStep(s: State, op: Op, id: string)
    requires Sound(s) && Fresh(s, op) && id in Apply(s, op).shelf.files && !(op.Save? && op.f.id == id)
    ensures StillThere(s, Apply(s, op), id)
  {
    match op {
      case SendWithAttachments(m, ids) => SendLeaves(s, m, ids, id);
      case Extend(other, owner, now) => ExtendMeaning(s, other, owner, now);
      case Save(f, content, quota, cap) => SaveLeaves(s, f, content, quota, cap, id);
      case Delete(other, owner) => DeleteMeaning(s, other, owner);
      case Sweep(doomed) => SweepMeaning(s, doomed);
      case _ => OtherShelves(s, op);
    }
  }

  lemma SendLeaves(s: State, m: Message, ids: seq<string>, id: string)
    requires Sound(s) && id in StoreSpec.SendWithAttachments(s, m, ids).0.shelf.files
    ensures StillThere(s, StoreSpec.SendWithAttachments(s, m, ids).0, id)
  {
    SendWithAttachmentsMeaning(s, m, ids);
  }

  lemma SaveLeaves(s: State, f: FileRecord, content: Bytes, quota: int, cap: int, id: string)
    requires f.id != id && id in StoreSpec.SaveFile(s, f, content, quota, cap).0.shelf.files
    ensures StillThere(s, StoreSpec.SaveFile(s, f, content, quota, cap).0, id)
  {
    SaveMeaning(s, f, content, quota, cap);
    if DataKey(f.id) == DataKey(id) { DataKeyInjective(f.id, id); }
  }

  // ---- expiry and statistics ----

  /** A sweep takes the files that are older than thirty days. */
  lemma ExpiredMeaning(files: map<string, FileRecord>, now: int, id: string)
    ensures id in Expired(files, now) <==> id in files && files[id].createdAt + 30 * 24 * 60 * 60 < now
  {
  }

  /** The statistics count the owner's files, and those of them whose thirty days end later than
      now and within a week. */
  lemma StatisticsMeaning(files: map<string, FileRecord>, owner: string, now: int, id: string)
    ensures id in LiveFiles(files, owner) <==> id in files && ToLower(files[id].owner) == ToLower(owner)
    ensures id in ExpiringSoon(files, owner, now) <==>
      id in LiveFiles(files, owner) && now < files[id].createdAt + 30 * 24 * 60 * 60 <= now + 7 * 24 * 60 * 60
  {
  }

  /** Those are the files that a sweep would leave now, but any sweep later than a week from now
      would take, except for one whose time ends this very second: it is not counted any more, and
      still left. */
  lemma SoonMeaning(files: map<string, FileRecord>, owner: string, now: int, id: string)
    requires id in LiveFiles(files, owner)
    ensures (id !in Expired(files, now) && forall later :: later > now + 7 * 24 * 60 * 60 ==>
               id in Expired(files, later))
      <==> id in ExpiringSoon(files, owner, now) || files[id].createdAt + 30 * 24 * 60 * 60 == now
  {
    var week := now + 7 * 24 * 60 * 60 + 1;
    assert id in Expired(files, week) <==> files[id].createdAt + 30 * 24 * 60 * 60 < week;
  }
}
