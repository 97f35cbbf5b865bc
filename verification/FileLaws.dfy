/** Quotas, pairing of metadata with contents, and the sweep, in every reachable state. */
module FileLaws {
  import opened Text
  import opened Sequences
  import opened Mail
  import opened Files
  import opened StoreSpec
  import opened StoreRuns
  import opened StoreLaws

  /** The settings stay as they are during the run. */
  ghost predicate FixedLimits(ops: seq<Op>, quota: int, cap: int) {
    forall op :: op in ops && op.Save? ==> op.quota == quota && op.cap == cap
  }

  /** Owners are spelled as accounts are: in lowercase. */
  ghost predicate CanonicalOwners(ops: seq<Op>) {
    forall op :: op in ops && op.Save? ==> IsLower(op.f.owner)
  }

  ghost predicate WithinQuotas(files: map<string, FileRecord>, quota: int, cap: int) {
    Used(files, Anyone()) <= cap && forall owner :: UsedBy(files, owner) <= quota
  }

  ghost function UsedBy(files: map<string, FileRecord>, owner: string): int {
    Used(files, OwnedBy(owner))
  }

  /** No owner ever exceeds the quota, and all files together never exceed the cap. */
  lemma {:induction false} QuotasKept(ops: seq<Op>, quota: int, cap: int)
    requires Admissible(ops) && FixedLimits(ops, quota, cap) && 0 <= quota && 0 <= cap
    ensures WithinQuotas(Run(ops).shelf.files, quota, cap)
  {
    if ops == [] {
      forall owner ensures UsedBy(map[], owner) <= quota { Nothing(OwnedBy(owner)); }
      Nothing(Anyone());
    } else {
      QuotasKept(ops[..|ops| - 1], quota, cap);
      QuotaStep(Run(ops[..|ops| - 1]), ops[|ops| - 1], quota, cap);
    }
  }

  lemma Nothing(p: FileRecord -> bool)
    ensures Used(map[], p) == 0
  {
  }

  lemma QuotaStep(s: State, op: Op, quota: int, cap: int)
    requires WithinQuotas(s.shelf.files, quota, cap) && Fresh(s, op)
    requires op.Save? ==> op.quota == quota && op.cap == cap
    ensures WithinQuotas(Apply(s, op).shelf.files, quota, cap)
  {
    match op {
      case Save(f, content, _, _) => SaveWithin(s.shelf, f, quota, cap);
      case Sweep(doomed) => DiscardWithin(s.shelf.files, doomed, quota, cap);
      case Delete(id, _) => DiscardWithin(s.shelf.files, {id}, quota, cap);
      case _ => SizesStep(s, op, quota, cap);
    }
  }

  lemma SizesStep(s: State, op: Op, quota: int, cap: int)
    requires WithinQuotas(s.shelf.files, quota, cap) && !op.Save? && !op.Delete? && !op.Sweep?
    ensures WithinQuotas(Apply(s, op).shelf.files, quota, cap)
  {
    SizesKept(s, op);
    SameWithin(s.shelf.files, Apply(s, op).shelf.files, quota, cap);
  }

  lemma SaveWithin(s: Shelf, f: FileRecord, quota: int, cap: int)
    requires WithinQuotas(s.files, quota, cap) && f.id !in s.files
    ensures Fits(s, f, quota, cap) ==> WithinQuotas(s.files[f.id := f], quota, cap)
  {
    if Fits(s, f, quota, cap) {
      var more := s.files[f.id := f];
      UsedAdd(s.files, f, Anyone());
      forall owner ensures UsedBy(more, owner) <= quota {
        UsedAdd(s.files, f, OwnedBy(owner));
        assert UsedBy(s.files, owner) <= quota;
      }
    }
  }

  lemma DiscardWithin(files: map<string, FileRecord>, doomed: set<string>, quota: int, cap: int)
    requires WithinQuotas(files, quota, cap)
    ensures WithinQuotas(files - doomed, quota, cap)
  {
    UsedDiscard(files, doomed, Anyone());
    forall owner ensures UsedBy(files - doomed, owner) <= quota {
      UsedDiscard(files, doomed, OwnedBy(owner));
      assert UsedBy(files, owner) <= quota;
    }
  }

  /** Same ids, same owners, same sizes. */
  ghost predicate SameSizes(files: map<string, FileRecord>, more: map<string, FileRecord>) {
    && files.Keys == more.Keys
    && forall id :: id in files ==> more[id].owner == files[id].owner && more[id].size == files[id].size
  }

  lemma SizesKept(s: State, op: Op)
    requires !op.Save? && !op.Delete? && !op.Sweep?
    ensures SameSizes(s.shelf.files, Apply(s, op).shelf.files)
  {
    if op.SendWithAttachments? {
      GrantedSizes(s, op.m, op.attachIDs);
    } else if op.Extend? {
      ExtendedSizes(s, op.fileID, op.owner, op.now);
    } else {
      OtherShelves(s, op);
    }
  }

  lemma ExtendedSizes(s: State, id: string, owner: string, now: int)
    ensures SameSizes(s.shelf.files, StoreSpec.ExtendFile(s, id, owner, now).0.shelf.files)
  {
  }

  lemma GrantedSizes(s: State, m: Message, ids: seq<string>)
    ensures SameSizes(s.shelf.files, Granted(s, m, ids).shelf.files)
  {
  }

  lemma SameWithin(files: map<string, FileRecord>, more: map<string, FileRecord>, quota: int, cap: int)
    requires WithinQuotas(files, quota, cap) && SameSizes(files, more)
    ensures WithinQuotas(more, quota, cap)
  {
    UsedSame(files, more, Anyone());
    forall owner ensures UsedBy(more, owner) <= quota {
      UsedSame(files, more, OwnedBy(owner));
      assert UsedBy(files, owner) <= quota;
    }
  }

  // ---- the statistics ignore case, the quota does not ----

  /** Of the files that fold to the owner, all that weigh anything carry the spelling of the
      owner's account. */
  ghost predicate SpelledAsAccount(files: map<string, FileRecord>, owner: string) {
    forall id :: id in files ==> SpelledAt(files, owner, id)
  }

  predicate SpelledAt(files: map<string, FileRecord>, owner: string, id: string)
    requires id in files
  {
    EqualFold(files[id].owner, owner) && files[id].size > 0 ==> files[id].owner == ToLower(owner)
  }

  /** The statistics never show less than the quota counts, and they show the same exactly if
      no file of the account is spelled differently. */
  lemma {:induction false} StatisticsExact(files: map<string, FileRecord>, owner: string)
    ensures Used(files, OwnedByFold(owner)) >= Used(files, OwnedBy(ToLower(owner)))
    ensures Used(files, OwnedByFold(owner)) == Used(files, OwnedBy(ToLower(owner))) <==> SpelledAsAccount(files, owner)
    decreases |files|
  {
    if files == map[] {
      Nothing(OwnedByFold(owner));
      Nothing(OwnedBy(ToLower(owner)));
    } else {
      var id :| id in files;
      var rest := files - {id};
      UsedRemove(files, id, OwnedByFold(owner));
      UsedRemove(files, id, OwnedBy(ToLower(owner)));
      LowerIsLower(owner);
      StatisticsExact(rest, owner);
      SpelledSplit(files, owner, id);
    }
  }

  lemma SpelledSplit(files: map<string, FileRecord>, owner: string, id: string)
    requires id in files
    ensures SpelledAsAccount(files, owner) <==> SpelledAsAccount(files - {id}, owner) && SpelledAt(files, owner, id)
  {
    var rest := files - {id};
    forall k | k in rest ensures SpelledAt(rest, owner, k) <==> SpelledAt(files, owner, k) { }
    if SpelledAsAccount(rest, owner) && SpelledAt(files, owner, id) {
      forall k | k in files ensures SpelledAt(files, owner, k) {
        if k != id { assert SpelledAt(rest, owner, k); }
      }
    }
  }

  /** In every run with fixed limits the bytes that the quota counts stay within it. What an
      account sees in its statistics is the same figure exactly if its live files carry the
      account's spelling, which they do if all uploads named their owner so. */
  lemma StatisticsWithinQuota(ops: seq<Op>, quota: int, cap: int, owner: string)
    requires Admissible(ops) && FixedLimits(ops, quota, cap) && 0 <= quota && 0 <= cap
    ensures var files := Run(ops).shelf.files;
      && Used(files, OwnedBy(ToLower(owner))) <= quota
      && (Used(files, OwnedByFold(owner)) == Used(files, OwnedBy(ToLower(owner))) <==> SpelledAsAccount(files, owner))
      && (CanonicalOwners(ops) ==> SpelledAsAccount(files, owner))
  {
    var files := Run(ops).shelf.files;
    QuotasKept(ops, quota, cap);
    assert UsedBy(files, ToLower(owner)) <= quota;
    StatisticsExact(files, owner);
    if CanonicalOwners(ops) {
      OwnersCanonical(ops);
      forall id | id in files ensures SpelledAt(files, owner, id) { assert IsLower(files[id].owner); }
    }
  }

  ghost predicate LowerOwners(files: map<string, FileRecord>) {
    forall id :: id in files ==> IsLower(files[id].owner)
  }

  lemma {:induction false} OwnersCanonical(ops: seq<Op>)
    requires CanonicalOwners(ops)
    ensures LowerOwners(Run(ops).shelf.files)
  {
    if ops != [] {
      var s, op := Run(ops[..|ops| - 1]), ops[|ops| - 1];
      OwnersCanonical(ops[..|ops| - 1]);
      assert op in ops;
      if !op.Save? && !op.Delete? && !op.Sweep? { SizesKept(s, op); }
    }
  }

  function Upload(id: string, owner: string, size: nat, quota: int, cap: int): Op {
    Save(FileRecord(id, owner, "", size, "", [], 0), seq(size, i => 0), quota, cap)
  }

  /** Two spellings of one owner get a quota each: from an empty store both uploads are
      accepted, and the statistics then show twice the quota. */
  lemma TwoSpellingsTwoQuotas(quota: nat, cap: int, ops: seq<Op>)
    requires 0 < quota && 2 * quota <= cap
    requires ops == [Upload("1", "Bob", quota, quota, cap), Upload("2", "bob", quota, quota, cap)]
    ensures Admissible(ops) && FixedLimits(ops, quota, cap)
    ensures Used(Run(ops).shelf.files, OwnedByFold("bob")) == 2 * quota > quota
  {
    assert "1" != "2" && "Bob" != "bob";
    assert ToLower("Bob") == "bob" && ToLower("bob") == "bob";
    TwoOf(ops[0], ops[1]);
    TwoUploads(ops[0], ops[1], [ops[0]], quota, cap, "bob");
  }

  lemma TwoUploads(a: Op, b: Op, one: seq<Op>, quota: nat, cap: int, owner: string)
    requires a.Save? && b.Save? && one == [a] && 2 * quota <= cap
    requires a.f.id != b.f.id && a.f.owner != b.f.owner && EqualFold(a.f.owner, owner) && EqualFold(b.f.owner, owner)
    requires a.f.size == |a.content| == b.f.size == |b.content| == a.quota == b.quota == quota && a.cap == b.cap == cap
    ensures Admissible(one + [b])
    ensures Used(Run(one + [b]).shelf.files, OwnedByFold(owner)) == 2 * quota
  {
    UploadOne(a, one, cap);
    SecondUpload(a.f, b.f, quota, cap, Run(one).shelf, owner);
    AcceptedUpload(one, b);
  }

  lemma UploadOne(a: Op, one: seq<Op>, cap: int)
    requires one == [a] && a.Save? && a.f.size == |a.content| == a.quota <= cap && a.cap == cap
    ensures Admissible(one) && Run(one).box == Empty().box && Run(one).shelf.files == map[a.f.id := a.f]
  {
    TwoOf(a, a);
    FirstUpload(a.f, a.quota, cap);
    AcceptedUpload([], a);
  }

  lemma AcceptedUpload(ops: seq<Op>, op: Op)
    requires Admissible(ops) && op.Save? && op.f.size == |op.content| && op.f.id !in Run(ops).shelf.files
    requires Run(ops).box == Empty().box && Fits(Run(ops).shelf, op.f, op.quota, op.cap)
    ensures Admissible(ops + [op]) && Run(ops + [op]).box == Empty().box
    ensures Run(ops + [op]).shelf == Files.Save(Run(ops).shelf, op.f, op.content)
  {
    RunSnoc(ops, op);
  }

  lemma FirstUpload(a: FileRecord, quota: int, cap: int)
    requires a.size <= quota <= cap
    ensures Fits(Empty().shelf, a, quota, cap)
  {
    Nothing(OwnedBy(a.owner));
    Nothing(Anyone());
  }

  lemma SecondUpload(a: FileRecord, b: FileRecord, quota: int, cap: int, s: Shelf, owner: string)
    requires s.files == map[a.id := a] && a.id != b.id && a.owner != b.owner && EqualFold(a.owner, owner)
    requires EqualFold(b.owner, owner) && a.size == b.size == quota && 2 * quota <= cap
    ensures Fits(s, b, quota, cap)
    ensures Used(s.files[b.id := b], OwnedByFold(owner)) == 2 * quota
  {
    var none: map<string, FileRecord> := map[];
    assert none[a.id := a] == s.files;
    Nothing(OwnedBy(b.owner));
    Nothing(Anyone());
    Nothing(OwnedByFold(owner));
    UsedAdd(none, a, OwnedBy(b.owner));
    UsedAdd(none, a, Anyone());
    UsedAdd(none, a, OwnedByFold(owner));
    UsedAdd(s.files, b, OwnedByFold(owner));
  }

  // ---- contents and expiry ----

  /** Metadata and contents are in bijection, with the recorded sizes. */
  lemma ContentsPaired(ops: seq<Op>)
    requires Admissible(ops)
    ensures var s := Run(ops).shelf;
      && (forall id :: id in s.files ==> DataKey(id) in s.data && |s.data[DataKey(id)]| == s.files[id].size)
      && (forall k :: k in s.data ==> exists id :: id in s.files && k == DataKey(id))
    ensures forall a, b :: DataKey(a) == DataKey(b) ==> a == b
  {
    RunSound(ops);
    var s := Run(ops).shelf;
    forall id | id in s.files ensures DataKey(id) in s.data && |s.data[DataKey(id)]| == s.files[id].size {
      assert Shelved(s, id);
    }
    forall a, b | DataKey(a) == DataKey(b) ensures a == b { DataKeyInjective(a, b); }
  }

  /** An uninterrupted sweep removes exactly the files past their time, contents included. */
  lemma SweepExact(s: State, now: int, id: string)
    requires Sound(s) && id in s.shelf.files
    ensures var t := StoreSpec.Sweep(s, Expired(s.shelf.files, now)).shelf;
      && (id in t.files <==> now - s.shelf.files[id].createdAt <= FILE_TTL)
      && (DataKey(id) in t.data <==> id in t.files)
      && (id in t.files ==> t.files[id] == s.shelf.files[id] && t.data[DataKey(id)] == s.shelf.data[DataKey(id)])
  {
    var doomed := Expired(s.shelf.files, now);
    DiscardKeeps(s.shelf, doomed);
    var t := Discard(s.shelf, doomed);
    assert Shelved(s.shelf, id);
    if id in t.files {
      assert Shelved(t, id);
    } else {
      forall j | j in t.files ensures DataKey(j) != DataKey(id) {
        if DataKey(j) == DataKey(id) { DataKeyInjective(j, id); }
      }
    }
  }

  /** Whatever runs between the two transactions of the sweep, afterwards exactly the files that
      the first one saw expired are gone: a file renewed in between goes if and only if it had
      expired by then. */
  lemma SweepInterleaved(s: State, between: seq<Op>, now: int, id: string)
    requires Sound(s) && AdmissibleFrom(s, between) && id in RunFrom(s, between).shelf.files
    ensures var t := RunFrom(s, between);
      var after := StoreSpec.Sweep(t, Expired(s.shelf.files, now)).shelf;
      && (id in after.files <==> !(id in s.shelf.files && now - s.shelf.files[id].createdAt > FILE_TTL))
      && (DataKey(id) in after.data <==> id in after.files)
      && (id in after.files ==> after.files[id] == t.shelf.files[id])
  {
    var t, doomed := RunFrom(s, between), Expired(s.shelf.files, now);
    RunFromSound(s, between);
    DiscardPairs(t.shelf, doomed, id);
  }

  lemma DiscardPairs(s: Shelf, doomed: set<string>, id: string)
    requires ValidShelf(s) && id in s.files
    ensures DataKey(id) in Discard(s, doomed).data <==> id in Discard(s, doomed).files
  {
    DiscardKeeps(s, doomed);
    var t := Discard(s, doomed);
    if id in t.files {
      assert Shelved(t, id);
    } else {
      forall j | j in t.files ensures DataKey(j) != DataKey(id) {
        if DataKey(j) == DataKey(id) { DataKeyInjective(j, id); }
      }
    }
  }
}
