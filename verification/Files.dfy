/** Uploaded files: metadata and content under one id, quotas, access and expiry. */
module Files {
  import opened Text
  import opened Mail
  import opened Directory
  import Tally

  const FILE_TTL: int := 30 * 24 * 3600

  type Bytes = seq<bv8>

  datatype FileRecord = FileRecord(
    id: string, owner: string, filename: string, size: nat, accessCode: string, allowed: seq<string>, createdAt: int)

  /** The metadata bucket and the content bucket. */
  datatype Shelf = Shelf(files: map<string, FileRecord>, data: map<string, Bytes>)

  function DataKey(id: string): string {
    id + ":d"
  }

  lemma DataKeyInjective(a: string, b: string)
    requires DataKey(a) == DataKey(b)
    ensures a == b
  {
    assert DataKey(a)[..|a|] == a && DataKey(b)[..|b|] == b;
  }

  /** Metadata and contents pair up: each file has its content of the recorded size, and
      there is no other content. */
  ghost predicate ValidShelf(s: Shelf) {
    && (forall id :: id in s.files ==> Shelved(s, id))
    && (forall k :: k in s.data ==> exists id :: id in s.files && k == DataKey(id))
  }

  ghost predicate Shelved(s: Shelf, id: string)
    requires id in s.files
  {
    s.files[id].id == id && DataKey(id) in s.data && |s.data[DataKey(id)]| == s.files[id].size
  }

  // ---- saving, within the quotas ----

  function OwnedBy(owner: string): FileRecord -> bool {
    (f: FileRecord) => f.owner == owner
  }

  function OwnedByFold(owner: string): FileRecord -> bool {
    (f: FileRecord) => EqualFold(f.owner, owner)
  }

  function Anyone(): FileRecord -> bool {
    (f: FileRecord) => true
  }

  function Weight(f: FileRecord, p: FileRecord -> bool): nat {
    if p(f) then f.size else 0
  }

  ghost function WeightAt(files: map<string, FileRecord>, p: FileRecord -> bool): string -> int {
    id => if id in files then Weight(files[id], p) else 0
  }

  /** The bytes of the files that satisfy p. */
  ghost function Used(files: map<string, FileRecord>, p: FileRecord -> bool): int {
    Tally.Sum(multiset(files.Keys), WeightAt(files, p))
  }

  ghost predicate Fits(s: Shelf, f: FileRecord, quota: int, cap: int) {
    Used(s.files, OwnedBy(f.owner)) + f.size <= quota && Used(s.files, Anyone()) + f.size <= cap
  }

  function Save(s: Shelf, f: FileRecord, content: Bytes): Shelf {
    Shelf(s.files[f.id := f], s.data[DataKey(f.id) := content])
  }

  // ---- access ----

  predicate Permitted(f: FileRecord, requester: string) {
    EqualFold(f.owner, requester) || exists a :: a in f.allowed && EqualFold(a, requester)
  }

  /** Whom the allowed list gains from those recipients; never the owner. */
  function Gained(f: FileRecord, recipients: set<string>): set<string> {
    set l | l in recipients && l !in Lowered(f.allowed) && l != ToLower(f.owner)
  }

  /** Adds the recipients, by their lowercased addresses, to the allowed list. A list that
      gains nobody keeps its spelling and order. */
  function Grant(f: FileRecord, recipients: set<string>): FileRecord {
    var gained := Gained(f, recipients);
    if gained == {} then f else f.(allowed := Ascending(Lowered(f.allowed) + gained))
  }

  function GrantAll(files: map<string, FileRecord>, ids: set<string>, recipients: set<string>): map<string,
      FileRecord>
  {
    map id | id in files :: if id in ids then Grant(files[id], recipients) else files[id]
  }

  function Projection(f: FileRecord): Attachment {
    Attachment(f.id, f.filename, f.size, f.accessCode, f.createdAt)
  }

  lemma GrantPermits(f: FileRecord, recipients: set<string>, r: string)
    requires forall l :: l in recipients ==> IsLower(l)
    ensures Permitted(Grant(f, recipients), r) <==> Permitted(f, r) || ToLower(r) in recipients
  {
    var gained := Gained(f, recipients);
    var t := Lowered(f.allowed) + gained;
    assert (exists a :: a in f.allowed && EqualFold(a, r)) <==> ToLower(r) in Lowered(f.allowed);
    if gained != {} {
      forall a ensures a in Ascending(t) <==> a in t { }
      forall l | l in t ensures ToLower(l) == l { LowerMember(f.allowed, recipients, l); }
      if ToLower(r) in t { assert EqualFold(ToLower(r), r); }
    }
  }

  /** l is the lowercase of an address on the list. */
  predicate OnList(addrs: seq<string>, l: string) {
    exists i :: 0 <= i < |addrs| && ToLower(addrs[i]) == l
  }

  lemma OnListLowered(addrs: seq<string>, l: string)
    ensures OnList(addrs, l) <==> l in Lowered(addrs)
  {
    if a :| a in addrs && ToLower(a) == l {
      var i :| 0 <= i < |addrs| && addrs[i] == a;
    }
    if i :| 0 <= i < |addrs| && ToLower(addrs[i]) == l { assert addrs[i] in addrs; }
  }

  /** If every recipient is the owner or on the list, a grant changes nothing. Otherwise the list is
      then in ascending order and in lower case: the addresses that were on it, and the recipients
      but for the owner. Nothing else of the record changes. */
  lemma GrantMeaning(f: FileRecord, recipients: set<string>)
    ensures var g := Grant(f, recipients);
      if forall l :: l in recipients ==> l == ToLower(f.owner) || OnList(f.allowed, l) then g == f
      else && g == f.(allowed := g.allowed)
           && (forall i, j :: 0 <= i < j < |g.allowed| ==> Less(g.allowed[i], g.allowed[j]))
           && (forall l :: l in g.allowed <==>
                OnList(f.allowed, l) || (l in recipients && l != ToLower(f.owner)))
  {
    forall l ensures OnList(f.allowed, l) <==> l in Lowered(f.allowed) { OnListLowered(f.allowed, l); }
    var all := Lowered(f.allowed) + Gained(f, recipients);
    forall l ensures l in Ascending(all) <==> l in all { }
  }

  lemma LowerMember(addrs: seq<string>, recipients: set<string>, l: string)
    requires forall k :: k in recipients ==> IsLower(k)
    requires l in Lowered(addrs) || l in recipients
    ensures ToLower(l) == l
  {
    if l in Lowered(addrs) {
      var a :| a in addrs && ToLower(a) == l;
      LowerIsLower(a);
    } else {
      assert IsLower(l);
    }
  }

  /** Attaching the same file twice grants nothing more. */
  lemma GrantTwice(f: FileRecord, recipients: set<string>)
    requires forall l :: l in recipients ==> IsLower(l)
    ensures Grant(Grant(f, recipients), recipients) == Grant(f, recipients)
  {
    var gained := Gained(f, recipients);
    var t := Lowered(f.allowed) + gained;
    if gained != {} {
      forall l | l in t ensures l in Lowered(Ascending(t)) {
        LowerMember(f.allowed, recipients, l);
        assert l in Ascending(t);
      }
    }
  }

  // ---- renewal and expiry ----

  function Renew(f: FileRecord, now: int): FileRecord {
    f.(createdAt := now)
  }

  function Discard(s: Shelf, doomed: set<string>): Shelf {
    Shelf(s.files - doomed, s.data - set id | id in doomed && id in s.files :: DataKey(s.files[id].id))
  }

  function Expired(files: map<string, FileRecord>, now: int): set<string> {
    set id | id in files && files[id].createdAt < now - FILE_TTL
  }

  // ---- what a shelf keeps ----

  lemma SaveKeeps(s: Shelf, f: FileRecord, content: Bytes)
    requires ValidShelf(s) && f.id !in s.files && f.size == |content|
    ensures ValidShelf(Save(s, f, content))
  {
    var t := Save(s, f, content);
    forall id | id in t.files ensures Shelved(t, id) {
      if id != f.id {
        assert Shelved(s, id);
        if DataKey(id) == DataKey(f.id) { DataKeyInjective(id, f.id); }
      }
    }
    forall k | k in t.data ensures exists id :: id in t.files && k == DataKey(id) {
      if k == DataKey(f.id) {
        assert f.id in t.files;
      } else {
        var id :| id in s.files && k == DataKey(id);
        assert id in t.files;
      }
    }
  }

  lemma DiscardKeeps(s: Shelf, doomed: set<string>)
    requires ValidShelf(s)
    ensures ValidShelf(Discard(s, doomed))
  {
    var t := Discard(s, doomed);
    forall id | id in t.files ensures Shelved(t, id) {
      assert Shelved(s, id);
      forall d | d in doomed && d in s.files && DataKey(s.files[d].id) == DataKey(id) ensures false {
        assert Shelved(s, d);
        DataKeyInjective(d, id);
      }
    }
    forall k | k in t.data ensures exists id :: id in t.files && k == DataKey(id) {
      var id :| id in s.files && k == DataKey(id);
      assert Shelved(s, id);
      assert id in t.files;
    }
  }

  /** The same files with new allowed lists or times stay shelved. */
  lemma UpdateKeeps(s: Shelf, files: map<string, FileRecord>)
    requires ValidShelf(s) && files.Keys == s.files.Keys
    requires forall id :: id in files ==> files[id].id == s.files[id].id && files[id].size == s.files[id].size
    ensures ValidShelf(Shelf(files, s.data))
  {
    var t := Shelf(files, s.data);
    forall id | id in files ensures Shelved(t, id) { assert Shelved(s, id); }
    forall k | k in t.data ensures exists id :: id in t.files && k == DataKey(id) {
      var id :| id in s.files && k == DataKey(id);
      assert id in t.files;
    }
  }

  // ---- sums of sizes ----

  lemma UsedAdd(files: map<string, FileRecord>, f: FileRecord, p: FileRecord -> bool)
    requires f.id !in files
    ensures Used(files[f.id := f], p) == Used(files, p) + Weight(f, p)
  {
    var more := files[f.id := f];
    assert more.Keys == files.Keys + {f.id};
    assert multiset(more.Keys) == multiset(files.Keys) + multiset{f.id};
    Tally.SumAdd(multiset(files.Keys), WeightAt(more, p), f.id);
    Tally.SumSame(multiset(files.Keys), WeightAt(more, p), WeightAt(files, p));
  }

  lemma UsedRemove(files: map<string, FileRecord>, id: string, p: FileRecord -> bool)
    requires id in files
    ensures Used(files, p) == Used(files - {id}, p) + Weight(files[id], p)
  {
    var less := files - {id};
    assert multiset(less.Keys) + multiset{id} == multiset(files.Keys);
    Tally.SumAdd(multiset(less.Keys), WeightAt(files, p), id);
    Tally.SumSame(multiset(less.Keys), WeightAt(files, p), WeightAt(less, p));
  }

  lemma {:induction false} UsedDiscard(files: map<string, FileRecord>, doomed: set<string>, p: FileRecord -> bool)
    ensures Used(files - doomed, p) <= Used(files, p)
    decreases doomed
  {
    if doomed == {} {
      assert files - doomed == files;
    } else {
      var id :| id in doomed;
      if id in files { UsedRemove(files, id, p); } else { assert files - {id} == files; }
      assert files - doomed == (files - {id}) - (doomed - {id});
      UsedDiscard(files - {id}, doomed - {id}, p);
    }
  }

  lemma UsedSame(files: map<string, FileRecord>, more: map<string, FileRecord>, p: FileRecord -> bool)
    requires files.Keys == more.Keys
    requires forall id :: id in files ==> Weight(files[id], p) == Weight(more[id], p)
    ensures Used(files, p) == Used(more, p)
  {
    Tally.SumSame(multiset(files.Keys), WeightAt(files, p), WeightAt(more, p));
  }

  // ---- discarding one by one ----

  lemma DiscardNext(s: Shelf, done: set<string>, id: string)
    requires id !in done
    ensures Discard(Discard(s, done), {id}) == Discard(s, done + {id})
  {
    var t := Discard(s, done);
    assert t.files - {id} == s.files - (done + {id});
    if id in s.files { DiscardKeys(s.files, done, id); }
  }

  lemma DiscardKeys(files: map<string, FileRecord>, done: set<string>, id: string)
    requires id in files
    ensures (set d | d in done + {id} && d in files :: DataKey(files[d].id))
      == (set d | d in done && d in files :: DataKey(files[d].id)) + {DataKey(files[id].id)}
  {
    var all := set d | d in done + {id} && d in files :: DataKey(files[d].id);
    assert id in done + {id} && DataKey(files[id].id) in all;
    forall d | d in done && d in files ensures DataKey(files[d].id) in all { assert d in done + {id}; }
  }

  lemma DiscardNothing(s: Shelf)
    ensures Discard(s, {}) == s
  {
  }

  // ---- summing one by one ----

  ghost function SumOver(files: map<string, FileRecord>, todo: set<string>, p: FileRecord -> bool): int {
    Tally.Sum(multiset(todo), WeightAt(files, p))
  }

  lemma SumOverTake(files: map<string, FileRecord>, todo: set<string>, p: FileRecord -> bool, id: string)
    requires id in todo && id in files
    ensures SumOver(files, todo, p) == Weight(files[id], p) + SumOver(files, todo - {id}, p)
  {
    assert multiset(todo) == multiset(todo - {id}) + multiset{id};
    Tally.SumAdd(multiset(todo - {id}), WeightAt(files, p), id);
  }

  // ---- an account's statistics ----

  const WEEK: int := 7 * 24 * 3600

  function LiveFiles(files: map<string, FileRecord>, owner: string): set<string> {
    set id | id in files && EqualFold(files[id].owner, owner)
  }

  function ExpiringSoon(files: map<string, FileRecord>, owner: string, now: int): set<string> {
    set id | id in LiveFiles(files, owner) && Soon(files[id], now)
  }

  predicate Soon(f: FileRecord, now: int) {
    FILE_TTL - WEEK <= now - f.createdAt < FILE_TTL
  }

  /** The figures are complete but for the files still to visit. */
  ghost predicate Tallied(files: map<string, FileRecord>, owner: string, now: int, todo: set<string>,
      used: int, count: nat, soon: nat)
  {
    && todo <= files.Keys
    && used + SumOver(files, todo, OwnedByFold(owner)) == Used(files, OwnedByFold(owner))
    && count + |LiveFiles(files, owner) * todo| == |LiveFiles(files, owner)|
    && soon + |ExpiringSoon(files, owner, now) * todo| == |ExpiringSoon(files, owner, now)|
  }

  lemma TallyStart(files: map<string, FileRecord>, owner: string, now: int)
    ensures Tallied(files, owner, now, files.Keys, 0, 0, 0)
  {
    assert LiveFiles(files, owner) * files.Keys == LiveFiles(files, owner);
    assert ExpiringSoon(files, owner, now) * files.Keys == ExpiringSoon(files, owner, now);
  }

  lemma TallyNext(files: map<string, FileRecord>, owner: string, now: int, todo: set<string>,
      used: int, count: nat, soon: nat, id: string)
    requires Tallied(files, owner, now, todo, used, count, soon) && id in todo
    ensures var f := files[id];
      if !EqualFold(f.owner, owner) then Tallied(files, owner, now, todo - {id}, used, count, soon)
      else Tallied(files, owner, now, todo - {id}, used + f.size, count + 1, soon + if Soon(f, now) then 1 else 0)
  {
    SumOverTake(files, todo, OwnedByFold(owner), id);
    CountTake(LiveFiles(files, owner), todo, id);
    CountTake(ExpiringSoon(files, owner, now), todo, id);
  }

  lemma CountTake<T>(s: set<T>, todo: set<T>, x: T)
    requires x in todo
    ensures |s * todo| == |s * (todo - {x})| + if x in s then 1 else 0
  {
    if x in s { assert s * todo == s * (todo - {x}) + {x}; } else { assert s * todo == s * (todo - {x}); }
  }
}
