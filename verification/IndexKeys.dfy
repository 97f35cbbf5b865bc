/** The composite key of the index buckets: the account's uuid, then the message id. */
module IndexKeys {
  import opened Text
  import opened Sorting
  import opened Sequences
  import opened Mailbox
  import opened Cursor

  const UUID_LENGTH := 32

  function IndexKey(uuid: string, id: string): string {
    uuid + id
  }

  function Keys(refs: set<Ref>): set<string> {
    set r | r in refs :: IndexKey(r.uuid, r.id)
  }

  ghost predicate UniformUuids(refs: set<Ref>) {
    forall r :: r in refs ==> |r.uuid| == UUID_LENGTH
  }

  /** Among uuids of one length, a key starts with a uuid exactly when it is that uuid's. */
  lemma PrefixFree(u: string, v: string, id: string)
    requires |u| == |v|
    ensures u <= IndexKey(v, id) <==> u == v
    ensures IndexKey(v, id)[|v|..] == id
  {
    assert IndexKey(v, id)[..|v|] == v;
    if u <= IndexKey(v, id) { assert IndexKey(v, id)[..|u|] == u; }
  }

  lemma IndexKeyInjective(a: Ref, b: Ref)
    requires |a.uuid| == |b.uuid| && IndexKey(a.uuid, a.id) == IndexKey(b.uuid, b.id)
    ensures a == b
  {
    PrefixFree(a.uuid, b.uuid, b.id);
    PrefixFree(a.uuid, a.uuid, a.id);
  }

  /** The ids of the account's entries. */
  function Ids(refs: set<Ref>, uuid: string): set<string> {
    set r | r in refs && r.uuid == uuid :: r.id
  }

  /** Scanning the byte keys under a uuid finds that account's entries and no others. */
  lemma TailsAreIds(refs: set<Ref>, uuid: string)
    requires UniformUuids(refs) && |uuid| == UUID_LENGTH
    ensures Tails(Keys(refs), uuid) == Ids(refs, uuid)
  {
    forall t | t in Tails(Keys(refs), uuid) ensures t in Ids(refs, uuid) {
      var k :| k in Keys(refs) && uuid <= k && k[|uuid|..] == t;
      var r :| r in refs && IndexKey(r.uuid, r.id) == k;
      PrefixFree(uuid, r.uuid, r.id);
    }
    forall t | t in Ids(refs, uuid) ensures t in Tails(Keys(refs), uuid) {
      var r :| r in refs && r.uuid == uuid && r.id == t;
      PrefixFree(uuid, r.uuid, r.id);
      assert IndexKey(r.uuid, r.id) in Keys(refs);
    }
  }

  /** The cursor loop over an account's prefix. */
  method Collect(refs: set<Ref>, uuid: string) returns (ids: seq<string>)
    requires UniformUuids(refs) && |uuid| == UUID_LENGTH
    ensures ids == Ascending(Ids(refs, uuid))
  {
    ids := Scan(Keys(refs), uuid);
    TailsAreIds(refs, uuid);
  }

  function RefsWith(uuid: string, ids: set<string>): set<Ref> {
    set id | id in ids :: Ref(uuid, id)
  }

  /** An account's entries and their ids are in bijection. */
  lemma {:induction false} IdsOfRefs(refs: set<Ref>, uuid: string)
    ensures RefsWith(uuid, Ids(refs, uuid)) == RefsOf(refs, uuid)
    ensures |Ids(refs, uuid)| == |RefsOf(refs, uuid)|
    decreases refs
  {
    if refs != {} {
      var r :| r in refs;
      IdsOfRefs(refs - {r}, uuid);
      if r.uuid == uuid {
        assert Ids(refs, uuid) == Ids(refs - {r}, uuid) + {r.id};
        assert RefsOf(refs, uuid) == RefsOf(refs - {r}, uuid) + {r};
      } else {
        assert Ids(refs, uuid) == Ids(refs - {r}, uuid);
        assert RefsOf(refs, uuid) == RefsOf(refs - {r}, uuid);
      }
    }
    forall r | r in RefsOf(refs, uuid) ensures r in RefsWith(uuid, Ids(refs, uuid)) { assert r.id in Ids(refs, uuid); }
  }

  lemma IdListed(refs: set<Ref>, uuid: string, id: string)
    ensures id in Ascending(Ids(refs, uuid)) <==> Ref(uuid, id) in refs
  {
    assert id in Ascending(Ids(refs, uuid)) <==> id in Ids(refs, uuid);
    if Ref(uuid, id) in refs { assert Ref(uuid, id).id in Ids(refs, uuid); }
  }

  lemma AllIdsListed(refs: set<Ref>, uuid: string)
    ensures RefsWith(uuid, Elements(Ascending(Ids(refs, uuid)))) == RefsOf(refs, uuid)
    ensures |Ascending(Ids(refs, uuid))| == |RefsOf(refs, uuid)|
  {
    var ids := Ids(refs, uuid);
    IdsOfRefs(refs, uuid);
    LessIsOrder(ids);
    ListsLength(Ascending(ids), ids, Less);
    assert Elements(Ascending(ids)) == ids;
  }

  lemma WithoutNext(refs: set<Ref>, uuid: string, ids: seq<string>, i: nat)
    requires i < |ids|
    ensures refs - RefsWith(uuid, Elements(ids[..i + 1])) ==
      (refs - RefsWith(uuid, Elements(ids[..i]))) - {Ref(uuid, ids[i])}
  {
    TakeOne(ids, i);
    assert Elements(ids[..i + 1]) == Elements(ids[..i]) + {ids[i]};
    forall r | r in RefsWith(uuid, Elements(ids[..i])) + {Ref(uuid, ids[i])}
      ensures r in RefsWith(uuid, Elements(ids[..i + 1])) { assert r.id in Elements(ids[..i + 1]); }
  }
}
