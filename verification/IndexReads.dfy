/** Reading a mailbox index: newest first, in pages, and both folders merged. */
module IndexReads {
  import opened Wrappers
  import opened Text
  import opened Sorting
  import opened Sequences
  import opened Mail
  import opened Directory
  import opened Mailbox
  import opened IndexKeys
  import opened Cuts

  // ---- what a page is ----

  predicate Newer(a: string, b: string) {
    Less(b, a)
  }

  lemma NewerIsOrder(s: set<string>)
    ensures StrictOrderOn(Newer, s)
  {
    LessIsOrder(s);
  }

  /** The ids, newest first. */
  function Newest(ids: set<string>): (r: seq<string>)
    ensures Lists(r, ids, Newer)
  {
    NewerIsOrder(ids);
    Enumerate(ids, Newer)
  }

  function Page<T>(r: seq<T>, limit: nat, offset: int): seq<T> {
    var from := if offset < 0 then 0 else offset;
    if from >= |r| then [] else Cut(r[from..], limit)
  }

  /** The summaries of the ids that resolve, marked unread as the viewer sees them. */
  function Resolve(b: Box, viewer: string, ids: seq<string>): seq<Summary> {
    if ids == [] then []
    else
      var id := ids[|ids| - 1];
      Resolve(b, viewer, ids[..|ids| - 1]) + if id in b.messages then [Row(b, viewer, id)] else []
  }

  function IdsOf(msgs: seq<Summary>): seq<string> {
    seq(|msgs|, i requires 0 <= i < |msgs| => msgs[i].id)
  }

  function Row(b: Box, viewer: string, id: string): Summary
    requires id in b.messages
  {
    Summarize(b.messages[id]).(unread := Ref(viewer, id) in b.unread)
  }

  /** A row tells what a summary tells, and is unread exactly if the viewer's mark is there. */
  lemma RowMeaning(b: Box, viewer: string, id: string)
    requires id in b.messages
    ensures var r := Row(b, viewer, id);
      IsSummary(r, b.messages[id]) && (r.unread <==> Ref(viewer, id) in b.unread)
  {
  }

  /** The ids of the account's entries, each once and the newest first. */
  lemma NewestMeaning(index: set<Ref>, uuid: string)
    ensures var r := Newest(Ids(index, uuid));
      && (forall id :: id in r <==> Ref(uuid, id) in index)
      && (forall i, j :: 0 <= i < j < |r| ==> Less(r[j], r[i]) && r[i] != r[j])
  {
    var ids := Ids(index, uuid);
    var r := Newest(ids);
    NewerIsOrder(ids);
    ListsDistinct(r, ids, Newer);
    forall id ensures id in r <==> Ref(uuid, id) in index {
      assert id in r <==> id in ids;
      if Ref(uuid, id) in index { assert Ref(uuid, id).id in ids; }
    }
    forall i, j | 0 <= i < j < |r| ensures Less(r[j], r[i]) { assert Newer(r[i], r[j]); }
  }

  /** A page has limit entries from the offset on, or as many as there are; an offset below 0 is
      taken as 0. */
  lemma PageMeaning<T>(r: seq<T>, limit: nat, offset: int)
    ensures var from, page := if offset < 0 then 0 else offset, Page(r, limit, offset);
      && |page| == (if from >= |r| then 0 else if |r| - from < limit then |r| - from else limit)
      && forall i :: 0 <= i < |page| ==> page[i] == r[from + i]
  {
  }

  lemma {:induction false} ResolvedAre(b: Box, viewer: string, ids: seq<string>)
    requires Keyed(b.messages)
    ensures forall i :: 0 <= i < |Resolve(b, viewer, ids)| ==>
      var r := Resolve(b, viewer, ids)[i]; r.id in ids && r.id in b.messages && r == Row(b, viewer, r.id)
  {
    if ids != [] {
      ResolvedAre(b, viewer, ids[..|ids| - 1]);
      InSnoc(ids[..|ids| - 1], ids[|ids| - 1]);
    }
  }

  lemma {:induction false} StoredResolve(b: Box, viewer: string, ids: seq<string>, x: string)
    requires Keyed(b.messages) && x in ids && x in b.messages
    ensures x in IdsOf(Resolve(b, viewer, ids))
  {
    var init, id := ids[..|ids| - 1], ids[|ids| - 1];
    LastIn(ids);
    var rows, all := Resolve(b, viewer, init), Resolve(b, viewer, ids);
    if x in init {
      StoredResolve(b, viewer, init, x);
      var k :| 0 <= k < |rows| && rows[k].id == x;
      assert IdsOf(all)[k] == x;
    } else {
      assert IdsOf(all)[|all| - 1] == x;
    }
  }

  lemma {:induction false} ResolvedInOrder(b: Box, viewer: string, ids: seq<string>)
    requires Keyed(b.messages) && Sorted(ids, Newer)
    ensures Sorted(IdsOf(Resolve(b, viewer, ids)), Newer)
  {
    if ids != [] {
      var init, id := ids[..|ids| - 1], ids[|ids| - 1];
      ResolvedInOrder(b, viewer, init);
      forall x | x in init ensures Newer(x, id) {
        var k :| 0 <= k < |init| && init[k] == x;
        assert Newer(ids[k], ids[|ids| - 1]);
      }
      if id in b.messages {
        RowAfter(b, viewer, init, Row(b, viewer, id));
      } else {
        assert Resolve(b, viewer, init) + [] == Resolve(b, viewer, init);
      }
    }
  }

  lemma RowAfter(b: Box, viewer: string, init: seq<string>, last: Summary)
    requires Keyed(b.messages) && Sorted(IdsOf(Resolve(b, viewer, init)), Newer)
    requires forall x :: x in init ==> Newer(x, last.id)
    ensures Sorted(IdsOf(Resolve(b, viewer, init) + [last]), Newer)
  {
    var rows := Resolve(b, viewer, init);
    ResolvedAre(b, viewer, init);
    assert IdsOf(rows + [last]) == IdsOf(rows) + [last.id];
  }

  /** The rows are those of the ids that are stored, each as it is there, and in the same order. */
  lemma ResolveMeaning(b: Box, viewer: string, ids: seq<string>)
    requires Keyed(b.messages) && Sorted(ids, Newer)
    ensures var rows := Resolve(b, viewer, ids);
      && (forall x :: x in IdsOf(rows) <==> x in ids && x in b.messages)
      && (forall i :: 0 <= i < |rows| ==> rows[i].id in b.messages && rows[i] == Row(b, viewer, rows[i].id))
      && (forall i, j :: 0 <= i < j < |rows| ==> Less(rows[j].id, rows[i].id))
  {
    var rows := Resolve(b, viewer, ids);
    ResolvedAre(b, viewer, ids);
    forall x ensures x in IdsOf(rows) <==> x in ids && x in b.messages {
      if x in ids && x in b.messages { StoredResolve(b, viewer, ids, x); }
    }
    ResolvedInOrder(b, viewer, ids);
    forall i, j | 0 <= i < j < |rows| ensures Less(rows[j].id, rows[i].id) {
      assert Newer(IdsOf(rows)[i], IdsOf(rows)[j]);
    }
  }

  // ---- reversing in place ----

  function Reversed<T>(s: seq<T>): seq<T> {
    seq(|s|, k requires 0 <= k < |s| => s[|s| - 1 - k])
  }

  method Reverse<T>(ids: array<T>)
    modifies ids
    ensures ids[..] == Reversed(old(ids[..]))
  {
    var i, j := 0, ids.Length - 1;
    while i < j
      invariant 0 <= i <= ids.Length && j == ids.Length - 1 - i && i <= j + 2
      invariant forall k :: 0 <= k < i || j < k < ids.Length ==> ids[k] == old(ids[ids.Length - 1 - k])
      invariant forall k :: i <= k <= j ==> ids[k] == old(ids[k])
    {
      ids[i], ids[j] := ids[j], ids[i];
      i, j := i + 1, j - 1;
    }
  }

  lemma ReversedLists(r: seq<string>, ids: set<string>)
    requires Lists(r, ids, Less)
    ensures Reversed(r) == Newest(ids)
  {
    var d := Reversed(r);
    forall x ensures x in d <==> x in ids {
      if x in d {
        var k :| 0 <= k < |d| && d[k] == x;
        assert r[|r| - 1 - k] in r;
      }
      if x in ids {
        assert x in r;
        var k :| 0 <= k < |r| && r[k] == x;
        assert d[|r| - 1 - k] == x;
      }
    }
    forall i, j | 0 <= i < j < |d| ensures Newer(d[i], d[j]) { assert Less(r[|r| - 1 - j], r[|r| - 1 - i]); }
    NewerIsOrder(ids);
    ListsUnique(d, Newest(ids), ids, Newer);
  }

  // ---- the reads ----

  /** The ids come from one snapshot of the index, the summaries from a later one. */
  method ReadIndex(index: set<Ref>, later: Box, owner: string, viewer: string, limit: nat, offset: int)
    returns (out: seq<Summary>)
    requires UniformUuids(index) && |owner| == UUID_LENGTH
    ensures out == Resolve(later, viewer, Page(Newest(Ids(index, owner)), limit, offset))
  {
    var ids := NewestFirst(index, owner);
    var from := if offset < 0 then 0 else offset;
    if from >= |ids| { return []; }
    ids := ids[from..];
    if |ids| > limit { ids := ids[..limit]; }
    out := [];
    for i := 0 to |ids|
      invariant out == Resolve(later, viewer, ids[..i])
    {
      ResolveNext(later, viewer, ids, i);
      if ids[i] in later.messages {
        var s := Summarize(later.messages[ids[i]]);
        out := out + [s.(unread := Ref(viewer, ids[i]) in later.unread)];
      }
    }
    TakeAll(ids);
  }

  lemma ResolveNext(b: Box, viewer: string, ids: seq<string>, i: nat)
    requires i < |ids|
    ensures Resolve(b, viewer, ids[..i + 1]) ==
      Resolve(b, viewer, ids[..i]) + if ids[i] in b.messages then [Row(b, viewer, ids[i])] else []
  {
    TakeOne(ids, i);
    TakeInit(ids[..i], ids[i]);
  }

  method NewestFirst(index: set<Ref>, owner: string) returns (ids: seq<string>)
    requires UniformUuids(index) && |owner| == UUID_LENGTH
    ensures ids == Newest(Ids(index, owner))
  {
    var up := Collect(index, owner);
    var a := new string[|up|](i requires 0 <= i < |up| => up[i]);
    ArrayOf(a[..], up);
    Reverse(a);
    ids := a[..];
    ReversedLists(up, Ids(index, owner));
  }

  lemma ArrayOf<T>(a: seq<T>, s: seq<T>)
    requires |a| == |s| && forall i :: 0 <= i < |s| ==> a[i] == s[i]
    ensures a == s
  {
  }

  method ReadInboxPaged(accounts: map<string, Account>, index: set<Ref>, later: Box, address: string, limit: int,
      offset: int)
    returns (r: Option<seq<Summary>>)
    requires UniformUuids(index) && forall l :: l in accounts ==> |accounts[l].uuid| == UUID_LENGTH
    ensures var acc := GetAccount(accounts, address);
      if acc.None? then r == None
      else r == Some(Resolve(later, acc.value.uuid,
        Page(Newest(Ids(index, acc.value.uuid)), if limit <= 0 then 20 else limit, offset)))
  {
    var size := if limit <= 0 then 20 else limit;
    var acc := GetAccount(accounts, address);
    if acc.None? { return None; }
    var out := ReadIndex(index, later, acc.value.uuid, acc.value.uuid, size, offset);
    r := Some(out);
  }

  /** CountInbox over the inbox, CountUnread over the unread marks. */
  method CountEntries(refs: set<Ref>, uuid: string) returns (count: nat)
    requires UniformUuids(refs) && |uuid| == UUID_LENGTH
    ensures count == |set r | r in refs && r.uuid == uuid|
  {
    var ids := Collect(refs, uuid);
    AllIdsListed(refs, uuid);
    assert RefsOf(refs, uuid) == set r | r in refs && r.uuid == uuid;
    count := |ids|;
  }

  // ---- pages ----

  /** Consecutive pages are consecutive slices: no gap, no repeat. */
  lemma PagesJoin<T>(r: seq<T>, size: nat, more: nat, offset: nat)
    ensures Page(r, size, offset) + Page(r, more, offset + size) == Page(r, size + more, offset)
  {
  }

  function Pages<T>(r: seq<T>, size: nat, n: nat): seq<T> {
    if n == 0 then [] else Pages(r, size, n - 1) + Page(r, size, (n - 1) * size)
  }

  /** The first n pages together are the first n * size entries, and once they cover the
      list, the whole of it. */
  lemma {:induction false} PagesCover<T>(r: seq<T>, size: nat, n: nat)
    ensures Pages(r, size, n) == Page(r, n * size, 0)
    ensures n * size >= |r| ==> Pages(r, size, n) == r
  {
    if n > 0 {
      PagesCover(r, size, n - 1);
      assert (n - 1) * size + size == n * size;
      PagesJoin(r, (n - 1) * size, size, 0);
    }
  }

  /** In a mailbox whose entries resolve, a page loses nothing: row by row it is the page
      of ids. */
  lemma {:induction false} ResolvedRows(b: Box, viewer: string, ids: seq<string>)
    requires Keyed(b.messages) && forall i :: 0 <= i < |ids| ==> ids[i] in b.messages
    ensures |Resolve(b, viewer, ids)| == |ids|
    ensures forall i :: 0 <= i < |ids| ==> Resolve(b, viewer, ids)[i] == Row(b, viewer, ids[i])
    ensures forall i :: 0 <= i < |ids| ==> Resolve(b, viewer, ids)[i].id == ids[i]
  {
    if ids != [] {
      var init := ids[..|ids| - 1];
      ResolvedRows(b, viewer, init);
      forall i | 0 <= i < |ids| ensures Resolve(b, viewer, ids)[i] == Row(b, viewer, ids[i]) {
        if i < |init| { assert ids[i] == init[i]; }
      }
    }
  }
}
