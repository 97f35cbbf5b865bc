/** A subordinate's mail as the superior reads it: inbox, sent, or both merged. */
module Folders {
  import opened Wrappers
  import opened Sorting
  import opened Sequences
  import opened Mail
  import opened Directory
  import opened Mailbox
  import opened IndexKeys
  import opened Cuts
  import opened IndexReads

  /** One side's read: the account, the index, and what the rows are later resolved in. */
  datatype Side = Side(accounts: map<string, Account>, index: set<Ref>, later: Box)

  ghost predicate Readable(side: Side) {
    && UniformUuids(side.index) && (forall l :: l in side.accounts ==> |side.accounts[l].uuid| == UUID_LENGTH)
    && Keyed(side.later.messages) && (forall r :: r in side.index ==> r.id in side.later.messages)
  }

  /** The ids of the side's index, for the account that the address finds. */
  function SideIds(side: Side, address: string): set<string> {
    var acc := GetAccount(side.accounts, address);
    if acc.None? then {} else Ids(side.index, acc.value.uuid)
  }

  /** The row that this side shows for an id. */
  ghost predicate IsRow(r: Summary, side: Side, address: string) {
    var acc := GetAccount(side.accounts, address);
    acc.Some? && r.id in side.later.messages && r == Row(side.later, acc.value.uuid, r.id)
  }

  predicate NewerRow(a: Summary, b: Summary) {
    Newer(a.id, b.id)
  }

  /** Rows of the ids, one each, in any order. */
  ghost predicate OneRowEach(rows: seq<Summary>, ids: set<string>) {
    && (forall i, j :: 0 <= i < j < |rows| ==> rows[i].id != rows[j].id)
    && (forall i :: 0 <= i < |rows| ==> rows[i].id in ids)
    && (forall id :: id in ids ==> id in IdsOf(rows))
  }

  /** Ids of the inbox part are shown as the inbox side saw them, the others as the sent side
      did. */
  ghost predicate Shown(r: Summary, inboxPart: set<string>, inbox: Side, sent: Side, address: string) {
    if r.id in inboxPart then IsRow(r, inbox, address) else IsRow(r, sent, address)
  }

  ghost predicate AllShown(rows: seq<Summary>, inboxPart: set<string>, inbox: Side, sent: Side, address: string) {
    forall i :: 0 <= i < |rows| ==> Shown(rows[i], inboxPart, inbox, sent, address)
  }

  predicate WantsInbox(folder: string) {
    folder != "sent"
  }

  predicate WantsSent(folder: string) {
    folder != "inbox"
  }

  /** Each side is read on its own and cut to the limit before the merge, and still the result is
      the newest of all of it, without duplicates. */
  method ReadSubordinateMessages(inbox: Side, sent: Side, address: string, folder: string, limit: int)
    returns (r: Option<seq<Summary>>)
    requires Readable(inbox) && Readable(sent)
    ensures r.None? <==> (WantsInbox(folder) && GetAccount(inbox.accounts, address).None?)
                         || (WantsSent(folder) && GetAccount(sent.accounts, address).None?)
    ensures r.Some? ==>
      var x := if WantsInbox(folder) then SideIds(inbox, address) else {};
      var y := if WantsSent(folder) then SideIds(sent, address) else {};
      && IdsOf(r.value) == Cut(Newest(x + y), if limit <= 0 then 50 else limit)
      && AllShown(r.value, x, inbox, sent, address)
  {
    var size := if limit <= 0 then 50 else limit;
    var both := folder != "inbox" && folder != "sent";
    ghost var x := if WantsInbox(folder) then SideIds(inbox, address) else {};
    ghost var y := if WantsSent(folder) then SideIds(sent, address) else {};
    ghost var p := FirstOf(x, Newer, size);
    var rows: seq<Summary>, seen: set<string> := [], {};
    FirstOfNone(size);
    if folder == "inbox" || both {
      var page := ReadSide(inbox, address, size);
      if page.None? { return None; }
      rows, seen := Add(page.value, rows, seen, p, inbox, sent, address);
    }
    assert seen == p;
    if folder == "sent" || both {
      var page := ReadSide(sent, address, size);
      if page.None? { return None; }
      rows, seen := Add(page.value, rows, seen, p, inbox, sent, address);
    }
    assert seen == p + FirstOf(y, Newer, size);
    rows := SortRows(rows, seen, p, inbox, sent, address);
    MergedCut(rows, x, y, size);
    StillShown(rows, x, y, size, inbox, sent, address);
    if |rows| > size { rows := rows[..size]; }
    r := Some(rows);
  }

  lemma FirstOfNone(k: nat)
    ensures FirstOf({}, Newer, k) == {}
  {
  }

  /** ReadInbox and ReadSent: the first page. */
  method ReadSide(side: Side, address: string, size: nat) returns (page: Option<seq<Summary>>)
    requires Readable(side)
    ensures page.None? <==> GetAccount(side.accounts, address).None?
    ensures page.Some? ==> OneRowEach(page.value, FirstOf(SideIds(side, address), Newer, size))
    ensures page.Some? ==> forall i :: 0 <= i < |page.value| ==> IsRow(page.value[i], side, address)
  {
    var acc := GetAccount(side.accounts, address);
    if acc.None? { return None; }
    var uuid := acc.value.uuid;
    var msgs := ReadIndex(side.index, side.later, uuid, uuid, size, 0);
    PageRows(side, uuid, size, msgs);
    page := Some(msgs);
  }

  lemma PageRows(side: Side, uuid: string, size: nat, msgs: seq<Summary>)
    requires Readable(side) && msgs == Resolve(side.later, uuid, Page(Newest(Ids(side.index, uuid)), size, 0))
    ensures OneRowEach(msgs, FirstOf(Ids(side.index, uuid), Newer, size))
    ensures forall i :: 0 <= i < |msgs| ==>
      msgs[i].id in side.later.messages && msgs[i] == Row(side.later, uuid, msgs[i].id)
  {
    var ids := Ids(side.index, uuid);
    var page := Cut(Newest(ids), size);
    assert Page(Newest(ids), size, 0) == page;
    forall i | 0 <= i < |page| ensures page[i] in side.later.messages {
      assert Newest(ids)[i] in Newest(ids);
    }
    ResolvedRows(side.later, uuid, page);
    NewerIsOrder(ids);
    CutLists(Newest(ids), ids, Newer, size);
    ListedOnce(msgs, page, FirstOf(ids, Newer, size));
  }

  lemma ListedOnce(msgs: seq<Summary>, page: seq<string>, ids: set<string>)
    requires |msgs| == |page| && (forall i :: 0 <= i < |page| ==> msgs[i].id == page[i]) && Lists(page, ids, Newer)
    ensures OneRowEach(msgs, ids)
  {
    assert IdsOf(msgs) == page;
    NewerIsOrder(ids);
    ListsDistinct(page, ids, Newer);
    forall i | 0 <= i < |msgs| ensures msgs[i].id in ids { assert page[i] in page; }
  }

  /** Appends the rows whose ids are new. */
  method Add(msgs: seq<Summary>, rows: seq<Summary>, seen: set<string>, ghost p: set<string>,
      ghost inbox: Side, ghost sent: Side, ghost address: string)
    returns (more: seq<Summary>, now: set<string>)
    requires OneRowEach(rows, seen) && AllShown(rows, p, inbox, sent, address)
    requires forall i :: 0 <= i < |msgs| && msgs[i].id !in seen ==> Shown(msgs[i], p, inbox, sent, address)
    ensures now == seen + Elements(IdsOf(msgs)) && OneRowEach(more, now) && AllShown(more, p, inbox, sent, address)
  {
    more, now := rows, seen;
    for i := 0 to |msgs|
      invariant now == seen + Elements(IdsOf(msgs)[..i])
      invariant OneRowEach(more, now) && AllShown(more, p, inbox, sent, address)
    {
      TakeOne(IdsOf(msgs), i);
      ElementsStep(IdsOf(msgs)[..i], msgs[i].id);
      if msgs[i].id !in now {
        AddRow(more, now, msgs[i]);
        now := now + {msgs[i].id};
        more := more + [msgs[i]];
      }
    }
    TakeAll(IdsOf(msgs));
  }

  lemma AddRow(rows: seq<Summary>, ids: set<string>, row: Summary)
    requires OneRowEach(rows, ids) && row.id !in ids
    ensures OneRowEach(rows + [row], ids + {row.id})
  {
    assert IdsOf(rows + [row]) == IdsOf(rows) + [row.id];
  }

  // ---- sorting the merged rows ----

  method SortRows(rows: seq<Summary>, ids: set<string>, ghost p: set<string>,
      ghost inbox: Side, ghost sent: Side, ghost address: string)
    returns (sorted: seq<Summary>)
    requires OneRowEach(rows, ids) && AllShown(rows, p, inbox, sent, address)
    ensures IdsOf(sorted) == Newest(ids) && AllShown(sorted, p, inbox, sent, address)
  {
    var a := new Summary[|rows|](i requires 0 <= i < |rows| => rows[i]);
    ArrayOf(a[..], rows);
    RowsAreOrdered(rows, ids);
    InsertionSort(a, NewerRow);
    sorted := a[..];
    SameElements(sorted, rows);
    SortedRows(rows, ids, sorted);
    forall i | 0 <= i < |sorted| ensures Shown(sorted[i], p, inbox, sent, address) {
      assert sorted[i] in Elements(rows);
    }
  }

  lemma RowsAreOrdered(rows: seq<Summary>, ids: set<string>)
    requires OneRowEach(rows, ids)
    ensures StrictOrderOn(NewerRow, Elements(rows))
  {
    NewerIsOrder(ids);
  }

  lemma SortedRows(rows: seq<Summary>, ids: set<string>, sorted: seq<Summary>)
    requires OneRowEach(rows, ids) && Ordered(sorted, NewerRow) && multiset(sorted) == multiset(rows)
    ensures IdsOf(sorted) == Newest(ids)
  {
    var all := Elements(rows);
    RowsAreOrdered(rows, ids);
    DistinctCount(rows);
    SameElements(sorted, rows);
    OrderedLists(sorted, all, NewerRow);
    SortedIds(rows, ids, sorted);
    NewerIsOrder(ids);
    ListsUnique(IdsOf(sorted), Newest(ids), ids, Newer);
  }

  lemma SortedIds(rows: seq<Summary>, ids: set<string>, sorted: seq<Summary>)
    requires OneRowEach(rows, ids) && Lists(sorted, Elements(rows), NewerRow)
    ensures Lists(IdsOf(sorted), ids, Newer)
  {
    var out := IdsOf(sorted);
    forall id ensures id in out <==> id in ids {
      if id in out {
        var i :| 0 <= i < |sorted| && sorted[i].id == id;
        assert sorted[i] in Elements(rows);
      }
      if id in ids {
        var i :| 0 <= i < |rows| && rows[i].id == id;
        assert rows[i] in sorted;
        var j :| 0 <= j < |sorted| && sorted[j] == rows[i];
        assert out[j] == id;
      }
    }
    forall i, j | 0 <= i < j < |out| ensures Newer(out[i], out[j]) { assert NewerRow(sorted[i], sorted[j]); }
  }

  /** Cutting the merge of both cuts is cutting the merge of both folders. */
  lemma MergedCut(rows: seq<Summary>, x: set<string>, y: set<string>, size: nat)
    requires IdsOf(rows) == Newest(FirstOf(x, Newer, size) + FirstOf(y, Newer, size))
    ensures IdsOf(Cut(rows, size)) == Cut(Newest(x + y), size)
  {
    NewerIsOrder(x + y);
    CutOfUnion(x, y, Newer, size, IdsOf(rows), Newest(x + y));
    assert IdsOf(Cut(rows, size)) == Cut(IdsOf(rows), size);
  }

  /** What is left after the cut belongs to the inbox part exactly if it is in the inbox. */
  lemma StillShown(rows: seq<Summary>, x: set<string>, y: set<string>, size: nat,
      inbox: Side, sent: Side, address: string)
    requires IdsOf(rows) == Newest(FirstOf(x, Newer, size) + FirstOf(y, Newer, size))
    requires AllShown(rows, FirstOf(x, Newer, size), inbox, sent, address)
    ensures AllShown(Cut(rows, size), x, inbox, sent, address)
  {
    MergedCut(rows, x, y, size);
    NewerIsOrder(x + y);
    CutLists(Newest(x + y), x + y, Newer, size);
    var kept := Cut(rows, size);
    forall i | 0 <= i < |kept| ensures Shown(kept[i], x, inbox, sent, address) {
      assert IdsOf(kept)[i] == kept[i].id && kept[i].id in FirstOf(x + y, Newer, size);
      if kept[i].id in x { FirstOfPart(x, x + y, size, kept[i].id); }
      assert Shown(rows[i], FirstOf(x, Newer, size), inbox, sent, address);
    }
  }

  lemma FirstOfPart(x: set<string>, all: set<string>, size: nat, id: string)
    requires x <= all && id in x && id in FirstOf(all, Newer, size)
    ensures id in FirstOf(x, Newer, size)
  {
    SubsetSize(Before(x, Newer, id), Before(all, Newer, id));
  }
}
