/** How the allowed list of a file grows when it is attached. */
module Granting {
  import opened Text
  import opened Sorting
  import opened Directory
  import opened Files
  import opened Sequences
  import opened Delivery

  method SortStrings(list: array<string>)
    modifies list
    ensures Ordered(list[..], Less) && multiset(list[..]) == multiset(old(list[..]))
  {
    LessIsOrder(Elements(list[..]));
    InsertionSort(list, Less);
  }

  method Fill(names: set<string>) returns (list: array<string>)
    ensures fresh(list) && list.Length == |names| && Elements(list[..]) == names
  {
    list := new string[|names|];
    var todo := names;
    var i := 0;
    while todo != {}
      invariant i + |todo| == |names| && todo <= names && Elements(list[..i]) == names - todo
      decreases todo
    {
      var a :| a in todo;
      list[i] := a;
      ElementsStep(list[..i], a);
      TakeArray(list, i);
      todo := todo - {a};
      i := i + 1;
    }
    assert list[..i] == list[..];
  }

  lemma TakeArray<T>(list: array<T>, i: nat)
    requires i < list.Length
    ensures list[..i + 1] == list[..i] + [list[i]]
  {
  }

  /** The set as the sorted list that is stored. */
  method Listed(names: set<string>) returns (r: seq<string>)
    ensures r == Ascending(names)
  {
    var list := Fill(names);
    ghost var before := list[..];
    SortStrings(list);
    r := list[..];
    SameElements(r, before);
    LessIsOrder(names);
    OrderedLists(r, names, Less);
    ListsUnique(r, Ascending(names), names, Less);
  }

  method LoweredSet(addrs: seq<string>) returns (names: set<string>)
    ensures names == Lowered(addrs)
  {
    names := {};
    for i := 0 to |addrs|
      invariant names == Lowered(addrs[..i])
    {
      LoweredTake(addrs, i);
      names := names + {ToLower(addrs[i])};
    }
    TakeAll(addrs);
  }

  lemma GainedStep(f: FileRecord, names: set<string>, l: string)
    ensures Gained(f, names + {l}) == Gained(f, names) +
      if l !in Lowered(f.allowed) + Gained(f, names) && l != ToLower(f.owner) then {l} else {}
  {
  }

  /** One file's new record. */
  method Extend(f: FileRecord, valid: seq<string>) returns (r: FileRecord)
    ensures r == Grant(f, Lowered(valid))
  {
    var names := LoweredSet(f.allowed);
    var changed := false;
    for i := 0 to |valid|
      invariant names == Lowered(f.allowed) + Gained(f, Lowered(valid[..i]))
      invariant changed <==> Gained(f, Lowered(valid[..i])) != {}
    {
      LoweredTake(valid, i);
      var l := ToLower(valid[i]);
      GainedStep(f, Lowered(valid[..i]), l);
      if l !in names && !EqualFold(f.owner, valid[i]) {
        names := names + {l};
        changed := true;
      }
    }
    TakeAll(valid);
    r := f;
    if changed {
      var allowed := Listed(names);
      r := f.(allowed := allowed);
    }
  }

  lemma GrantStep(files: map<string, FileRecord>, ids: set<string>, id: string, recipients: set<string>)
    requires id in files && (forall l :: l in recipients ==> IsLower(l))
    ensures var now := GrantAll(files, ids, recipients);
      now[id := Grant(now[id], recipients)] == GrantAll(files, ids + {id}, recipients)
  {
    if id in ids { GrantTwice(files[id], recipients); }
  }

  lemma GrantNext(files: map<string, FileRecord>, ids: seq<string>, i: nat, valid: seq<string>)
    requires i < |ids| && ids[i] in files
    ensures var now := GrantAll(files, Elements(ids[..i]), Lowered(valid));
      now[ids[i] := Grant(now[ids[i]], Lowered(valid))] == GrantAll(files, Elements(ids[..i + 1]), Lowered(valid))
  {
    forall l | l in Lowered(valid) ensures IsLower(l) {
      var a :| a in valid && ToLower(a) == l;
      LowerIsLower(a);
    }
    GrantStep(files, Elements(ids[..i]), ids[i], Lowered(valid));
    TakeOne(ids, i);
    ElementsStep(ids[..i], ids[i]);
  }
}
