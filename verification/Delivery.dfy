/** Where the delivery loops stand: entries filed so far against the addresses seen so far. */
module Delivery {
  import opened Text
  import opened Directory
  import opened Mailbox
  import opened Sequences

  /** refs are the entries for message id of the accounts among names. */
  ghost predicate Filed(refs: set<Ref>, accounts: map<string, Account>, names: set<string>, id: string) {
    refs == RefsTo(Uuids(accounts, names), id)
  }

  lemma FiledStep(refs: set<Ref>, accounts: map<string, Account>, names: set<string>, l: string, id: string)
    requires Filed(refs, accounts, names, id) && l in accounts
    ensures Filed(refs + {Ref(accounts[l].uuid, id)}, accounts, names + {l}, id)
  {
    var u, us := accounts[l].uuid, Uuids(accounts, names);
    UuidsStep(accounts, names, l);
    forall r | r in refs + {Ref(u, id)} ensures r in RefsTo(us + {u}, id) { assert r.uuid in us + {u}; }
  }

  lemma Meet<T>(seen: set<T>, keys: set<T>, l: T)
    requires l !in seen
    ensures (seen + {l}) * keys == seen * keys + if l in keys then {l} else {}
    ensures |(seen + {l}) * keys| == |seen * keys| + if l in keys then 1 else 0
  {
    assert (seen + {l}) * keys == seen * keys + if l in keys then {l} else {};
  }

  lemma JoinOne<T>(a: set<T>, b: set<T>, x: T)
    ensures a + (b + {x}) == (a + b) + {x}
    ensures x in b ==> b + {x} == b
  {
  }

  lemma LoweredTake(addrs: seq<string>, i: nat)
    requires i < |addrs|
    ensures Lowered(addrs[..i + 1]) == Lowered(addrs[..i]) + {ToLower(addrs[i])}
  {
    TakeOne(addrs, i);
    LoweredStep(addrs[..i], addrs[i]);
  }

  /** Where the delivery loop stands once it has been through addrs. */
  ghost predicate Reached(accounts: map<string, Account>, addrs: seq<string>, id: string,
      seen: set<string>, refs: set<Ref>, n: nat)
  {
    && seen == Lowered(addrs)
    && n == |seen * accounts.Keys|
    && Filed(refs, accounts, seen * accounts.Keys, id)
  }

  lemma ReachNew(accounts: map<string, Account>, addrs: seq<string>, i: nat, id: string,
      seen: set<string>, refs: set<Ref>, n: nat)
    requires i < |addrs| && Reached(accounts, addrs[..i], id, seen, refs, n) && ToLower(addrs[i]) !in seen
    ensures var l := ToLower(addrs[i]);
      if l in accounts then Reached(accounts, addrs[..i + 1], id, seen + {l}, refs + {Ref(accounts[l].uuid, id)}, n + 1)
      else Reached(accounts, addrs[..i + 1], id, seen + {l}, refs, n)
  {
    var l := ToLower(addrs[i]);
    LoweredTake(addrs, i);
    Meet(seen, accounts.Keys, l);
    if l in accounts { FiledStep(refs, accounts, seen * accounts.Keys, l, id); }
  }

  lemma ReachAgain(accounts: map<string, Account>, addrs: seq<string>, i: nat, id: string,
      seen: set<string>, refs: set<Ref>, n: nat)
    requires i < |addrs| && Reached(accounts, addrs[..i], id, seen, refs, n) && ToLower(addrs[i]) in seen
    ensures Reached(accounts, addrs[..i + 1], id, seen, refs, n)
  {
    LoweredTake(addrs, i);
    JoinOne({}, seen, ToLower(addrs[i]));
  }

  /** No two spellings of one address. */
  predicate Distinct(addrs: seq<string>) {
    forall i, j :: 0 <= i < j < |addrs| ==> ToLower(addrs[i]) != ToLower(addrs[j])
  }

  lemma DistinctNew(addrs: seq<string>, i: nat)
    requires Distinct(addrs) && i < |addrs|
    ensures ToLower(addrs[i]) !in Lowered(addrs[..i])
  {
  }

  lemma DistinctStep(addrs: seq<string>, a: string)
    requires Distinct(addrs) && ToLower(a) !in Lowered(addrs)
    ensures Distinct(addrs + [a])
  {
    var more := addrs + [a];
    forall i, j | 0 <= i < j < |more| ensures ToLower(more[i]) != ToLower(more[j]) {
      assert more[i] == addrs[i] && addrs[i] in addrs;
      assert ToLower(addrs[i]) in Lowered(addrs);
    }
  }

  lemma NobodyValid(valid: seq<string>)
    requires |valid| == 0
    ensures Lowered(valid) == {}
  {
  }

  lemma SomebodyValid(valid: seq<string>)
    requires |valid| > 0
    ensures Lowered(valid) != {}
  {
    assert ToLower(valid[0]) in Lowered(valid);
  }

  lemma SameRecipients(accounts: map<string, Account>, valid: seq<string>, addrs: seq<string>)
    requires Lowered(valid) == Recipients(accounts, addrs)
    ensures Recipients(accounts, valid) == Recipients(accounts, addrs)
  {
  }
}
