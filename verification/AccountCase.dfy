/** The repair of account keys that were stored with uppercase letters. */
module AccountCase {
  import opened Text
  import opened Sorting
  import opened Sequences
  import opened Directory

  /** The keys that only differ from l in case, or not at all. */
  function Spellings(accounts: map<string, Account>, l: string): set<string> {
    set k | k in accounts && ToLower(k) == l
  }

  function LowerKeys(accounts: map<string, Account>): set<string> {
    set k | k in accounts :: ToLower(k)
  }

  function First(accounts: map<string, Account>, l: string): (k: string)
    requires l in LowerKeys(accounts)
    ensures k in accounts && ToLower(k) == l && forall j :: j in accounts && ToLower(j) == l ==> j == k || Less(k, j)
  {
    var ks := Ascending(Spellings(accounts, l));
    FirstIsLeast(accounts, l, ks);
    ks[0]
  }

  lemma FirstIsLeast(accounts: map<string, Account>, l: string, ks: seq<string>)
    requires l in LowerKeys(accounts) && Lists(ks, Spellings(accounts, l), Less)
    ensures ks != [] && ks[0] in Spellings(accounts, l)
    ensures forall j :: j in Spellings(accounts, l) ==> j == ks[0] || Less(ks[0], j)
  {
    var k :| k in accounts && ToLower(k) == l;
    assert k in ks;
    LessIsOrder(Spellings(accounts, l));
    ListsTail(ks, Spellings(accounts, l), Less);
  }

  /** The record that ends up under key k: a record already there is kept as it is; otherwise
      the first spelling in byte order moves in, with its address corrected. */
  function Settled(accounts: map<string, Account>, k: string): Account
    requires k in accounts || k in LowerKeys(accounts)
  {
    if k in accounts then accounts[k] else accounts[First(accounts, k)].(address := k)
  }

  function Normalized(accounts: map<string, Account>): map<string, Account> {
    map l | l in LowerKeys(accounts) :: Settled(accounts, l)
  }

  /** The keys afterwards are the lowercase spellings of those before. A lowercase key keeps its
      record; any other gets that of its first spelling in byte order, under its new address. */
  lemma NormalizeMeaning(accounts: map<string, Account>, l: string)
    ensures l in Normalized(accounts) <==> exists k :: k in accounts && ToLower(k) == l
    ensures l in Normalized(accounts) && l in accounts ==> Normalized(accounts)[l] == accounts[l]
    ensures l in Normalized(accounts) && l !in accounts ==>
      exists k :: IsFirstSpelling(accounts, l, k) && Normalized(accounts)[l] == accounts[k].(address := l)
  {
    if l in Normalized(accounts) && l !in accounts { assert IsFirstSpelling(accounts, l, First(accounts, l)); }
  }

  /** What the counters count: the keys that are lowercase, and the lowercase spellings that are no
      keys yet; the rest are duplicates. */
  lemma CountersMeaning(accounts: map<string, Account>, l: string)
    ensures l in AlreadyLower(accounts) <==> l in accounts && !HasCapital(l)
    ensures l in LowerKeys(accounts) - accounts.Keys <==> l !in accounts && exists k :: k in accounts && ToLower(k) == l
  {
    LowerIffNoCapital(l);
  }

  predicate IsFirstSpelling(accounts: map<string, Account>, l: string, k: string) {
    k in accounts && ToLower(k) == l && forall j :: j in accounts && ToLower(j) == l ==> j == k || Less(k, j)
  }

  predicate AllLower(accounts: map<string, Account>) {
    forall k :: k in accounts ==> IsLower(k)
  }

  // ---- one run ----

  function AlreadyLower(accounts: map<string, Account>): set<string> {
    set k | k in accounts && IsLower(k)
  }

  /** The keys present once the first i of the pending keys are done. */
  function KeysAt(accounts: map<string, Account>, todo: seq<string>, i: nat): set<string>
    requires i <= |todo|
  {
    AlreadyLower(accounts) + Lowered(todo[..i]) + Elements(todo[i..])
  }

  ghost predicate Halfway(accounts: map<string, Account>, todo: seq<string>, i: nat, b: map<string, Account>) {
    && i <= |todo|
    && b.Keys == KeysAt(accounts, todo, i)
    && (forall k :: k in b ==> k in accounts || k in LowerKeys(accounts))
    && (forall k :: k in b ==> b[k] == Settled(accounts, k))
  }

  /** The pending keys: all that are not lowercase, in ascending order. */
  ghost predicate IsPending(accounts: map<string, Account>, todo: seq<string>) {
    Lists(todo, accounts.Keys - AlreadyLower(accounts), Less)
  }

  /** The first pass over the cursor: counts the lowercase keys and collects the others. */
  method CollectPending(accounts: map<string, Account>) returns (todo: seq<string>, alreadyLower: nat)
    ensures IsPending(accounts, todo) && alreadyLower == |AlreadyLower(accounts)|
  {
    var keys := Ascending(accounts.Keys);
    todo, alreadyLower := [], 0;
    for i := 0 to |keys|
      invariant Sorted(todo, Less) && alreadyLower + |todo| == i
      invariant forall k :: k in todo <==> k in keys[..i] && !IsLower(k)
    {
      var k := keys[i];
      CursorNext(keys, i);
      InSnoc(todo, k);
      if k == ToLower(k) {
        alreadyLower := alreadyLower + 1;
      } else {
        SnocSorted(todo, k, Less);
        todo := todo + [k];
      }
    }
    TakeAll(keys);
    LessIsOrder(accounts.Keys);
    ListsLength(keys, accounts.Keys, Less);
    PendingCount(accounts, todo);
  }

  lemma CursorNext(keys: seq<string>, i: nat)
    requires Sorted(keys, Less) && i < |keys|
    ensures forall k :: k in keys[..i + 1] <==> k in keys[..i] || k == keys[i]
    ensures forall k :: k in keys[..i] ==> Less(k, keys[i])
  {
    TakeOne(keys, i);
    InSnoc(keys[..i], keys[i]);
  }

  lemma StartHalfway(accounts: map<string, Account>, todo: seq<string>)
    requires IsPending(accounts, todo)
    ensures Settling(accounts, todo, 0, accounts, 0, 0)
  {
    assert todo[0..] == todo && Lowered(todo[..0]) == {};
    assert Elements(todo) == accounts.Keys - AlreadyLower(accounts);
  }

  lemma PendingAt(accounts: map<string, Account>, todo: seq<string>, i: nat)
    requires IsPending(accounts, todo) && i < |todo|
    ensures todo[i] in accounts && !IsLower(todo[i]) && ToLower(todo[i]) in LowerKeys(accounts)
    ensures todo[i] !in Elements(todo[i + 1..])
    ensures todo[i] !in Lowered(todo[..i + 1])
    ensures ToLower(todo[i]) !in Elements(todo[i..])
  {
    assert todo[i] in todo;
    LessIsOrder(accounts.Keys - AlreadyLower(accounts));
    ListsDistinct(todo, accounts.Keys - AlreadyLower(accounts), Less);
    forall a | a in todo[..i + 1] ensures ToLower(a) != todo[i] { LowerIsLower(a); }
    LowerIsLower(todo[i]);
    forall a | a in todo[i..] ensures !IsLower(a) { assert a in todo; }
  }

  lemma KeysNext(accounts: map<string, Account>, todo: seq<string>, i: nat)
    requires IsPending(accounts, todo) && i < |todo|
    ensures KeysAt(accounts, todo, i + 1) == KeysAt(accounts, todo, i) + {ToLower(todo[i])} - {todo[i]}
    ensures ToLower(todo[i]) in KeysAt(accounts, todo, i) <==>
      ToLower(todo[i]) in accounts || ToLower(todo[i]) in Lowered(todo[..i])
  {
    PendingAt(accounts, todo, i);
    LowerIsLower(todo[i]);
    TakeOne(todo, i);
    LoweredStep(todo[..i], todo[i]);
    DropOne(todo, i);
    assert Elements(todo[i..]) == Elements(todo[i + 1..]) + {todo[i]};
  }

  /** The pending key that comes first among its spellings is the one that moves. */
  lemma FirstPending(accounts: map<string, Account>, todo: seq<string>, i: nat)
    requires IsPending(accounts, todo) && i < |todo|
    requires ToLower(todo[i]) !in accounts && ToLower(todo[i]) !in Lowered(todo[..i])
    ensures ToLower(todo[i]) in LowerKeys(accounts) && First(accounts, ToLower(todo[i])) == todo[i]
  {
    PendingAt(accounts, todo, i);
    var l := ToLower(todo[i]);
    var k := First(accounts, l);
    assert !IsLower(k);
    assert k in todo;
    PrefixLowered(todo, i);
    forall j | i < j < |todo| ensures todo[j] != k {
      assert Less(todo[i], todo[j]);
      LessAsymmetric(todo[i], todo[j]);
    }
  }

  lemma PrefixLowered(todo: seq<string>, i: nat)
    requires i <= |todo|
    ensures forall j :: 0 <= j < i ==> ToLower(todo[j]) in Lowered(todo[..i])
  {
    forall j | 0 <= j < i ensures ToLower(todo[j]) in Lowered(todo[..i]) { assert todo[..i][j] in todo[..i]; }
  }

  lemma DropNext(accounts: map<string, Account>, todo: seq<string>, i: nat, b: map<string, Account>)
    requires IsPending(accounts, todo) && Halfway(accounts, todo, i, b) && i < |todo| && ToLower(todo[i]) in b
    ensures Halfway(accounts, todo, i + 1, b - {todo[i]})
    ensures ToLower(todo[i]) in accounts || ToLower(todo[i]) in Lowered(todo[..i])
  {
    KeysNext(accounts, todo, i);
  }

  lemma MovedRecord(accounts: map<string, Account>, todo: seq<string>, i: nat)
    requires IsPending(accounts, todo) && i < |todo|
    requires ToLower(todo[i]) !in accounts && ToLower(todo[i]) !in Lowered(todo[..i])
    ensures todo[i] in accounts && ToLower(todo[i]) in LowerKeys(accounts)
    ensures Settled(accounts, ToLower(todo[i])) == accounts[todo[i]].(address := ToLower(todo[i]))
  {
    PendingAt(accounts, todo, i);
    FirstPending(accounts, todo, i);
  }

  lemma MoveNext(accounts: map<string, Account>, todo: seq<string>, i: nat, b: map<string, Account>)
    requires IsPending(accounts, todo) && Halfway(accounts, todo, i, b) && i < |todo| && ToLower(todo[i]) !in b
    ensures todo[i] in accounts
    ensures var l := ToLower(todo[i]);
      Halfway(accounts, todo, i + 1, b[l := accounts[todo[i]].(address := l)] - {todo[i]})
    ensures ToLower(todo[i]) !in accounts && ToLower(todo[i]) !in Lowered(todo[..i])
  {
    KeysNext(accounts, todo, i);
    MovedRecord(accounts, todo, i);
  }

  /** The classes renamed among the first i pending keys. */
  function RenamedAt(accounts: map<string, Account>, todo: seq<string>, i: nat): set<string>
    requires i <= |todo|
  {
    Lowered(todo[..i]) - accounts.Keys
  }

  lemma RenamedNext(accounts: map<string, Account>, todo: seq<string>, i: nat)
    requires i < |todo|
    ensures RenamedAt(accounts, todo, i + 1) == RenamedAt(accounts, todo, i) +
      if ToLower(todo[i]) in accounts || ToLower(todo[i]) in Lowered(todo[..i]) then {} else {ToLower(todo[i])}
  {
    TakeOne(todo, i);
    LoweredStep(todo[..i], todo[i]);
  }

  /** Where the second pass stands: buckets and counters. */
  ghost predicate Settling(accounts: map<string, Account>, todo: seq<string>, i: nat, b: map<string, Account>,
      renamed: nat, dupes: nat)
  {
    Halfway(accounts, todo, i, b) && renamed == |RenamedAt(accounts, todo, i)| && renamed + dupes == i
  }

  lemma SettleNext(accounts: map<string, Account>, todo: seq<string>, i: nat, b: map<string, Account>,
      renamed: nat, dupes: nat)
    requires IsPending(accounts, todo) && i < |todo| && Settling(accounts, todo, i, b, renamed, dupes)
    ensures todo[i] in accounts
    ensures var l := ToLower(todo[i]);
      if l in b then Settling(accounts, todo, i + 1, b - {todo[i]}, renamed, dupes + 1)
      else Settling(accounts, todo, i + 1, b[l := accounts[todo[i]].(address := l)] - {todo[i]}, renamed + 1, dupes)
  {
    PendingAt(accounts, todo, i);
    RenamedNext(accounts, todo, i);
    if ToLower(todo[i]) in b { DropNext(accounts, todo, i, b); } else { MoveNext(accounts, todo, i, b); }
  }

  lemma AllLowered(accounts: map<string, Account>, todo: seq<string>)
    requires IsPending(accounts, todo)
    ensures LowerKeys(accounts) == AlreadyLower(accounts) + Lowered(todo)
  {
    forall l | l in LowerKeys(accounts) ensures l in AlreadyLower(accounts) || l in Lowered(todo) {
      var k :| k in accounts && ToLower(k) == l;
      if !IsLower(k) { assert k in todo; }
    }
    forall l | l in Lowered(todo) ensures l in LowerKeys(accounts) {
      var k :| k in todo && ToLower(k) == l;
      assert k in accounts;
    }
  }

  lemma PendingCount(accounts: map<string, Account>, todo: seq<string>)
    requires IsPending(accounts, todo)
    ensures |todo| + |AlreadyLower(accounts)| == |accounts|
  {
    var rest := accounts.Keys - AlreadyLower(accounts);
    LessIsOrder(rest);
    ListsLength(todo, rest, Less);
    assert accounts.Keys == rest + AlreadyLower(accounts);
  }

  lemma Finished(accounts: map<string, Account>, todo: seq<string>, b: map<string, Account>)
    requires IsPending(accounts, todo) && Halfway(accounts, todo, |todo|, b)
    ensures b == Normalized(accounts)
    ensures RenamedAt(accounts, todo, |todo|) == LowerKeys(accounts) - accounts.Keys
  {
    AllLowered(accounts, todo);
    TakeAll(todo);
    assert b.Keys == LowerKeys(accounts);
  }

  /** A second run finds nothing to do. */
  lemma SecondRunChangesNothing(accounts: map<string, Account>)
    ensures AllLower(Normalized(accounts))
    ensures Normalized(Normalized(accounts)) == Normalized(accounts)
    ensures AlreadyLower(Normalized(accounts)) == Normalized(accounts).Keys
  {
    var n := Normalized(accounts);
    forall l | l in n ensures IsLower(l) {
      var k :| k in accounts && ToLower(k) == l;
      LowerIsLower(k);
    }
    assert LowerKeys(n) == n.Keys;
  }
}
