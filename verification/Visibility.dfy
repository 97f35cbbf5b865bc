/** The messages an account may see: its own mailbox and those of its subordinates. */
module Visibility {
  import opened Wrappers
  import opened Text
  import opened Sorting
  import opened Sequences
  import opened Cursor
  import opened Mail
  import opened Directory
  import opened Mailbox
  import opened IndexKeys
  import opened Subs

  /** What the transactions that visit one mailbox see. */
  datatype Look = Look(accounts: map<string, Account>, inbox: set<Ref>, sent: set<Ref>)

  /** The addresses whose mailboxes are open to me. */
  function Overseen(subs: map<string, SubRecord>, me: string): set<string> {
    {ToLower(me)} + Tails(subs.Keys, Under(me))
  }

  lemma OverseenMeaning(subs: map<string, SubRecord>, me: string, a: string)
    requires ValidSubs(subs) && NulFree(me)
    ensures a in Overseen(subs, me) <==> a == ToLower(me) || (IsLower(a) && IsSubordinate(subs, me, a))
  {
    UnderMeaning(subs, me, a);
  }

  function IdsFor(refs: set<Ref>, uuid: string): set<string> {
    set r | r in refs && r.uuid == uuid :: r.id
  }

  /** The ids of both indexes of the account that the address finds. */
  function SeenIn(look: Look, address: string): set<string> {
    var acc := GetAccount(look.accounts, address);
    if acc.None? then {} else IdsFor(look.inbox + look.sent, acc.value.uuid)
  }

  function Gathered(looks: string -> Look, names: set<string>): set<string> {
    set a, id | a in names && id in SeenIn(looks(a), a) :: id
  }

  function VisibleIds(looks: string -> Look, subs: map<string, SubRecord>, me: string): set<string> {
    Gathered(looks, Overseen(subs, me))
  }

  ghost predicate UniformLook(look: Look) {
    && UniformUuids(look.inbox) && UniformUuids(look.sent)
    && forall l :: l in look.accounts ==> |look.accounts[l].uuid| == UUID_LENGTH
  }

  method CollectMailbox(look: Look, address: string) returns (ids: set<string>)
    requires UniformLook(look)
    ensures ids == SeenIn(look, address)
  {
    var acc := GetAccount(look.accounts, address);
    if acc.None? { return {}; }
    var received := Collect(look.inbox, acc.value.uuid);
    var posted := Collect(look.sent, acc.value.uuid);
    ids := Elements(received) + Elements(posted);
    BothSides(look, acc.value.uuid, received, posted);
  }

  lemma BothSides(look: Look, uuid: string, received: seq<string>, posted: seq<string>)
    requires received == Ascending(Ids(look.inbox, uuid)) && posted == Ascending(Ids(look.sent, uuid))
    ensures Elements(received) + Elements(posted) == IdsFor(look.inbox + look.sent, uuid)
  {
    assert Elements(received) == Ids(look.inbox, uuid) && Elements(posted) == Ids(look.sent, uuid);
    forall id | id in Ids(look.inbox, uuid) + Ids(look.sent, uuid) ensures id in IdsFor(look.inbox + look.sent, uuid) {
      assert Ref(uuid, id) in look.inbox + look.sent;
    }
  }

  /** Each mailbox is visited in transactions of its own, and the messages are loaded last. */
  method VisibleMessages(looks: string -> Look, subs: map<string, SubRecord>, later: map<string, Message>, me: string)
    returns (out: map<string, Message>)
    requires ValidSubs(subs) && NulFree(me) && forall a :: UniformLook(looks(a))
    ensures out == map id | id in VisibleIds(looks, subs, me) && id in later :: later[id]
  {
    var ids := CollectMailbox(looks(ToLower(me)), me);
    var below := SubordinatesOf(subs, me);
    GatheredOne(looks, me);
    for i := 0 to |below|
      invariant ids == Gathered(looks, {ToLower(me)} + Elements(below[..i]))
    {
      var more := CollectMailbox(looks(below[i]), below[i]);
      GatheredNext(looks, {ToLower(me)}, below, i);
      ids := ids + more;
    }
    TakeAll(below);
    AllOverseen(subs, me, below);
    out := map id | id in ids && id in later :: later[id];
  }

  lemma GatheredOne(looks: string -> Look, me: string)
    ensures Gathered(looks, {ToLower(me)} + Elements([])) == SeenIn(looks(ToLower(me)), me)
  {
    var l, none: seq<string> := ToLower(me), [];
    LowerIsLower(me);
    assert {l} + Elements(none) == {l};
    assert SeenIn(looks(l), l) == SeenIn(looks(l), me);
    forall id ensures id in Gathered(looks, {l}) <==> id in SeenIn(looks(l), l) {
      if id in SeenIn(looks(l), l) { assert l in {l}; }
    }
  }

  lemma GatheredNext(looks: string -> Look, first: set<string>, below: seq<string>, i: nat)
    requires i < |below|
    ensures Gathered(looks, first + Elements(below[..i + 1])) ==
      Gathered(looks, first + Elements(below[..i])) + SeenIn(looks(below[i]), below[i])
  {
    var was, more := first + Elements(below[..i]), first + Elements(below[..i + 1]);
    TakeOne(below, i);
    ElementsStep(below[..i], below[i]);
    assert more == was + {below[i]};
    forall id | id in Gathered(looks, more) ensures id in Gathered(looks, was) + SeenIn(looks(below[i]), below[i]) {
      var a :| a in more && id in SeenIn(looks(a), a);
      assert a in was || a == below[i];
    }
    forall id | id in Gathered(looks, was) + SeenIn(looks(below[i]), below[i]) ensures id in Gathered(looks, more) {
      if id in Gathered(looks, was) {
        var a :| a in was && id in SeenIn(looks(a), a);
        assert a in more;
      } else {
        assert below[i] in more;
      }
    }
  }

  lemma AllOverseen(subs: map<string, SubRecord>, me: string, below: seq<string>)
    requires ValidSubs(subs) && NulFree(me)
    requires forall a :: a in below <==> IsLower(a) && IsSubordinate(subs, me, a)
    ensures {ToLower(me)} + Elements(below) == Overseen(subs, me)
  {
    forall a ensures a in below <==> a in Tails(subs.Keys, Under(me)) { UnderMeaning(subs, me, a); }
  }

  /** What the thread index builds on: each visible message is stored under its own id, and
      no visible entry is left unresolved. */
  lemma VisibleIsKeyed(looks: string -> Look, subs: map<string, SubRecord>, later: map<string, Message>, me: string,
      out: map<string, Message>)
    requires Keyed(later) && forall a, r :: r in looks(a).inbox + looks(a).sent ==> r.id in later
    requires out == map id | id in VisibleIds(looks, subs, me) && id in later :: later[id]
    ensures Keyed(out) && out.Keys == VisibleIds(looks, subs, me)
    ensures forall id :: id in out ==> out[id] == later[id]
  {
    forall id | id in VisibleIds(looks, subs, me) ensures id in later {
      var a :| a in Overseen(subs, me) && id in SeenIn(looks(a), a);
      var r :| r in looks(a).inbox + looks(a).sent && r.id == id;
    }
  }

  /** The address finds an account that has the message in its inbox or its sent folder. */
  predicate Keeps(look: Look, address: string, id: string) {
    ToLower(address) in look.accounts &&
    var uuid := look.accounts[ToLower(address)].uuid; Ref(uuid, id) in look.inbox || Ref(uuid, id) in look.sent
  }

  /** What I may see is what I keep and what those declared under me keep. */
  lemma VisibleMeaning(looks: string -> Look, subs: map<string, SubRecord>, me: string, id: string)
    requires ValidSubs(subs) && NulFree(me)
    ensures id in VisibleIds(looks, subs, me) <==>
      exists a :: (a == ToLower(me) || (IsLower(a) && IsSubordinate(subs, me, a))) && Keeps(looks(a), a, id)
  {
    if id in VisibleIds(looks, subs, me) {
      var a :| a in Overseen(subs, me) && id in SeenIn(looks(a), a);
      OverseenMeaning(subs, me, a);
    }
    if a :| (a == ToLower(me) || (IsLower(a) && IsSubordinate(subs, me, a))) && Keeps(looks(a), a, id) {
      OverseenMeaning(subs, me, a);
      var uuid := looks(a).accounts[ToLower(a)].uuid;
      assert Ref(uuid, id) in looks(a).inbox + looks(a).sent;
      assert id in SeenIn(looks(a), a);
    }
  }

  /** b may be what is seen at any later time than a. */
  ghost predicate SeenLater(a: Look, b: Look) {
    a.inbox <= b.inbox && a.sent <= b.sent && StillFound(a.accounts, b.accounts)
  }

  function Always(look: Look): string -> Look {
    _ => look
  }

  /** Whatever happens between the visits, everything is there that a single transaction would
      have seen before the first, and nothing that one would not see after the last. */
  lemma VisibleBetween(looks: string -> Look, before: Look, after: Look, subs: map<string, SubRecord>, me: string)
    requires forall a :: SeenLater(before, looks(a)) && SeenLater(looks(a), after)
    ensures VisibleIds(Always(before), subs, me) <= VisibleIds(looks, subs, me) <= VisibleIds(Always(after), subs, me)
  {
    forall id | id in VisibleIds(Always(before), subs, me) ensures id in VisibleIds(looks, subs, me) {
      var a :| a in Overseen(subs, me) && id in SeenIn(before, a);
      SeenStays(before, looks(a), a, id);
    }
    forall id | id in VisibleIds(looks, subs, me) ensures id in VisibleIds(Always(after), subs, me) {
      var a :| a in Overseen(subs, me) && id in SeenIn(looks(a), a);
      SeenStays(looks(a), after, a, id);
      assert id in SeenIn(Always(after)(a), a);
    }
  }

  lemma SeenStays(a: Look, b: Look, address: string, id: string)
    requires SeenLater(a, b) && id in SeenIn(a, address)
    ensures id in SeenIn(b, address)
  {
    LowerIsLower(address);
    var r :| r in a.inbox + a.sent && r.uuid == GetAccount(a.accounts, address).value.uuid && r.id == id;
    assert r in b.inbox + b.sent;
  }
}
