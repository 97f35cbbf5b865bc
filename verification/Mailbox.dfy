/** The message bucket and the three index buckets that refer to it. */
module Mailbox {
  import opened Mail

  /** An index entry: the account's uuid and the message id. */
  datatype Ref = Ref(uuid: string, id: string)

  datatype Box = Box(messages: map<string, Message>, inbox: set<Ref>, sent: set<Ref>, unread: set<Ref>)

  function RefsTo(uuids: set<string>, id: string): set<Ref> {
    set u | u in uuids :: Ref(u, id)
  }

  function RefsOf(refs: set<Ref>, uuid: string): set<Ref> {
    set r | r in refs && r.uuid == uuid
  }

  /** Stores m once, with an unread inbox entry for each account in to and a sent entry for
      each account in from. */
  function Deliver(b: Box, m: Message, to: set<string>, from: set<string>): Box {
    Box(b.messages[m.id := m], b.inbox + RefsTo(to, m.id), b.sent + RefsTo(from, m.id), b.unread + RefsTo(to, m.id))
  }

  predicate HasParent(msgs: map<string, Message>, inReplyTo: string) {
    inReplyTo == "" || inReplyTo in msgs
  }

  // ---- what a mailbox keeps ----

  /** A rank that every reply has above its parent: the reply relation is well-founded. */
  ghost predicate Ranks(rank: map<string, nat>, msgs: map<string, Message>) {
    forall id :: id in msgs ==> Above(rank, msgs, id)
  }

  ghost predicate Above(rank: map<string, nat>, msgs: map<string, Message>, id: string)
    requires id in msgs
  {
    var p := msgs[id].inReplyTo;
    id in rank && (p != "" ==> p in msgs && p in rank && rank[p] < rank[id])
  }

  ghost predicate Grounded(msgs: map<string, Message>) {
    exists rank: map<string, nat> :: Ranks(rank, msgs)
  }

  ghost predicate RefsResolve(b: Box) {
    && (forall r :: r in b.inbox ==> r.id in b.messages)
    && (forall r :: r in b.sent ==> r.id in b.messages)
  }

  ghost predicate ValidBox(b: Box) {
    Keyed(b.messages) && RefsResolve(b) && b.unread <= b.inbox && Grounded(b.messages)
  }

  /** c may be b at any later time: nothing stored in b is gone or different. */
  ghost predicate Extends(b: Box, c: Box) {
    && b.inbox <= c.inbox && b.sent <= c.sent
    && forall id :: id in b.messages ==> id in c.messages && c.messages[id] == b.messages[id]
  }

  lemma DeliverKeeps(b: Box, m: Message, to: set<string>, from: set<string>)
    requires ValidBox(b) && m.id !in b.messages && HasParent(b.messages, m.inReplyTo)
    ensures ValidBox(Deliver(b, m, to, from))
  {
    GroundedStep(b.messages, m);
  }

  lemma GroundedStep(msgs: map<string, Message>, m: Message)
    requires Grounded(msgs) && m.id !in msgs && HasParent(msgs, m.inReplyTo)
    ensures Grounded(msgs[m.id := m])
  {
    var rank: map<string, nat> :| Ranks(rank, msgs);
    var more := msgs[m.id := m];
    if m.inReplyTo != "" { assert Above(rank, msgs, m.inReplyTo); }
    var next := rank[m.id := if m.inReplyTo == "" then 0 else rank[m.inReplyTo] + 1];
    forall id | id in more ensures Above(next, more, id) {
      if id != m.id { assert Above(rank, msgs, id); }
    }
    assert Ranks(next, more);
  }

  /** Nothing delivered can be an entry already there, so earlier read marks stay put. */
  lemma DeliverMarkers(b: Box, m: Message, to: set<string>, from: set<string>, uuid: string)
    requires RefsResolve(b) && b.unread <= b.inbox && m.id !in b.messages
    ensures RefsOf(b.unread, uuid) !! RefsTo(to, m.id)
    ensures RefsOf(Deliver(b, m, to, from).unread, uuid) ==
      RefsOf(b.unread, uuid) + if uuid in to then {Ref(uuid, m.id)} else {}
  {
  }
}
