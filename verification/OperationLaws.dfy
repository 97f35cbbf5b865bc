/** What the transactions of the store do, in terms of what is stored before and after. */
module OperationLaws {
  import opened Wrappers
  import opened Text
  import opened Mail
  import opened Directory
  import opened Mailbox
  import opened Subs
  import opened StoreSpec
  import opened StoreRuns
  import opened StoreLaws

  // ---- delivery ----

  /** Some To or CC address finds the account under key l. */
  predicate Reaches(m: Message, l: string) {
    IsLower(l) && exists a :: a in m.to + m.cc && EqualFold(a, l)
  }

  predicate SentFrom(m: Message, l: string) {
    IsLower(l) && EqualFold(m.from, l)
  }

  /** From b to c, the message m has come in: it is stored, each account that it reaches has it
      unread in the inbox, its sender has it in the sent folder, and nothing else is different. */
  ghost predicate CameIn(accounts: map<string, Account>, b: Box, c: Box, m: Message) {
    && c.messages == b.messages[m.id := m]
    && (forall l :: l in accounts ==>
         (Ref(accounts[l].uuid, m.id) in c.inbox <==> Reaches(m, l))
         && (Ref(accounts[l].uuid, m.id) in c.unread <==> Reaches(m, l))
         && (Ref(accounts[l].uuid, m.id) in c.sent <==> SentFrom(m, l)))
    && (forall r: Ref :: r.id != m.id ==>
         (r in c.inbox <==> r in b.inbox) && (r in c.unread <==> r in b.unread) && (r in c.sent <==> r in b.sent))
  }

  lemma PostedComesIn(s: State, m: Message)
    requires Sound(s) && m.id !in s.box.messages
    ensures CameIn(s.accounts, s.box, Posted(s, m).box, m)
    ensures var t := Posted(s, m);
      t.accounts == s.accounts && t.subs == s.subs && t.shelf == s.shelf && t.lastRead == s.lastRead
  {
    forall l | l in s.accounts
      ensures Ref(s.accounts[l].uuid, m.id) in Posted(s, m).box.inbox <==> Reaches(m, l)
      ensures Ref(s.accounts[l].uuid, m.id) in Posted(s, m).box.unread <==> Reaches(m, l)
      ensures Ref(s.accounts[l].uuid, m.id) in Posted(s, m).box.sent <==> SentFrom(m, l)
    {
      DeliveryMeaning(s, m, l);
    }
  }

  predicate SomeoneReached(accounts: map<string, Account>, m: Message) {
    exists a :: a in m.to + m.cc && ToLower(a) in accounts
  }

  lemma RecipientsReached(accounts: map<string, Account>, m: Message)
    ensures Recipients(accounts, m.to + m.cc) != {} <==> SomeoneReached(accounts, m)
  {
    if Recipients(accounts, m.to + m.cc) != {} {
      var l :| l in Recipients(accounts, m.to + m.cc);
      var a :| a in m.to + m.cc && ToLower(a) == l;
    }
    if a :| a in m.to + m.cc && ToLower(a) in accounts { assert ToLower(a) in Recipients(accounts, m.to + m.cc); }
  }

  /** A send fails without a trace if the message it replies to is not stored, or its id is taken.
      Otherwise the message comes in, and if it reaches nobody the sender is told so. */
  lemma SendMeaning(s: State, m: Message)
    requires Sound(s)
    ensures var (t, r) := StoreSpec.Send(s, m);
      if m.inReplyTo != "" && m.inReplyTo !in s.box.messages then t == s && r == Err(NoSuchParent)
      else if m.id in s.box.messages then t == s && r == Err(NoRecipients)
      else CameIn(s.accounts, s.box, t.box, m) && t == s.(box := t.box)
           && r == if SomeoneReached(s.accounts, m) then Ok(m.id) else Err(NoRecipients)
  {
    RecipientsReached(s.accounts, m);
    if m.id !in s.box.messages { PostedComesIn(s, m); }
  }

  // ---- the end of a relationship ----

  predicate IsNotice(m: Message, id: string, now: int, caller: string, other: string, subject: string, body: string) {
    && m.id == id && m.from == caller && m.to == [other] && m.cc == [] && m.inReplyTo == ""
    && m.subject == subject && m.body == body && m.attachments == [] && m.receivedAt == now
  }

  /** If there is a relationship either way, one message comes in, from the caller to the other
      side and to nobody else, with the given texts; otherwise nothing happens. */
  lemma RemovalMeaning(s: State, caller: string, other: string, id: string, subject: string, body: string, now: int)
    requires Sound(s) && id !in s.box.messages
    ensures var (t, r) := StoreSpec.Remove(s, caller, other, Notice(id, now, caller, other, subject, body));
      && t == Apply(s, Op.Remove(caller, other, id, subject, body, now))
      && if IsSubordinate(s.subs, other, caller) || IsSubordinate(s.subs, caller, other)
         then r.Ok? && id in t.box.messages && IsNotice(t.box.messages[id], id, now, caller, other, subject, body)
              && CameIn(s.accounts, s.box, t.box, t.box.messages[id])
              && t.accounts == s.accounts && t.shelf == s.shelf && t.lastRead == s.lastRead
         else t == s && r == Err(NoRelationship)
  {
    var m := Notice(id, now, caller, other, subject, body);
    RemoveKeeps(s, StoreSpec.Revoke(s, other, caller));
    RemoveKeeps(s, StoreSpec.Revoke(s, caller, other));
    PostedComesIn(StoreSpec.Revoke(s, other, caller), m);
    PostedComesIn(StoreSpec.Revoke(s, caller, other), m);
  }

  lemma RemoveKeeps(s: State, t: State)
    requires Sound(s) && t == s.(subs := t.subs) && t.subs.Keys <= s.subs.Keys
    ensures Sound(t)
  {
    GraphSound(s, t);
  }

  /** So the other side's account, and no other, finds it unread in its inbox, and the caller's,
      and no other, in the sent folder. */
  lemma RemovalAnnounced(s: State, caller: string, other: string, id: string, subject: string, body: string, now: int,
      l: string)
    requires Sound(s) && id !in s.box.messages && l in s.accounts
    requires IsSubordinate(s.subs, other, caller) || IsSubordinate(s.subs, caller, other)
    ensures var t, r := Apply(s, Op.Remove(caller, other, id, subject, body, now)), Ref(s.accounts[l].uuid, id);
      && id in t.box.messages && IsNotice(t.box.messages[id], id, now, caller, other, subject, body)
      && (r in t.box.inbox <==> l == ToLower(other)) && (r in t.box.unread <==> l == ToLower(other))
      && (r in t.box.sent <==> l == ToLower(caller))
  {
    RemovalMeaning(s, caller, other, id, subject, body, now);
    var m := Apply(s, Op.Remove(caller, other, id, subject, body, now)).box.messages[id];
    NoticeReaches(m, id, now, caller, other, subject, body, l);
  }

  lemma NoticeReaches(m: Message, id: string, now: int, caller: string, other: string, subject: string, body: string,
      l: string)
    requires IsNotice(m, id, now, caller, other, subject, body)
    ensures Reaches(m, l) <==> l == ToLower(other)
    ensures SentFrom(m, l) <==> l == ToLower(caller)
  {
    assert m.to + m.cc == [other];
    assert other in [other];
    LowerIsLower(other);
    LowerIsLower(caller);
  }

  // ---- accounts and declarations ----

  /** An account is created under its lowercased address unless there is one, without a signature;
      a name with capitals is kept for display. */
  lemma CreateMeaning(s: State, uuid: string, name: string, domain: string, now: int)
    ensures var (t, r) := StoreSpec.CreateAccount(s, NewAccount(uuid, name, domain, now));
      var trimmed := TrimSpace(name);
      var key := ToLower(trimmed + "@" + domain);
      if key in s.accounts then t == s && r == Err(AccountExists)
      else r == Ok(uuid) && t == s.(accounts := t.accounts) && t.accounts.Keys == s.accounts.Keys + {key}
           && (forall l :: l in s.accounts ==> t.accounts[l] == s.accounts[l])
           && t.accounts[key].uuid == uuid && t.accounts[key].address == key && t.accounts[key].signature == ""
           && t.accounts[key].createdAt == now
           && t.accounts[key].displayLocal == if HasCapital(trimmed) then trimmed else ""
  {
    LowerIffNoCapital(TrimSpace(name));
  }

  /** A declaration succeeds between two different accounts, which it records with its time. */
  lemma DeclareMeaning(s: State, superior: string, subordinate: string, now: int)
    ensures var (t, r) := StoreSpec.Declare(s, superior, subordinate, now);
      var key := ToLower(superior) + "\0" + ToLower(subordinate);
      if ToLower(superior) == ToLower(subordinate) then t == s && r == Err(SelfDeclared)
      else if ToLower(superior) !in s.accounts || ToLower(subordinate) !in s.accounts
      then t == s && r == Err(NoSuchAccount)
      else r == Ok(()) && t == s.(subs := t.subs) && t.subs.Keys == s.subs.Keys + {key}
           && t.subs[key].scope == "both" && t.subs[key].createdAt == now
           && forall k :: k in s.subs && k != key ==> t.subs[k] == s.subs[k]
  {
  }
}
