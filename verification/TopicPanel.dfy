/** From the store to the panel: a topic that is opened shows all of its messages. */
module TopicPanel {
  import opened Text
  import opened Mail
  import opened Mailbox
  import opened Components
  import opened ThreadComponents
  import opened ThreadIndex
  import opened ThreadView
  import opened ThreadViewLaws
  import opened ThreadPage

  /** In a sound mailbox, opening any visible message renders its whole topic: each message
      that reply links connect with it exactly once, and nothing else. */
  lemma OpenedTopicIsComplete(b: Box, visible: map<string, Message>, id: string, byId: map<string, Message>)
    requires ValidBox(b) && Keyed(visible) && id in visible && "" !in visible
    requires forall i :: i in visible ==> i in b.messages && visible[i] == b.messages[i]
    requires IsLookup(byId, ComponentOf(visible, id).members)
    ensures var v := Visible(byId, Chronological(ComponentOf(visible, id).members));
      && ValidView(v)
      && forall i :: Count(Rendered(v), i) == if i in visible && Connected(ReplyLinks(visible), id, i) then 1 else 0
  {
    var msgs := ComponentOf(visible, id).members;
    MembersAreTopic(visible, id);
    ViewIsValid(byId, msgs);
    var v := Visible(byId, Chronological(msgs));
    forall i ensures Count(Rendered(v), i) == if i in visible && Connected(ReplyLinks(visible), id, i) then 1 else 0 {
      if i in byId {
        EverythingShown(v, b, i);
        assert visible[i] in msgs;
      } else {
        ShownOnce(v, i);
        OnlyVisibleRooted(v, i);
      }
    }
  }

  lemma MembersAreTopic(visible: map<string, Message>, id: string)
    requires Keyed(visible) && id in visible
    ensures var msgs := ComponentOf(visible, id).members;
      && DistinctIds(msgs)
      && (forall m :: m in msgs <==> m.id in visible && visible[m.id] == m && Connected(ReplyLinks(visible), id, m.id))
  {
    var ids := ThreadComponents.Block(visible, id);
    var msgs := ComponentOf(visible, id).members;
    ByIdIsOrder(visible, ids);
    forall m ensures m in msgs <==> m.id in visible && visible[m.id] == m && m.id in ids {
      if m in msgs { MemberIsVisible(visible, id, m); }
      if m.id in visible { MemberIds(visible, ids, m.id); }
    }
    forall i, j | 0 <= i < j < |msgs| ensures msgs[i].id != msgs[j].id {
      assert ById(msgs[i], msgs[j]);
      LessIrreflexive(msgs[i].id);
    }
  }

  lemma OnlyVisibleRooted(v: Visible, i: string)
    requires ValidView(v) && i !in v.byId
    ensures !Rooted(v, i)
  {
  }
}
