/** The stored record of one piece of mail. */
module Mail {

  datatype Attachment = Attachment(id: string, filename: string, size: nat, accessCode: string, createdAt: int)

  /** inReplyTo is "" on a message that starts a thread. */
  datatype Message = Message(
    id: string, from: string, to: seq<string>, cc: seq<string>, inReplyTo: string,
    subject: string, body: string, attachments: seq<Attachment>, receivedAt: int)

  datatype Summary = Summary(
    id: string, from: string, to: seq<string>, cc: seq<string>, inReplyTo: string,
    subject: string, preview: string, receivedAt: int, unread: bool, files: nat)

  function Summarize(m: Message): Summary {
    Summary(m.id, m.from, m.to, m.cc, m.inReplyTo, m.subject,
            if |m.body| > 100 then m.body[..100] else m.body,
            m.receivedAt, false, |m.attachments|)
  }

  /** What a summary tells of its message: the head as it is, at most the first hundred
      characters of the body, and the number of attachments. */
  ghost predicate IsSummary(s: Summary, m: Message) {
    && s.id == m.id && s.from == m.from && s.to == m.to && s.cc == m.cc && s.inReplyTo == m.inReplyTo
    && s.subject == m.subject && s.receivedAt == m.receivedAt && s.files == |m.attachments|
    && s.preview <= m.body && (|s.preview| == |m.body| || |s.preview| == 100 < |m.body|)
  }

  /** Every message is stored under its own id. */
  ghost predicate Keyed(msgs: map<string, Message>) {
    forall id :: id in msgs ==> msgs[id].id == id
  }
}
