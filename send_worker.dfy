/**
 * workers/sendMail.worker.js: the handler of a `send-email` job. It looks the
 * account up, submits the mail through the account's SMTP settings from the
 * account's address, and once the submission resolves stores a "sent" record.
 */
module SendWorker {
  import opened Wrappers
  import opened MailModel
  import opened MailStore
  import opened Queues
  import MailController

  /** What the SMTP submission resolves to. */
  datatype SendInfo = SendInfo(messageId: Option<string>)

  /** One submission: the transport settings and the message handed to it. */
  datatype Submission = Submission(
    via: ServerSettings,
    from: string,
    to: Recipients,
    cc: Recipients,
    bcc: Recipients,
    subject: Option<string>,
    html: Option<string>,
    text: Option<string>,
    attachments: Option<seq<OutgoingAttachment>>)

  const AccountNotFound: string := "Email account not found"

  /** The submission for a job: the account's SMTP settings and address, and every
      recipient, content and attachment field of the job as given. */
  function SubmissionFor(account: EmailAccount, mail: MailPayload): Submission {
    Submission(account.smtpServer, account.email, mail.to, mail.cc, mail.bcc, mail.subject, mail.html, mail.text, mail.attachments)
  }

  /** The `to` list of the sent record: one `{email}` entry per array element, and a
      single entry for any other value (an absent `to` gives an entry without an email). */
  function SentTo(to: Recipients): seq<Address> {
    match to
    case Many(xs) => seq(|xs|, i requires 0 <= i < |xs| => Address(None, Some(xs[i])))
    case One(x) => [Address(None, Some(x))]
    case Absent => [Address(None, None)]
  }

  /** The addresses an address list records, in order. */
  function RecordedEmails(addresses: seq<Address>): seq<Option<string>> {
    seq(|addresses|, i requires 0 <= i < |addresses| => addresses[i].email)
  }

  /** Reading the recorded `to` list back gives the recipients of an array `to` in order,
      and the single recipient of any other `to`. */
  lemma SentToRecordsRecipients(to: Recipients)
    ensures to.Many? ==> RecordedEmails(SentTo(to)) == seq(|to.addresses|, i requires 0 <= i < |to.addresses| => Some(to.addresses[i]))
    ensures to.One? ==> RecordedEmails(SentTo(to)) == [Some(to.address)]
    ensures to.Absent? ==> RecordedEmails(SentTo(to)) == [None]
    ensures forall a :: a in SentTo(to) ==> a.name == None
  {
  }

  /** `att.contentType || att.mimetype`: a missing or empty content type falls back. */
  function MimeTypeOf(att: OutgoingAttachment): Option<string> {
    if att.contentType.Some? && |att.contentType.value| > 0 then att.contentType else att.mimetype
  }

  /** The attachment descriptors of the sent record. */
  function SentAttachments(atts: Option<seq<OutgoingAttachment>>): seq<Attachment> {
    var xs := if atts.Some? then atts.value else [];
    seq(|xs|, i requires 0 <= i < |xs| => Attachment(xs[i].filename, xs[i].size, MimeTypeOf(xs[i]), Some("")))
  }

  /** The object handed to `Email.create` after a successful submission. */
  function SentDraft(account: EmailAccount, mail: MailPayload, info: SendInfo, now: Time): EmailDraft {
    EmailDraft(Some(account.id), info.messageId, None, Some("sent"),
               [Address(Some(""), Some(account.email))], SentTo(mail.to), [], [],
               mail.subject, mail.text, mail.html, Some(now), [], SentAttachments(mail.attachments))
  }

  /** The stored "sent" record. */
  function SentRecord(account: EmailAccount, mail: MailPayload, info: SendInfo, now: Time): Email {
    NewEmail(SentDraft(account, mail, info, now), now).value
  }

  /** The sent record is filed in "sent" under the account with the submission's message id,
      from the account's address with an empty name, with no flags and empty cc and bcc
      lists whatever the job carried; each attachment takes its content type, or its
      `mimetype` when that is missing or empty, and an empty `url`. */
  lemma SentRecordShape(account: EmailAccount, mail: MailPayload, info: SendInfo, now: Time)
    ensures var r := SentRecord(account, mail, info, now);
      && r.folder == "sent" && r.accountId == account.id && r.messageId == info.messageId
      && r.threadId == None
      && r.from == [Address(Some(""), Some(account.email))]
      && r.to == SentTo(mail.to)
      && r.cc == [] && r.bcc == [] && r.flags == []
      && r.subject == mail.subject && r.text == mail.text && r.html == mail.html
      && r.date == Some(now) && r.createdAt == now
      && var xs := if mail.attachments.Some? then mail.attachments.value else [];
         |r.attachments| == |xs|
         && forall i :: 0 <= i < |xs| ==>
              r.attachments[i].fileName == xs[i].filename && r.attachments[i].size == xs[i].size
              && r.attachments[i].url == Some("")
              && r.attachments[i].mimeType == (if xs[i].contentType.Some? && xs[i].contentType.value != "" then xs[i].contentType else xs[i].mimetype)
  {
    var r := SentRecord(account, mail, info, now);
    assert DraftOf(r) == SentDraft(account, mail, info, now);
    var xs := if mail.attachments.Some? then mail.attachments.value else [];
    assert r.attachments == SentAttachments(mail.attachments);
    forall i | 0 <= i < |xs|
      ensures r.attachments[i] == Attachment(xs[i].filename, xs[i].size, MimeTypeOf(xs[i]), Some(""))
    {
    }
  }

  /** The job handler. `lookupError` is the message of a rejected `findById`, `smtp` is
      how the submission settles and `storeError` whether `Email.create` throws;
      `submitted` lists the submissions made. */
  method HandleSendJob(db: MailDb, job: SendPayload, lookupError: Option<string>, smtp: Result<SendInfo, string>,
                       storeError: Option<string>, now: Time)
    returns (result: Result<SendInfo, string>, submitted: seq<Submission>)
    modifies db
    ensures db.accounts == old(db.accounts)
    ensures lookupError.Some? ==>
              result == Err(lookupError.value) && submitted == [] && db.emails == old(db.emails)
    ensures lookupError.None? && FindById(old(db.accounts), job.accountId).None? ==>
              result == Err(AccountNotFound) && submitted == [] && db.emails == old(db.emails)
    ensures lookupError.None? && FindById(old(db.accounts), job.accountId).Some? ==>
              var account := FindById(old(db.accounts), job.accountId).value;
              && submitted == [SubmissionFor(account, job.mail)]
              && (smtp.Err? ==> result == Err(smtp.error) && db.emails == old(db.emails))
              && (smtp.Ok? && storeError.Some? ==> result == Err(storeError.value) && db.emails == old(db.emails))
              && (smtp.Ok? && storeError.None? ==>
                    result == smtp && db.emails == old(db.emails) + [SentRecord(account, job.mail, smtp.value, now)])
  {
    if lookupError.Some? {
      return Err(lookupError.value), [];
    }
    var found := FindById(db.accounts, job.accountId);
    if found.None? {
      return Err(AccountNotFound), [];
    }
    var account := found.value;
    submitted := [SubmissionFor(account, job.mail)];
    if smtp.Err? {
      return Err(smtp.error), submitted;
    }
    var info := smtp.value;
    if storeError.Some? {
      return Err(storeError.value), submitted;
    }
    db.AppendEmail(SentRecord(account, job.mail, info, now));
    result := Ok(info);
  }

  /** A request accepted by the send endpoint and handled for an existing account is
      submitted with the request's recipients, subject and message (as html), no bcc, text
      or attachments; the sent record keeps the subject and the message, records `to`
      from the request, and drops the request's `cc`. */
  lemma EndpointToSentRecord(account: EmailAccount, body: MailController.SendRequest, info: SendInfo, now: Time)
    ensures var mail := MailController.SendJobPayload(body).mail;
      && SubmissionFor(account, mail)
         == Submission(account.smtpServer, account.email, body.to, body.cc, Absent, body.subject, body.message, None, None)
      && var r := SentRecord(account, mail, info, now);
         && r.html == body.message && r.subject == body.subject && r.text == None
         && r.to == SentTo(body.to) && r.cc == [] && r.attachments == []
  {
    SentRecordShape(account, MailController.SendJobPayload(body).mail, info, now);
  }
}
