/**
 * The two mail records of the pipeline and what the schemas add when a record
 * is created: model/Email.js (a stored message) and model/EmailAccount.js
 * (a mailbox's connection settings and its sync watermark).
 */
module MailModel {
  import opened Wrappers

  /** Record identifiers, as the hex strings the API receives and stores. */
  type ObjectId = string

  /** A point in time, in milliseconds since the epoch. */
  type Time = int

  // ---------------------------------------------------------------------------
  // model/Email.js
  // ---------------------------------------------------------------------------

  /** One `{name, email}` entry of an address list. */
  datatype Address = Address(name: Option<string>, email: Option<string>)

  /** An attachment descriptor; it has no identifier of its own (`_id: false`). */
  datatype Attachment = Attachment(fileName: Option<string>, size: Option<int>, mimeType: Option<string>, url: Option<string>)

  /** The object handed to `new Email(...)` or `Email.create(...)`. */
  datatype EmailDraft = EmailDraft(
    accountId: Option<ObjectId>,
    messageId: Option<string>,
    threadId: Option<string>,
    folder: Option<string>,
    from: seq<Address>,
    to: seq<Address>,
    cc: seq<Address>,
    bcc: seq<Address>,
    subject: Option<string>,
    text: Option<string>,
    html: Option<string>,
    date: Option<Time>,
    flags: seq<string>,
    attachments: seq<Attachment>)

  /** A stored message. `messageId` and `threadId` are plain optional strings with no
      uniqueness constraint, so two records may carry the same ones. */
  datatype Email = Email(
    accountId: ObjectId,
    messageId: Option<string>,
    threadId: Option<string>,
    folder: string,
    from: seq<Address>,
    to: seq<Address>,
    cc: seq<Address>,
    bcc: seq<Address>,
    subject: Option<string>,
    text: Option<string>,
    html: Option<string>,
    date: Option<Time>,
    flags: seq<string>,
    attachments: seq<Attachment>,
    createdAt: Time,
    updatedAt: Time)

  const DefaultFolder: string := "inbox"

  const AccountIdRequired: string := "Email validation failed: accountId: Path `accountId` is required."

  /** Reads a stored message back as the draft it was built from, with its folder filled in. */
  function DraftOf(e: Email): EmailDraft {
    EmailDraft(Some(e.accountId), e.messageId, e.threadId, Some(e.folder), e.from, e.to, e.cc, e.bcc,
               e.subject, e.text, e.html, e.date, e.flags, e.attachments)
  }

  /** Creating a message record: `accountId` is required, `folder` defaults to "inbox",
      and both timestamps are the creation time. */
  function NewEmail(d: EmailDraft, now: Time): (r: Result<Email, string>)
    ensures r.Ok? <==> d.accountId.Some?
    ensures r.Err? ==> r.error == AccountIdRequired
    ensures r.Ok? ==> DraftOf(r.value) == d.(folder := Some(if d.folder.Some? then d.folder.value else DefaultFolder))
    ensures r.Ok? ==> r.value.createdAt == now && r.value.updatedAt == now
  {
    if d.accountId.None? then Err(AccountIdRequired)
    else
      Ok(Email(d.accountId.value, d.messageId, d.threadId,
               if d.folder.Some? then d.folder.value else DefaultFolder,
               d.from, d.to, d.cc, d.bcc, d.subject, d.text, d.html, d.date, d.flags, d.attachments,
               now, now))
  }

  // ---------------------------------------------------------------------------
  // model/EmailAccount.js
  // ---------------------------------------------------------------------------

  /** The five settings `smtp` and `imap` both have. */
  datatype ServerSettings = ServerSettings(
    host: Option<string>,
    port: Option<int>,
    secure: Option<bool>,
    username: Option<string>,
    password: Option<string>)

  const UnsetServer: ServerSettings := ServerSettings(None, None, None, None, None)

  /** A stored mailbox account. `lastSyncedUID` is the sync watermark. */
  datatype EmailAccount = EmailAccount(
    id: ObjectId,
    userId: string,
    email: string,
    provider: Option<string>,
    smtpServer: ServerSettings,
    imapServer: ServerSettings,
    lastSyncedUID: Option<int>,
    lastSync: Option<Time>,
    createdAt: Time,
    updatedAt: Time)

  /** The fields an account is created from. */
  datatype AccountFields = AccountFields(
    userId: Option<string>,
    email: Option<string>,
    provider: Option<string>,
    smtpServer: Option<ServerSettings>,
    imapServer: Option<ServerSettings>)

  /** A required string path is satisfied by a non-empty string. */
  predicate Present(s: Option<string>) {
    s.Some? && |s.value| > 0
  }

  /** The required paths of the account schema that `f` leaves unsatisfied, in schema order. */
  function MissingAccountPaths(f: AccountFields): seq<string> {
    (if Present(f.userId) then [] else ["userId"]) + (if Present(f.email) then [] else ["email"])
  }

  /** The validation message for the missing required paths. */
  function AccountValidationMessage(missing: seq<string>): string {
    "EmailAccount validation failed: " + RequiredList(missing)
  }

  function RequiredList(missing: seq<string>): string {
    if |missing| == 0 then ""
    else
      var item := missing[0] + ": Path `" + missing[0] + "` is required.";
      if |missing| == 1 then item else item + ", " + RequiredList(missing[1..])
  }

  /** Creating an account: `userId` and `email` are required, an absent `smtp`/`imap`
      has every setting unset, the watermark starts at 0, `lastSync` is unset and
      both timestamps are the creation time. */
  function NewEmailAccount(f: AccountFields, id: ObjectId, now: Time): (r: Result<EmailAccount, string>)
    ensures r.Ok? <==> Present(f.userId) && Present(f.email)
    ensures r.Err? ==> r.error == AccountValidationMessage(MissingAccountPaths(f))
    ensures r.Ok? ==> r.value.id == id && r.value.userId == f.userId.value && r.value.email == f.email.value
                      && r.value.provider == f.provider
    ensures r.Ok? ==> r.value.smtpServer == (if f.smtpServer.Some? then f.smtpServer.value else UnsetServer)
                      && r.value.imapServer == (if f.imapServer.Some? then f.imapServer.value else UnsetServer)
    ensures r.Ok? ==> r.value.lastSyncedUID == Some(0) && r.value.lastSync == None
                      && r.value.createdAt == now && r.value.updatedAt == now
  {
    var missing := MissingAccountPaths(f);
    if |missing| > 0 then Err(AccountValidationMessage(missing))
    else
      Ok(EmailAccount(id, f.userId.value, f.email.value, f.provider,
                      if f.smtpServer.Some? then f.smtpServer.value else UnsetServer,
                      if f.imapServer.Some? then f.imapServer.value else UnsetServer,
                      Some(0), None, now, now))
  }
}
