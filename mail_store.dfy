/**
 * The persistence the mail pipeline reads and writes: the account collection
 * and the message collection, kept in one store object whose methods append
 * or update records.
 */
module MailStore {
  import opened Wrappers
  import opened MailModel

  /** The two collections, in insertion (natural) order. */
  class MailDb {
    var accounts: seq<EmailAccount>
    var emails: seq<Email>

    constructor (accounts: seq<EmailAccount>, emails: seq<Email>)
      ensures this.accounts == accounts && this.emails == emails
    {
      this.accounts := accounts;
      this.emails := emails;
    }

    /** `new Email(...).save()` / `Email.create(...)`: appends one message record. */
    method AppendEmail(e: Email)
      modifies this
      ensures emails == old(emails) + [e] && accounts == old(accounts)
    {
      emails := emails + [e];
    }

    /** `EmailAccount.create(...)`: appends one account record. */
    method AppendAccount(a: EmailAccount)
      modifies this
      ensures accounts == old(accounts) + [a] && emails == old(emails)
    {
      accounts := accounts + [a];
    }

    /** `account.save()` after the sync loop changed the watermark: the changed paths
        (`lastSyncedUID`, `lastSync`) and `updatedAt` are set on the stored record. */
    method SaveWatermark(id: ObjectId, uid: int, now: Time)
      modifies this
      ensures accounts == SetWatermark(old(accounts), id, uid, now) && emails == old(emails)
    {
      accounts := SetWatermark(accounts, id, uid, now);
    }
  }

  /** `EmailAccount.findById(id)`: the first record with that id; an absent id finds nothing. */
  function FindById(accounts: seq<EmailAccount>, id: Option<ObjectId>): (r: Option<EmailAccount>)
    ensures r.Some? <==> id.Some? && exists i :: 0 <= i < |accounts| && accounts[i].id == id.value
    ensures r.Some? ==> r.value in accounts && r.value.id == id.value
  {
    if id.None? || |accounts| == 0 then None
    else if accounts[0].id == id.value then Some(accounts[0])
    else FindById(accounts[1..], id)
  }

  /** The stored record after the watermark update of one sync step. */
  function Stamp(a: EmailAccount, uid: int, now: Time): EmailAccount {
    a.(lastSyncedUID := Some(uid), lastSync := Some(now), updatedAt := now)
  }

  /** Sets the watermark of every record with id `id`; every other record is kept. */
  function SetWatermark(accounts: seq<EmailAccount>, id: ObjectId, uid: int, now: Time): (r: seq<EmailAccount>)
    ensures |r| == |accounts|
    ensures forall i :: 0 <= i < |r| ==> r[i] == (if accounts[i].id == id then Stamp(accounts[i], uid, now) else accounts[i])
  {
    seq(|accounts|, i requires 0 <= i < |accounts| =>
      if accounts[i].id == id then Stamp(accounts[i], uid, now) else accounts[i])
  }

  /** The account collection after a run whose last successful watermark save
      carried `last` (none when no save succeeded). */
  function Persist(accounts: seq<EmailAccount>, id: ObjectId, last: Option<int>, now: Time): seq<EmailAccount> {
    if last.Some? then SetWatermark(accounts, id, last.value, now) else accounts
  }

  /** Only the last of two watermark saves on the same record is visible. */
  lemma SetWatermarkTwice(accounts: seq<EmailAccount>, id: ObjectId, u1: int, u2: int, now: Time)
    ensures SetWatermark(SetWatermark(accounts, id, u1, now), id, u2, now) == SetWatermark(accounts, id, u2, now)
  {
  }
}

/**
 * The two job queues (queues/syncMail.queue.js, queues/sendMail.queue.js) as
 * sequences of appended jobs, and the payloads their producers put on them.
 */
module Queues {
  import opened Wrappers
  import opened MailModel

  /** A queued job: its name and its data. */
  datatype Job<T> = Job(name: string, data: T)

  /** A queue keeps every job added to it, in order. */
  class JobQueue<T> {
    var jobs: seq<Job<T>>

    constructor ()
      ensures jobs == []
    {
      jobs := [];
    }

    /** `queue.add(name, data)`. */
    method Add(name: string, data: T)
      modifies this
      ensures jobs == old(jobs) + [Job(name, data)]
    {
      jobs := jobs + [Job(name, data)];
    }
  }

  /** The data of a `sync` job. */
  datatype SyncPayload = SyncPayload(accountId: Option<ObjectId>)

  /** A JavaScript recipient value: absent, one address string, or an array of them. */
  datatype Recipients = Absent | One(address: string) | Many(addresses: seq<string>)

  /** An attachment as a send job may carry it. */
  datatype OutgoingAttachment = OutgoingAttachment(
    filename: Option<string>,
    size: Option<int>,
    contentType: Option<string>,
    mimetype: Option<string>)

  /** The `mail` object of a send job; the worker reads every one of these fields. */
  datatype MailPayload = MailPayload(
    to: Recipients,
    cc: Recipients,
    bcc: Recipients,
    subject: Option<string>,
    html: Option<string>,
    text: Option<string>,
    attachments: Option<seq<OutgoingAttachment>>)

  /** The data of a `send-email` job. */
  datatype SendPayload = SendPayload(accountId: Option<ObjectId>, mail: MailPayload)
}
