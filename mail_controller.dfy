/**
 * controller/mailController.js: the send endpoint. It puts one `send-email` job
 * on the send queue and answers that the mail is being sent. Nothing in the
 * body is validated.
 */
module MailController {
  import opened Wrappers
  import opened MailModel
  import opened Queues

  /** The body fields the endpoint reads. */
  datatype SendRequest = SendRequest(
    accountId: Option<ObjectId>,
    to: Recipients,
    subject: Option<string>,
    message: Option<string>,
    cc: Recipients)

  /** The JSON answer of the endpoint. */
  datatype SendAck = SendAck(success: bool, message: string)

  const BeingSent: string := "Email is being sent"

  /** The job data: the account id and a `mail` object with `to`, `cc`, `subject`, and the
      body's `message` as `html`. */
  function SendJobPayload(body: SendRequest): SendPayload {
    SendPayload(body.accountId, MailPayload(body.to, body.cc, Absent, body.subject, body.message, None, None))
  }

  /** The job keeps the account and the recipients, carries the message as its html body,
      and has no bcc, no text and no attachments; any body, however incomplete, yields a job. */
  lemma SendJobCarriesRequest(body: SendRequest)
    ensures var p := SendJobPayload(body);
      && p.accountId == body.accountId
      && p.mail.to == body.to && p.mail.cc == body.cc && p.mail.subject == body.subject
      && p.mail.html == body.message
      && p.mail.bcc == Absent && p.mail.text == None && p.mail.attachments == None
  {
  }

  /** The handler. `addError` is the rejection of `queue.add`, if any: the handler then
      rejects before answering (Err) and the queue is unchanged. Otherwise exactly one job is
      added and the answer reports that the mail was queued, not that it was delivered. */
  method SendMail(queue: JobQueue<SendPayload>, body: SendRequest, addError: Option<string>)
    returns (response: Result<SendAck, string>)
    modifies queue
    ensures addError.Some? ==> response == Err(addError.value) && queue.jobs == old(queue.jobs)
    ensures addError.None? ==>
              && queue.jobs == old(queue.jobs) + [Job("send-email", SendJobPayload(body))]
              && response == Ok(SendAck(true, BeingSent))
  {
    if addError.Some? {
      return Err(addError.value);
    }
    queue.Add("send-email", SendJobPayload(body));
    response := Ok(SendAck(true, BeingSent));
  }
}
