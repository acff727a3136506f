/**
 * services/imapReceiver.js: one inbound sync of one account.
 *
 * The connection, the mailbox lock and the fetch are the server's business;
 * the model receives the server's INBOX as a sequence of messages (message
 * sequence number = position + 1) together with what happens to each message
 * when the sync handles it: it may fail to parse, its record may fail to save,
 * or the account save after it may fail. The fetch range `${fromUid}:*` is
 * passed to the fetch as its range argument while `uid: true` sits in the query
 * object, so the server reads it as a message sequence-number range. Section 9
 * of RFC 3501 lets a server answer a sequence number above the message count
 * with a tagged BAD; other servers read `n:*` with n past the end as naming the
 * last message. Which of the two the server does is a parameter (`RangeAnswer`).
 * A BAD makes the fetch throw inside the `for await`, the `catch` swallows it,
 * and the run writes nothing, exactly as for an empty fetch.
 */
module ImapReceiver {
  import opened Wrappers
  import opened MailModel
  import opened MailStore

  /** An attachment as the parser reports it. */
  datatype ParsedAttachment = ParsedAttachment(filename: Option<string>, size: Option<int>, contentType: Option<string>)

  /** The References header as the parser reports it: a header holding one Message-ID
      comes back as that string, a header holding several as a list. */
  datatype References = OneReference(id: string) | ReferenceList(ids: seq<string>)

  /** The parser's view of one message: the fields the sync reads. */
  datatype ParsedMail = ParsedMail(
    messageId: Option<string>,
    references: Option<References>,
    from: Option<seq<Address>>,
    to: Option<seq<Address>>,
    cc: Option<seq<Address>>,
    bcc: Option<seq<Address>>,
    subject: Option<string>,
    text: Option<string>,
    html: Option<string>,
    date: Option<Time>,
    attachments: Option<seq<ParsedAttachment>>)

  /** Which persistence step, if any, throws while the message is handled. */
  datatype SaveFault = NoFault | EmailSaveFault | AccountSaveFault

  /** A message of the INBOX: its UID and flags, its parse (None when the parser throws)
      and the save fault the sync meets on it. */
  datatype ServerMessage = ServerMessage(uid: int, flags: seq<string>, parsed: Option<ParsedMail>, fault: SaveFault)

  /** How the server answers a range whose start lies past the last sequence number:
      with the last message, or with a tagged BAD. */
  datatype RangeAnswer = ClampToLast | RejectBad

  /** The mail server as one sync sees it: whether connecting, locking and logging out
      throw (with their messages), the INBOX, and its answer to an out-of-range start. */
  datatype ImapEnv = ImapEnv(
    connectError: Option<string>,
    lockError: Option<string>,
    inbox: seq<ServerMessage>,
    outOfRange: RangeAnswer,
    logoutError: Option<string>)

  /** The range `from:*`. */
  datatype SeqRange = OpenFrom(from: int)

  /** The operations the sync issues on its IMAP client, in order. */
  datatype ImapCall = Connect | GetMailboxLock | Fetch(range: SeqRange) | ReleaseLock | Logout

  /** The store writes of one sync, in order: the record of a fetched message (see
      `InboxRecord`), or the account with its watermark set to a UID. */
  datatype Write = SaveEmail(source: ServerMessage) | SaveAccount(uid: int, at: Time)

  /** The value of `account.lastSyncedUID || 0`. */
  function Watermark(account: EmailAccount): int {
    if account.lastSyncedUID.Some? then account.lastSyncedUID.value else 0
  }

  /** The fetch range: it starts one past the watermark (an unset watermark counts as 0)
      and is open-ended. */
  function FetchRange(account: EmailAccount): (r: SeqRange)
    ensures r.from == Watermark(account) + 1
    ensures account.lastSyncedUID.None? ==> r == OpenFrom(1)
  {
    OpenFrom(Watermark(account) + 1)
  }

  function Min(a: int, b: int): int { if a <= b then a else b }

  /** What the loop receives for `from:*`: the messages whose sequence numbers lie between
      `from` and the last one, in mailbox order. A `from` above the last sequence number names
      the last message on a server that clamps, and nothing on one that answers BAD; an empty
      INBOX or a sequence number below 1 yields nothing. */
  function FetchSeqRange(inbox: seq<ServerMessage>, r: SeqRange, answer: RangeAnswer): seq<ServerMessage>
  {
    if |inbox| == 0 || r.from < 1 then []
    else if r.from > |inbox| && answer == RejectBad then []
    else inbox[Min(r.from, |inbox|) - 1..]
  }

  /** `x ? x.value : []` */
  function ListOrEmpty(l: Option<seq<Address>>): seq<Address> {
    if l.Some? then l.value else []
  }

  /** The attachment descriptors of a synced message: name, size and content type copied,
      `url` always empty. */
  function InboxAttachments(atts: Option<seq<ParsedAttachment>>): seq<Attachment> {
    var xs := if atts.Some? then atts.value else [];
    seq(|xs|, i requires 0 <= i < |xs| => Attachment(xs[i].filename, xs[i].size, xs[i].contentType, Some("")))
  }

  /** The Message-IDs the References header lists, however the parser packed them. */
  function ReferenceIds(refs: Option<References>): seq<string> {
    match refs
    case None => []
    case Some(OneReference(id)) => [id]
    case Some(ReferenceList(ids)) => ids
  }

  /** The thread id as the code is written: `parsed.references ? parsed.references[0] : null`.
      A single reference is a string, so `[0]` takes its first character; an empty string is
      falsy, and `[0]` of an empty list is `undefined`. */
  function ThreadIdAsWritten(refs: Option<References>): Option<string> {
    match refs
    case None => None
    case Some(OneReference(id)) => if id == "" then None else Some(id[..1])
    case Some(ReferenceList(ids)) => if |ids| == 0 then None else Some(ids[0])
  }

  /** The thread id the sync means to store: the first Message-ID of the References header. */
  function ThreadId(refs: Option<References>): (t: Option<string>)
    ensures t.Some? <==> |ReferenceIds(refs)| > 0
    ensures t.Some? ==> t.value == ReferenceIds(refs)[0]
  {
    match refs
    case None => None
    case Some(OneReference(id)) => Some(id)
    case Some(ReferenceList(ids)) => if |ids| == 0 then None else Some(ids[0])
  }

  /** The thread id does not depend on how the parser packs a single reference, and it
      agrees with the code as written whenever the parser returns a list. */
  lemma ThreadIdIgnoresPacking(id: string, ids: seq<string>)
    ensures ThreadId(Some(OneReference(id))) == ThreadId(Some(ReferenceList([id]))) == Some(id)
    ensures ThreadIdAsWritten(Some(ReferenceList(ids))) == ThreadId(Some(ReferenceList(ids)))
  {
  }

  /** As written, a reply whose References header holds one Message-ID gets the first
      character of that id, "<", as its thread id, while the same id packed as a list
      would be stored whole. */
  lemma SingleReferenceThreadIdAsWritten(id: string)
    requires |id| > 1
    ensures ThreadIdAsWritten(Some(OneReference(id))) == Some(id[..1])
    ensures ThreadIdAsWritten(Some(OneReference(id))) != ThreadId(Some(OneReference(id)))
    ensures ThreadIdAsWritten(Some(ReferenceList([id]))) == Some(id)
    ensures ThreadIdAsWritten(Some(OneReference("<a@x>"))) == Some("<")
  {
    assert |id[..1]| == 1;
    assert "<a@x>"[..1] == "<";
  }

  /** The object handed to `new Email(...)` for a fetched message. */
  function InboxDraft(account: EmailAccount, m: ServerMessage, p: ParsedMail, now: Time): EmailDraft {
    EmailDraft(
      Some(account.id),
      p.messageId,
      ThreadId(p.references),
      Some("inbox"),
      ListOrEmpty(p.from), ListOrEmpty(p.to), ListOrEmpty(p.cc), ListOrEmpty(p.bcc),
      p.subject, p.text, p.html,
      if p.date.Some? then p.date else Some(now),
      m.flags,
      InboxAttachments(p.attachments))
  }

  /** The record the sync saves for a message that parsed, field by field. */
  function InboxRecord(account: EmailAccount, m: ServerMessage, now: Time): Email
    requires m.parsed.Some?
  {
    var p := m.parsed.value;
    Email(account.id, p.messageId,
          ThreadId(p.references),
          "inbox", ListOrEmpty(p.from), ListOrEmpty(p.to), ListOrEmpty(p.cc), ListOrEmpty(p.bcc),
          p.subject, p.text, p.html, if p.date.Some? then p.date else Some(now),
          m.flags, InboxAttachments(p.attachments), now, now)
  }

  /** Creating a message record from the inbox draft succeeds and gives `InboxRecord`. */
  lemma InboxRecordIsCreated(account: EmailAccount, m: ServerMessage, now: Time)
    requires m.parsed.Some?
    ensures NewEmail(InboxDraft(account, m, m.parsed.value, now), now) == Ok(InboxRecord(account, m, now))
  {
    var r := NewEmail(InboxDraft(account, m, m.parsed.value, now), now);
    assert DraftOf(r.value) == DraftOf(InboxRecord(account, m, now));
  }

  /** Every synced record is filed in "inbox" under the account, copies the parsed fields,
      turns a missing address list into an empty one, takes the first Message-ID of the
      References header as its thread id, falls back to `now` for a missing date, keeps the server flags and
      describes each attachment with an empty `url`. */
  lemma InboxRecordShape(account: EmailAccount, m: ServerMessage, now: Time)
    requires m.parsed.Some?
    ensures var r := InboxRecord(account, m, now); var p := m.parsed.value;
      && r.folder == "inbox" && r.accountId == account.id
      && r.messageId == p.messageId
      && r.threadId == ThreadId(p.references)
      && r.from == (if p.from.Some? then p.from.value else [])
      && r.to == (if p.to.Some? then p.to.value else [])
      && r.cc == (if p.cc.Some? then p.cc.value else [])
      && r.bcc == (if p.bcc.Some? then p.bcc.value else [])
      && r.subject == p.subject && r.text == p.text && r.html == p.html
      && r.date == Some(if p.date.Some? then p.date.value else now)
      && r.flags == m.flags
      && var atts := if p.attachments.Some? then p.attachments.value else [];
         |r.attachments| == |atts|
         && forall i :: 0 <= i < |atts| ==>
              r.attachments[i] == Attachment(atts[i].filename, atts[i].size, atts[i].contentType, Some(""))
  {
  }

  /** A message is fully handled: it parses and both of its saves succeed. */
  predicate Completes(m: ServerMessage) {
    m.parsed.Some? && m.fault == NoFault
  }

  /** The number of leading messages that are fully handled: the loop stops at the next one. */
  function OkPrefix(ms: seq<ServerMessage>): (k: nat)
    ensures k <= |ms|
    ensures forall i :: 0 <= i < k ==> Completes(ms[i])
    ensures k < |ms| ==> !Completes(ms[k])
  {
    if |ms| == 0 || !Completes(ms[0]) then 0 else 1 + OkPrefix(ms[1..])
  }

  /** Every message of `ms` parsed. */
  predicate AllParsed(ms: seq<ServerMessage>) {
    forall i :: 0 <= i < |ms| ==> ms[i].parsed.Some?
  }

  /** The records of messages that all parsed, one per message, in order. */
  function Records(account: EmailAccount, ms: seq<ServerMessage>, now: Time): (r: seq<Email>)
    requires AllParsed(ms)
    ensures |r| == |ms|
  {
    if |ms| == 0 then []
    else Records(account, ms[..|ms| - 1], now) + [InboxRecord(account, ms[|ms| - 1], now)]
  }

  lemma {:induction false} RecordsAt(account: EmailAccount, ms: seq<ServerMessage>, now: Time, i: nat)
    requires AllParsed(ms) && i < |ms|
    ensures Records(account, ms, now)[i] == InboxRecord(account, ms[i], now)
  {
    if i < |ms| - 1 {
      RecordsAt(account, ms[..|ms| - 1], now, i);
    }
  }

  lemma {:induction false} RecordsAppend(account: EmailAccount, a: seq<ServerMessage>, b: seq<ServerMessage>, now: Time)
    requires AllParsed(a) && AllParsed(b)
    ensures AllParsed(a + b)
    ensures Records(account, a + b, now) == Records(account, a, now) + Records(account, b, now)
  {
    assert forall i :: 0 <= i < |a + b| ==> (a + b)[i] == if i < |a| then a[i] else b[i - |a|];
    if |b| > 0 {
      var b' := b[..|b| - 1];
      RecordsAppend(account, a, b', now);
      assert (a + b)[..|a + b| - 1] == a + b';
    } else {
      assert a + b == a;
    }
  }

  /** The message the loop stops at, when it parsed and only the account save after its
      record failed: its record is saved all the same. */
  function Extra(ms: seq<ServerMessage>, k: nat): seq<ServerMessage> {
    if k < |ms| && ms[k].parsed.Some? && ms[k].fault == AccountSaveFault then [ms[k]] else []
  }

  /** The writes made for one fetched message: none when it does not parse or its record
      does not save, its record alone when the account save after it fails, and otherwise
      its record followed by the watermark set to its UID. */
  function StepWrites(m: ServerMessage, now: Time): seq<Write> {
    if m.parsed.None? || m.fault == EmailSaveFault then []
    else if m.fault == AccountSaveFault then [SaveEmail(m)]
    else [SaveEmail(m), SaveAccount(m.uid, now)]
  }

  /** The writes of the messages of `ms`, handled one after the other. */
  function StepsWrites(ms: seq<ServerMessage>, now: Time): seq<Write> {
    if |ms| == 0 then []
    else StepsWrites(ms[..|ms| - 1], now) + StepWrites(ms[|ms| - 1], now)
  }

  /** How many messages the loop reaches: the fully handled leading ones and the one that
      ends it, if any. */
  function Reached(ms: seq<ServerMessage>): (n: nat)
    ensures n <= |ms|
  {
    if OkPrefix(ms) < |ms| then OkPrefix(ms) + 1 else |ms|
  }

  /** The writes of the fetch loop over `ms`: those of every message it reaches. */
  function RunWrites(ms: seq<ServerMessage>, now: Time): seq<Write> {
    StepsWrites(ms[..Reached(ms)], now)
  }

  /** The messages whose records a sequence of writes saves, in order. */
  function Saved(ws: seq<Write>): seq<ServerMessage> {
    if |ws| == 0 then []
    else Saved(ws[..|ws| - 1]) + (if ws[|ws| - 1].SaveEmail? then [ws[|ws| - 1].source] else [])
  }

  /** The UID of the last watermark save among `ws`, if there is one. */
  function LastWatermark(ws: seq<Write>): Option<int> {
    if |ws| == 0 then None
    else if ws[|ws| - 1].SaveAccount? then Some(ws[|ws| - 1].uid)
    else LastWatermark(ws[..|ws| - 1])
  }

  lemma {:induction false} SavedAppend(a: seq<Write>, b: seq<Write>)
    ensures Saved(a + b) == Saved(a) + Saved(b)
  {
    if |b| > 0 {
      SavedAppend(a, b[..|b| - 1]);
      assert (a + b)[..|a + b| - 1] == a + b[..|b| - 1];
    } else {
      assert a + b == a;
    }
  }

  lemma {:induction false} LastWatermarkAppend(a: seq<Write>, b: seq<Write>)
    ensures LastWatermark(a + b) == if LastWatermark(b).Some? then LastWatermark(b) else LastWatermark(a)
  {
    if |b| > 0 {
      LastWatermarkAppend(a, b[..|b| - 1]);
      assert (a + b)[..|a + b| - 1] == a + b[..|b| - 1];
    } else {
      assert a + b == a;
    }
  }

  /** What one message's writes save and which watermark they set. */
  lemma StepFacts(m: ServerMessage, now: Time)
    ensures Saved(StepWrites(m, now)) == if m.parsed.Some? && m.fault != EmailSaveFault then [m] else []
    ensures LastWatermark(StepWrites(m, now)) == if Completes(m) then Some(m.uid) else None
  {
    var step := StepWrites(m, now);
    if step != [] {
      assert step[..1][..0] == [] && Saved(step[..1]) == [m];
      if Completes(m) {
        assert step[..|step| - 1] == step[..1];
      }
    }
  }

  /** Fully handled messages each save their record, in order. */
  lemma {:induction false} HandledSaved(ms: seq<ServerMessage>, now: Time)
    requires forall i :: 0 <= i < |ms| ==> Completes(ms[i])
    ensures Saved(StepsWrites(ms, now)) == ms
  {
    if |ms| > 0 {
      var init := ms[..|ms| - 1];
      HandledSaved(init, now);
      StepFacts(ms[|ms| - 1], now);
      SavedAppend(StepsWrites(init, now), StepWrites(ms[|ms| - 1], now));
      assert init + [ms[|ms| - 1]] == ms;
    }
  }

  /** After fully handled messages the watermark last saved is the last one's UID. */
  lemma HandledWatermark(ms: seq<ServerMessage>, now: Time)
    requires forall i :: 0 <= i < |ms| ==> Completes(ms[i])
    ensures LastWatermark(StepsWrites(ms, now)) == if |ms| == 0 then None else Some(ms[|ms| - 1].uid)
  {
    if |ms| > 0 {
      var init := ms[..|ms| - 1];
      StepFacts(ms[|ms| - 1], now);
      LastWatermarkAppend(StepsWrites(init, now), StepWrites(ms[|ms| - 1], now));
    }
  }

  /** The writes of fully handled messages: per message, in order, its record and then the
      watermark set to its UID. */
  lemma {:induction false} HandledOrder(ms: seq<ServerMessage>, now: Time)
    requires forall i :: 0 <= i < |ms| ==> Completes(ms[i])
    ensures var ws := StepsWrites(ms, now);
      && |ws| == 2 * |ms|
      && forall j :: 0 <= j < |ms| ==> ws[2 * j] == SaveEmail(ms[j]) && ws[2 * j + 1] == SaveAccount(ms[j].uid, now)
  {
    if |ms| > 0 {
      var init := ms[..|ms| - 1];
      HandledOrder(init, now);
      var prev := StepsWrites(init, now);
      var ws := StepsWrites(ms, now);
      assert ws == prev + [SaveEmail(ms[|ms| - 1]), SaveAccount(ms[|ms| - 1].uid, now)];
      forall j | 0 <= j < |ms|
        ensures ws[2 * j] == SaveEmail(ms[j]) && ws[2 * j + 1] == SaveAccount(ms[j].uid, now)
      {
        if j < |ms| - 1 {
          assert ws[2 * j] == prev[2 * j] && ws[2 * j + 1] == prev[2 * j + 1];
          assert ms[j] == init[j];
        }
      }
    }
  }

  /** The writes of the first i + 1 messages are those of the first i and then message i's. */
  lemma StepsWritesExtend(ms: seq<ServerMessage>, i: nat, now: Time)
    requires i < |ms|
    ensures StepsWrites(ms[..i + 1], now) == StepsWrites(ms[..i], now) + StepWrites(ms[i], now)
  {
    var prefix := ms[..i + 1];
    assert prefix[..|prefix| - 1] == ms[..i] && prefix[|prefix| - 1] == ms[i];
  }

  /** The loop reaches the fully handled messages and, when one fails, that message too. */
  lemma RunWritesSplit(ms: seq<ServerMessage>, now: Time)
    ensures var k := OkPrefix(ms);
      RunWrites(ms, now) == StepsWrites(ms[..k], now) + (if k < |ms| then StepWrites(ms[k], now) else [])
  {
    var k := OkPrefix(ms);
    if k < |ms| {
      var reached := ms[..k + 1];
      assert reached[..|reached| - 1] == ms[..k] && reached[|reached| - 1] == ms[k];
    } else {
      assert ms[..k] == ms;
    }
  }

  /** The writes of the message the loop stops at: its record when only its account save
      failed, and no watermark. */
  lemma StopFacts(ms: seq<ServerMessage>, now: Time)
    ensures var k := OkPrefix(ms); var last := if k < |ms| then StepWrites(ms[k], now) else [];
      Saved(last) == Extra(ms, k) && LastWatermark(last) == None
  {
    var k := OkPrefix(ms);
    if k < |ms| {
      StepFacts(ms[k], now);
    }
  }

  /** Records are saved for exactly the k fully handled leading messages, in fetch order,
      and for message k when only its account save failed; all of them parsed. */
  lemma RunSaved(ms: seq<ServerMessage>, now: Time)
    ensures Saved(RunWrites(ms, now)) == ms[..OkPrefix(ms)] + Extra(ms, OkPrefix(ms))
    ensures AllParsed(Saved(RunWrites(ms, now)))
  {
    RunSavedInOrder(ms, now);
    SavedMessagesParsed(ms);
  }

  lemma RunSavedInOrder(ms: seq<ServerMessage>, now: Time)
    ensures Saved(RunWrites(ms, now)) == ms[..OkPrefix(ms)] + Extra(ms, OkPrefix(ms))
  {
    var k := OkPrefix(ms);
    var prev := StepsWrites(ms[..k], now);
    var last: seq<Write> := if k < |ms| then StepWrites(ms[k], now) else [];
    RunWritesSplit(ms, now);
    assert forall i :: 0 <= i < |ms[..k]| ==> Completes(ms[..k][i]);
    HandledSaved(ms[..k], now);
    StopFacts(ms, now);
    SavedAppend(prev, last);
  }

  lemma SavedMessagesParsed(ms: seq<ServerMessage>)
    ensures AllParsed(ms[..OkPrefix(ms)] + Extra(ms, OkPrefix(ms)))
  {
    var k := OkPrefix(ms);
    var saved := ms[..k] + Extra(ms, k);
    forall i | 0 <= i < |saved| ensures saved[i].parsed.Some? {
      if i < k {
        assert saved[i] == ms[i];
      }
    }
  }

  /** The watermark is last saved as the UID of message k-1, and not at all when k is 0. */
  lemma RunWatermark(ms: seq<ServerMessage>, now: Time)
    ensures LastWatermark(RunWrites(ms, now)) == if OkPrefix(ms) == 0 then None else Some(ms[OkPrefix(ms) - 1].uid)
  {
    var k := OkPrefix(ms);
    var prev := StepsWrites(ms[..k], now);
    var last: seq<Write> := if k < |ms| then StepWrites(ms[k], now) else [];
    RunWritesSplit(ms, now);
    HandledWatermark(ms[..k], now);
    StopFacts(ms, now);
    LastWatermarkAppend(prev, last);
    if k > 0 {
      assert ms[..k][k - 1] == ms[k - 1];
    }
  }

  /** What a run over the fetched messages `ms` leaves behind. With k the number of
      fully handled leading messages: records are saved for exactly those k messages, in
      fetch order, and for message k when only its account save failed; the watermark is
      last saved as message k-1's UID, and not at all when k is 0 (the prior value stays).
      When nothing fails (k = |ms|) that is every message and the last UID. */
  lemma RunWritesSummary(ms: seq<ServerMessage>, now: Time)
    ensures var k := OkPrefix(ms); var ws := RunWrites(ms, now);
      && Saved(ws) == ms[..k] + Extra(ms, k)
      && AllParsed(Saved(ws))
      && LastWatermark(ws) == (if k == 0 then None else Some(ms[k - 1].uid))
  {
    RunSaved(ms, now);
    RunWatermark(ms, now);
  }

  /** The order of the writes: for each of the k fully handled messages, in fetch order, its
      record is saved and right after it the watermark with its UID; after them comes at most
      the record of message k, and nothing for any later message. */
  lemma RunWritesInterleave(ms: seq<ServerMessage>, now: Time)
    ensures var k := OkPrefix(ms); var ws := RunWrites(ms, now);
      && |ws| == 2 * k + |Extra(ms, k)|
      && forall j :: 0 <= j < k ==> ws[2 * j] == SaveEmail(ms[j]) && ws[2 * j + 1] == SaveAccount(ms[j].uid, now)
  {
    var k := OkPrefix(ms);
    RunWritesSplit(ms, now);
    HandledOrder(ms[..k], now);
    var prev := StepsWrites(ms[..k], now);
    var last: seq<Write> := if k < |ms| then StepWrites(ms[k], now) else [];
    assert |last| == |Extra(ms, k)|;
    forall j | 0 <= j < k
      ensures (prev + last)[2 * j] == SaveEmail(ms[j]) && (prev + last)[2 * j + 1] == SaveAccount(ms[j].uid, now)
    {
      assert ms[..k][j] == ms[j];
    }
  }

  /** Every record a run saves is filed in "inbox" under the synced account. */
  lemma RunSavesInboxRecords(account: EmailAccount, ms: seq<ServerMessage>, now: Time)
    ensures AllParsed(Saved(RunWrites(ms, now)))
    ensures forall e :: e in Records(account, Saved(RunWrites(ms, now)), now) ==> e.folder == "inbox" && e.accountId == account.id
  {
    RunWritesSummary(ms, now);
    var saved := Saved(RunWrites(ms, now));
    forall e | e in Records(account, saved, now) ensures e.folder == "inbox" && e.accountId == account.id {
      var i :| 0 <= i < |saved| && Records(account, saved, now)[i] == e;
      RecordsAt(account, saved, now, i);
      InboxRecordShape(account, saved[i], now);
    }
  }

  /** When every fetched UID is at or above the fetch start, a run that saves the watermark
      at all moves it strictly past its prior value; a run that fetched nothing writes nothing. */
  lemma WatermarkAdvances(account: EmailAccount, ms: seq<ServerMessage>, now: Time)
    requires forall i :: 0 <= i < |ms| ==> ms[i].uid >= FetchRange(account).from
    ensures LastWatermark(RunWrites(ms, now)).Some? ==> LastWatermark(RunWrites(ms, now)).value > Watermark(account)
    ensures ms == [] ==> RunWrites(ms, now) == []
  {
    RunWritesSummary(ms, now);
  }

  /** The whole sync's store writes: none when connecting or locking throws (they happen
      outside the `try`), otherwise the fetch loop's over the fetched messages. */
  function SyncWrites(account: EmailAccount, env: ImapEnv, now: Time): seq<Write> {
    if env.connectError.Some? || env.lockError.Some? then []
    else RunWrites(FetchSeqRange(env.inbox, FetchRange(account), env.outOfRange), now)
  }

  /** The client operations of a sync. Connect and lock precede the `try`; once the lock is
      held, the `finally` releases it and logs out whatever the loop did. */
  function SyncCalls(account: EmailAccount, env: ImapEnv): seq<ImapCall> {
    if env.connectError.Some? then [Connect]
    else if env.lockError.Some? then [Connect, GetMailboxLock]
    else [Connect, GetMailboxLock, Fetch(FetchRange(account)), ReleaseLock, Logout]
  }

  /** How `syncIMAP` settles: it rejects with the error of connect, lock or logout, and
      otherwise resolves; parse and save errors are caught and never surface. */
  function SyncResult(env: ImapEnv): Result<(), string> {
    if env.connectError.Some? then Err(env.connectError.value)
    else if env.lockError.Some? then Err(env.lockError.value)
    else if env.logoutError.Some? then Err(env.logoutError.value)
    else Ok(())
  }

  /** Once the lock is held, the sync fetches exactly the range `from:*` and ends by
      releasing the lock and logging out, and how it settles does not depend on the
      messages: a failing message changes the writes, never the outcome. */
  lemma LockReleasedOnEveryPath(account: EmailAccount, env: ImapEnv, other: seq<ServerMessage>)
    requires env.connectError.None? && env.lockError.None?
    ensures var calls := SyncCalls(account, env);
      && calls[2] == Fetch(OpenFrom(Watermark(account) + 1))
      && calls[|calls| - 2..] == [ReleaseLock, Logout]
    ensures SyncResult(env.(inbox := other)) == SyncResult(env)
  {
  }

  /** Appending the writes of one message: its record is added, and when the message was
      fully handled its UID becomes the last watermark save. */
  lemma AppendStep(accounts: seq<EmailAccount>, id: ObjectId, ws: seq<Write>, m: ServerMessage, now: Time)
    ensures var step := StepWrites(m, now);
      && Saved(ws + step) == Saved(ws) + Saved(step)
      && Persist(accounts, id, LastWatermark(ws + step), now)
         == if Completes(m) then SetWatermark(Persist(accounts, id, LastWatermark(ws), now), id, m.uid, now)
            else Persist(accounts, id, LastWatermark(ws), now)
  {
    var step := StepWrites(m, now);
    SavedAppend(ws, step);
    LastWatermarkAppend(ws, step);
    StepFacts(m, now);
    if Completes(m) && LastWatermark(ws).Some? {
      SetWatermarkTwice(accounts, id, LastWatermark(ws).value, m.uid, now);
    }
  }

  /** The message collection after one more message's writes. */
  lemma EmailsAfterStep(account: EmailAccount, start: seq<Email>, before: seq<Email>, after: seq<Email>,
                        ws: seq<Write>, step: seq<Write>, now: Time)
    requires AllParsed(Saved(ws)) && AllParsed(Saved(step))
    requires before == start + Records(account, Saved(ws), now)
    requires after == before + Records(account, Saved(step), now)
    ensures AllParsed(Saved(ws + step))
    ensures after == start + Records(account, Saved(ws + step), now)
  {
    SavedAppend(ws, step);
    RecordsAppend(account, Saved(ws), Saved(step), now);
    AppendAssociates(start, Records(account, Saved(ws), now), Records(account, Saved(step), now));
  }

  lemma AppendAssociates(x: seq<Email>, y: seq<Email>, z: seq<Email>)
    ensures (x + y) + z == x + (y + z)
  {
  }

  /** Handling message i, which the loop reaches, extends the writes by that message's;
      when it is not fully handled those are all the writes of the run. */
  lemma FetchStep(fetched: seq<ServerMessage>, i: nat, now: Time)
    requires i <= OkPrefix(fetched) && i < |fetched|
    ensures StepsWrites(fetched[..i + 1], now) == StepsWrites(fetched[..i], now) + StepWrites(fetched[i], now)
    ensures Completes(fetched[i]) ==> i + 1 <= OkPrefix(fetched)
    ensures !Completes(fetched[i]) ==> RunWrites(fetched, now) == StepsWrites(fetched[..i + 1], now)
  {
    StepsWritesExtend(fetched, i, now);
  }

  /** The body of the fetch loop for one message: parse, save its record, then set and save
      the watermark. `handled` is false when one of these throws. */
  method SyncMessage(db: MailDb, account: EmailAccount, m: ServerMessage, now: Time)
    returns (handled: bool, step: seq<Write>)
    modifies db
    ensures handled == Completes(m)
    ensures step == StepWrites(m, now)
    ensures AllParsed(Saved(step))
    ensures db.emails == old(db.emails) + Records(account, Saved(step), now)
    ensures db.accounts == if handled then SetWatermark(old(db.accounts), account.id, m.uid, now) else old(db.accounts)
  {
    StepFacts(m, now);
    if m.parsed.None? {
      return false, [];
    }
    var email := NewEmail(InboxDraft(account, m, m.parsed.value, now), now).value;
    InboxRecordIsCreated(account, m, now);
    if m.fault == EmailSaveFault {
      return false, [];
    }
    db.AppendEmail(email);
    assert Records(account, [m], now) == [email];
    if m.fault == AccountSaveFault {
      return false, [SaveEmail(m)];
    }
    db.SaveWatermark(account.id, m.uid, now);
    return true, [SaveEmail(m), SaveAccount(m.uid, now)];
  }

  /** The fetch loop over the fetched messages, in order; it ends after the last message or
      at the first one whose handling throws. */
  method FetchLoop(db: MailDb, account: EmailAccount, fetched: seq<ServerMessage>, now: Time)
    returns (writes: seq<Write>)
    modifies db
    ensures writes == RunWrites(fetched, now)
    ensures AllParsed(Saved(writes))
    ensures db.emails == old(db.emails) + Records(account, Saved(writes), now)
    ensures db.accounts == Persist(old(db.accounts), account.id, LastWatermark(writes), now)
  {
    writes := [];
    var i := 0;
    while i < |fetched|
      invariant 0 <= i <= OkPrefix(fetched)
      invariant writes == StepsWrites(fetched[..i], now)
      invariant AllParsed(Saved(writes))
      invariant db.emails == old(db.emails) + Records(account, Saved(writes), now)
      invariant db.accounts == Persist(old(db.accounts), account.id, LastWatermark(writes), now)
    {
      ghost var before := db.emails;
      var handled, step := SyncMessage(db, account, fetched[i], now);
      AppendStep(old(db.accounts), account.id, writes, fetched[i], now);
      EmailsAfterStep(account, old(db.emails), before, db.emails, writes, step, now);
      FetchStep(fetched, i, now);
      writes := writes + step;
      if !handled {
        // the error is caught and the loop ends at this message
        return;
      }
      i := i + 1;
    }
  }

  /** The sync of one account. */
  method SyncImap(db: MailDb, account: EmailAccount, env: ImapEnv, now: Time)
    returns (result: Result<(), string>, calls: seq<ImapCall>, writes: seq<Write>)
    modifies db
    ensures result == SyncResult(env)
    ensures calls == SyncCalls(account, env)
    ensures writes == SyncWrites(account, env, now)
    ensures AllParsed(Saved(writes))
    ensures db.emails == old(db.emails) + Records(account, Saved(writes), now)
    ensures db.accounts == Persist(old(db.accounts), account.id, LastWatermark(writes), now)
  {
    writes := [];
    calls := [Connect];
    if env.connectError.Some? {
      return Err(env.connectError.value), calls, writes;
    }
    calls := calls + [GetMailboxLock];
    if env.lockError.Some? {
      return Err(env.lockError.value), calls, writes;
    }
    var range := FetchRange(account);
    calls := calls + [Fetch(range)];
    writes := FetchLoop(db, account, FetchSeqRange(env.inbox, range, env.outOfRange), now);
    calls := calls + [ReleaseLock, Logout];
    result := if env.logoutError.Some? then Err(env.logoutError.value) else Ok(());
  }

  // ---------------------------------------------------------------------------
  // What the sequence-number range means for the mailbox
  // ---------------------------------------------------------------------------

  /** A mailbox that never lost a message: each UID equals its sequence number. */
  predicate Dense(inbox: seq<ServerMessage>) {
    forall i :: 0 <= i < |inbox| ==> inbox[i].uid == i + 1
  }

  /** In a dense mailbox with new mail above the watermark, the fetch returns exactly the
      messages whose UID is above the watermark, in UID order, whatever the server's
      answer to an out-of-range start (the start is in range here). */
  lemma DenseInboxFetchesNewMail(inbox: seq<ServerMessage>, account: EmailAccount, answer: RangeAnswer)
    requires Dense(inbox)
    requires 0 <= Watermark(account) < |inbox|
    ensures var fetched := FetchSeqRange(inbox, FetchRange(account), answer);
      && (forall m :: m in fetched <==> m in inbox && m.uid > Watermark(account))
      && forall i :: 0 <= i < |fetched| ==> fetched[i].uid == Watermark(account) + 1 + i
  {
    var w := Watermark(account);
    var fetched := FetchSeqRange(inbox, FetchRange(account), answer);
    assert fetched == inbox[w..];
    forall m | m in inbox && m.uid > w ensures m in fetched {
      var i :| 0 <= i < |inbox| && inbox[i] == m;
      assert fetched[i - w] == m;
    }
  }

  /** With no mail above the watermark (the start of the range is past the last sequence
      number), a server that clamps still yields the last message of a non-empty INBOX, so
      a run in which that message is handled fully stores it once more and re-saves the
      watermark with its UID. A server that answers BAD makes the run write nothing. */
  lemma NoNewMailResavesLast(inbox: seq<ServerMessage>, account: EmailAccount, answer: RangeAnswer, now: Time)
    requires |inbox| > 0 && Watermark(account) >= |inbox|
    ensures var last := inbox[|inbox| - 1];
      var ws := RunWrites(FetchSeqRange(inbox, FetchRange(account), answer), now);
      && (answer == ClampToLast && Completes(last) ==> Saved(ws) == [last] && LastWatermark(ws) == Some(last.uid))
      && (answer == RejectBad ==> ws == [])
  {
    var last := inbox[|inbox| - 1];
    var fetched := FetchSeqRange(inbox, FetchRange(account), answer);
    if answer == ClampToLast {
      assert fetched == [last];
      RunWritesSummary(fetched, now);
      assert fetched[..1] == fetched;
    } else {
      assert fetched == [];
      WatermarkAdvances(account, fetched, now);
    }
  }

  /** When a run over a dense mailbox stops at message k of the fetch (k > 0), the saved
      watermark is the UID of message k-1, and the next run's fetch starts with message k:
      the failed message is retried and none before it is fetched again. */
  lemma DenseResumesAtFailure(inbox: seq<ServerMessage>, account: EmailAccount, answer: RangeAnswer, now: Time)
    requires Dense(inbox)
    requires 0 <= Watermark(account) < |inbox|
    requires var fetched := FetchSeqRange(inbox, FetchRange(account), answer);
      0 < OkPrefix(fetched) < |fetched|
    ensures var fetched := FetchSeqRange(inbox, FetchRange(account), answer);
      var k := OkPrefix(fetched);
      var ws := RunWrites(fetched, now);
      && LastWatermark(ws) == Some(fetched[k - 1].uid)
      && var next := account.(lastSyncedUID := LastWatermark(ws));
         FetchSeqRange(inbox, FetchRange(next), answer)[0] == fetched[k]
  {
    var fetched := FetchSeqRange(inbox, FetchRange(account), answer);
    var k := OkPrefix(fetched);
    var w := Watermark(account);
    RunWritesSummary(fetched, now);
    assert fetched == inbox[w..];
    assert fetched[k - 1] == inbox[w + k - 1];
    assert fetched[k] == inbox[w + k];
  }

  /** In a mailbox whose UIDs run ahead of the sequence numbers, a message above the
      watermark can be passed over for good. With messages UID 5, 6, 7 at sequence numbers
      1, 2, 3 and watermark 5, the range `6:*` starts past the last sequence number. A
      server that clamps returns only UID 7, and the saved watermark 7 puts UID 6 below
      every later range; a server that answers BAD returns nothing, so the watermark stays
      5 and neither message is ever stored. */
  lemma SparseInboxSkipsMail(p: ParsedMail, account: EmailAccount, answer: RangeAnswer, now: Time)
    requires account.lastSyncedUID == Some(5)
    ensures var inbox := [ServerMessage(5, [], Some(p), NoFault), ServerMessage(6, [], Some(p), NoFault),
                          ServerMessage(7, [], Some(p), NoFault)];
      var fetched := FetchSeqRange(inbox, FetchRange(account), answer);
      && inbox[1] !in fetched && inbox[1].uid > Watermark(account)
      && FetchUidRange(inbox, FetchRange(account)) == [inbox[1], inbox[2]]
      && (answer == ClampToLast ==> fetched == [inbox[2]] && LastWatermark(RunWrites(fetched, now)) == Some(7))
      && (answer == RejectBad ==> fetched == [] && RunWrites(fetched, now) == [])
  {
    var inbox := [ServerMessage(5, [], Some(p), NoFault), ServerMessage(6, [], Some(p), NoFault),
                  ServerMessage(7, [], Some(p), NoFault)];
    var fetched := FetchSeqRange(inbox, FetchRange(account), answer);
    UidsFromSplit(inbox, 6, 1);
    if answer == ClampToLast {
      assert fetched == [inbox[2]];
      RunWritesSummary(fetched, now);
    } else {
      assert fetched == [];
      WatermarkAdvances(account, fetched, now);
    }
  }

  // ---------------------------------------------------------------------------
  // The UID range the watermark calls for
  // ---------------------------------------------------------------------------

  /** The messages whose UID is at least `from`, in mailbox order. */
  function UidsFrom(inbox: seq<ServerMessage>, from: int): seq<ServerMessage> {
    if |inbox| == 0 then []
    else (if inbox[0].uid >= from then [inbox[0]] else []) + UidsFrom(inbox[1..], from)
  }

  /** What a UID FETCH of `from:*` yields: the messages with a UID of at least `from`;
      when there are none, `*` (the largest UID in use) is the lower end of the range and
      names the last message, as section 6.4.8 of RFC 3501 points out. */
  function FetchUidRange(inbox: seq<ServerMessage>, r: SeqRange): seq<ServerMessage> {
    var hits := UidsFrom(inbox, r.from);
    if |inbox| == 0 || |hits| > 0 then hits else [inbox[|inbox| - 1]]
  }

  lemma {:induction false} UidsFromMembers(inbox: seq<ServerMessage>, from: int)
    ensures forall m :: m in UidsFrom(inbox, from) <==> m in inbox && m.uid >= from
  {
    if |inbox| > 0 {
      UidsFromMembers(inbox[1..], from);
      assert inbox == [inbox[0]] + inbox[1..];
    }
  }

  /** When the messages before position k are below `from` and the rest are not, the UID
      range is the suffix from k. */
  lemma {:induction false} UidsFromSplit(inbox: seq<ServerMessage>, from: int, k: nat)
    requires k <= |inbox|
    requires forall i :: 0 <= i < k ==> inbox[i].uid < from
    requires forall i :: k <= i < |inbox| ==> inbox[i].uid >= from
    ensures UidsFrom(inbox, from) == inbox[k..]
  {
    if |inbox| > 0 {
      if k > 0 {
        UidsFromSplit(inbox[1..], from, k - 1);
        assert inbox[1..][k - 1..] == inbox[k..];
      } else {
        UidsFromSplit(inbox[1..], from, 0);
        assert [inbox[0]] + inbox[1..] == inbox;
      }
    }
  }

  /** A UID range from one past the watermark passes over no message above the watermark,
      yields only messages of the mailbox, and, when there is new mail, nothing else. */
  lemma UidFetchMissesNothing(inbox: seq<ServerMessage>, account: EmailAccount)
    ensures var fetched := FetchUidRange(inbox, FetchRange(account));
      && (forall m :: m in inbox && m.uid > Watermark(account) ==> m in fetched)
      && (forall m :: m in fetched ==> m in inbox)
      && ((exists m :: m in inbox && m.uid > Watermark(account)) ==>
            forall m :: m in fetched ==> m.uid > Watermark(account))
  {
    UidsFromMembers(inbox, Watermark(account) + 1);
  }

  /** On a dense mailbox with new mail the code's sequence range and the UID range yield the
      same messages, whichever way the server treats an out-of-range start. */
  lemma UidFetchAgreesWhenDense(inbox: seq<ServerMessage>, account: EmailAccount, answer: RangeAnswer)
    requires Dense(inbox)
    requires 0 <= Watermark(account) < |inbox|
    ensures FetchUidRange(inbox, FetchRange(account)) == FetchSeqRange(inbox, FetchRange(account), answer)
  {
    var w := Watermark(account);
    UidsFromSplit(inbox, w + 1, w);
  }
}
