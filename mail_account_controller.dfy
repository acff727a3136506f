/**
 * controller/mailAccountController.js: creating an account from the request
 * body, and listing accounts (optionally one user's) newest first.
 */
module MailAccountController {
  import opened Wrappers
  import opened MailModel
  import opened MailStore

  /** The body of a create request (`smtp` and `imap` as `smtpServer`, `imapServer`). `lastSyncedUID` and `lastSync` stand for every field
      the handler does not pick: a client may send them, and they are ignored. */
  datatype CreateBody = CreateBody(
    userId: Option<string>,
    email: Option<string>,
    provider: Option<string>,
    smtpServer: Option<ServerSettings>,
    imapServer: Option<ServerSettings>,
    lastSyncedUID: Option<int>,
    lastSync: Option<Time>)

  /** The fields handed to `EmailAccount.create`: exactly the five whitelisted ones. */
  function Whitelisted(body: CreateBody): AccountFields {
    AccountFields(body.userId, body.email, body.provider, body.smtpServer, body.imapServer)
  }

  /** A JSON answer with its HTTP status. */
  datatype Reply<T> = Reply(status: int, success: bool, data: Option<T>, message: Option<string>)

  /** A created account takes the whitelisted fields only: whatever watermark or sync time
      the body carries, it starts with watermark 0 and no sync time. */
  lemma CreateIgnoresOtherFields(body: CreateBody, uid: Option<int>, at: Option<Time>, id: ObjectId, now: Time)
    ensures NewEmailAccount(Whitelisted(body), id, now)
            == NewEmailAccount(Whitelisted(body.(lastSyncedUID := uid, lastSync := at)), id, now)
    ensures NewEmailAccount(Whitelisted(body), id, now).Ok? ==>
              NewEmailAccount(Whitelisted(body), id, now).value.lastSyncedUID == Some(0)
              && NewEmailAccount(Whitelisted(body), id, now).value.lastSync == None
  {
  }

  /** The create handler. `id` is the identifier the new record receives and `insertError`
      whether the insert itself throws. A schema failure or a failed insert answers 500 with
      the error message and stores nothing; otherwise the record is appended and returned
      with 201. */
  method CreateEmailAccount(db: MailDb, body: CreateBody, id: ObjectId, now: Time, insertError: Option<string>)
    returns (reply: Reply<EmailAccount>)
    modifies db
    ensures db.emails == old(db.emails)
    ensures var created := NewEmailAccount(Whitelisted(body), id, now);
      if created.Ok? && insertError.None? then
        reply == Reply(201, true, Some(created.value), None) && db.accounts == old(db.accounts) + [created.value]
      else
        reply == Reply(500, false, None, Some(if created.Err? then created.error else insertError.value))
        && db.accounts == old(db.accounts)
  {
    var created := NewEmailAccount(Whitelisted(body), id, now);
    if created.Err? {
      return Reply(500, false, None, Some(created.error));
    }
    if insertError.Some? {
      return Reply(500, false, None, Some(insertError.value));
    }
    db.AppendAccount(created.value);
    reply := Reply(201, true, Some(created.value), None);
  }

  /** The accounts of one user, in collection order: each of that user's records as
      often as the collection holds it, and no other record. */
  function OwnedBy(accounts: seq<EmailAccount>, user: string): (r: seq<EmailAccount>)
    ensures forall a :: multiset(r)[a] == (if a.userId == user then multiset(accounts)[a] else 0)
    ensures forall a :: a in r <==> a in accounts && a.userId == user
    ensures multiset(r) <= multiset(accounts)
  {
    if |accounts| == 0 then []
    else
      var rest := OwnedBy(accounts[1..], user);
      assert accounts == [accounts[0]] + accounts[1..];
      assert multiset(accounts) == multiset{accounts[0]} + multiset(accounts[1..]);
      if accounts[0].userId == user then [accounts[0]] + rest else rest
  }

  /** Newest `createdAt` first. */
  predicate NewestFirst(xs: seq<EmailAccount>) {
    forall i, j :: 0 <= i < j < |xs| ==> xs[i].createdAt >= xs[j].createdAt
  }

  /** Puts `x` into a newest-first list after every record at least as new. */
  function Insert(sorted: seq<EmailAccount>, x: EmailAccount): (r: seq<EmailAccount>)
    requires NewestFirst(sorted)
    ensures |r| == |sorted| + 1
    ensures r[0] == x || (|sorted| > 0 && r[0] == sorted[0])
    ensures multiset(r) == multiset(sorted) + multiset{x}
    ensures NewestFirst(r)
  {
    if |sorted| == 0 then [x]
    else if sorted[0].createdAt < x.createdAt then [x] + sorted
    else
      NewestFirstTail(sorted);
      var rest := Insert(sorted[1..], x);
      assert sorted == [sorted[0]] + sorted[1..];
      assert multiset([sorted[0]] + rest) == multiset{sorted[0]} + multiset(rest);
      NewestFirstCons(sorted[0], rest);
      [sorted[0]] + rest
  }

  lemma NewestFirstTail(xs: seq<EmailAccount>)
    requires NewestFirst(xs) && |xs| > 0
    ensures NewestFirst(xs[1..])
  {
    forall i, j | 0 <= i < j < |xs| - 1 ensures xs[1..][i].createdAt >= xs[1..][j].createdAt {
      assert xs[1..][i] == xs[i + 1] && xs[1..][j] == xs[j + 1];
    }
  }

  lemma NewestFirstCons(h: EmailAccount, t: seq<EmailAccount>)
    requires NewestFirst(t) && |t| > 0 && h.createdAt >= t[0].createdAt
    ensures NewestFirst([h] + t)
  {
    var xs := [h] + t;
    forall i, j | 0 <= i < j < |xs| ensures xs[i].createdAt >= xs[j].createdAt {
      if i == 0 {
        assert xs[j] == t[j - 1];
        if j > 1 { assert t[0].createdAt >= t[j - 1].createdAt; }
      } else {
        assert xs[i] == t[i - 1] && xs[j] == t[j - 1];
      }
    }
  }

  /** `.sort({createdAt: -1})`: the same records, newest first. */
  function SortNewestFirst(xs: seq<EmailAccount>): (r: seq<EmailAccount>)
    ensures multiset(r) == multiset(xs)
    ensures NewestFirst(r)
  {
    if |xs| == 0 then []
    else
      assert xs == xs[..|xs| - 1] + [xs[|xs| - 1]];
      Insert(SortNewestFirst(xs[..|xs| - 1]), xs[|xs| - 1])
  }

  /** The list query: `userId` filters when it is a non-empty string, and the result is
      sorted newest first. */
  function ListQuery(accounts: seq<EmailAccount>, userId: Option<string>): seq<EmailAccount> {
    SortNewestFirst(if Present(userId) then OwnedBy(accounts, userId.value) else accounts)
  }

  /** The list handler: the query result with 200, or 500 with the message when the query
      throws. A 200 lists the caller's accounts (every account without a user id), newest
      first, each as often as the collection holds it. */
  function ListEmailAccounts(accounts: seq<EmailAccount>, userId: Option<string>, queryError: Option<string>)
    : (r: Reply<seq<EmailAccount>>)
    ensures queryError.Some? ==> r == Reply(500, false, None, Some(queryError.value))
    ensures queryError.None? ==> r == Reply(200, true, Some(ListQuery(accounts, userId)), None)
    ensures queryError.None? ==>
      && NewestFirst(r.data.value)
      && (Present(userId) ==>
            forall a :: multiset(r.data.value)[a] == (if a.userId == userId.value then multiset(accounts)[a] else 0))
      && (!Present(userId) ==> multiset(r.data.value) == multiset(accounts))
  {
    if queryError.Some? then Reply(500, false, None, Some(queryError.value))
    else
      ListIsFilteredAndSorted(accounts, userId);
      Reply(200, true, Some(ListQuery(accounts, userId)), None)
  }

  /** With a user id the list holds exactly that user's accounts, without one every
      account; each appears as often as in the collection, and newest come first. */
  lemma ListIsFilteredAndSorted(accounts: seq<EmailAccount>, userId: Option<string>)
    ensures var r := ListQuery(accounts, userId);
      && NewestFirst(r)
      && (Present(userId) ==> forall a :: a in r <==> a in accounts && a.userId == userId.value)
      && (Present(userId) ==>
            forall a :: multiset(r)[a] == (if a.userId == userId.value then multiset(accounts)[a] else 0))
      && (!Present(userId) ==> multiset(r) == multiset(accounts))
      && multiset(r) <= multiset(accounts)
  {
    var filtered := if Present(userId) then OwnedBy(accounts, userId.value) else accounts;
    var r := SortNewestFirst(filtered);
    forall a
      ensures a in r <==> a in filtered
    {
      assert a in r <==> a in multiset(r);
      assert a in filtered <==> a in multiset(filtered);
    }
  }
}
