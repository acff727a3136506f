/**
 * config/cronJob.js: the scheduled callback. Each tick reads every account and
 * adds one `sync` job per account to the sync queue, in the order the query
 * returned the accounts.
 */
module CronJob {
  import opened Wrappers
  import opened MailModel
  import opened MailStore
  import opened Queues

  /** The job a tick adds for one account: named "sync", carrying only the account id. */
  function SyncJob(account: EmailAccount): Job<SyncPayload> {
    Job("sync", SyncPayload(Some(account.id)))
  }

  /** The jobs one tick adds for `accounts`, in order. */
  function SyncJobs(accounts: seq<EmailAccount>): (jobs: seq<Job<SyncPayload>>)
  {
    if |accounts| == 0 then [] else SyncJobs(accounts[..|accounts| - 1]) + [SyncJob(accounts[|accounts| - 1])]
  }

  /** One tick adds a job per account, position by position: job i is account i's. */
  lemma {:induction false} SyncJobsAt(accounts: seq<EmailAccount>)
    ensures |SyncJobs(accounts)| == |accounts|
    ensures forall i :: 0 <= i < |accounts| ==>
              SyncJobs(accounts)[i].name == "sync" && SyncJobs(accounts)[i].data == SyncPayload(Some(accounts[i].id))
  {
    if |accounts| > 0 {
      SyncJobsAt(accounts[..|accounts| - 1]);
    }
  }

  /** One tick of the schedule. `findError` is the message of a rejected `find()`: the
      callback's promise then rejects before the loop and the tick adds nothing. */
  method Tick(db: MailDb, queue: JobQueue<SyncPayload>, findError: Option<string>)
    modifies queue
    ensures findError.Some? ==> queue.jobs == old(queue.jobs)
    ensures findError.None? ==> queue.jobs == old(queue.jobs) + SyncJobs(db.accounts)
  {
    if findError.Some? {
      return;
    }
    var accounts := db.accounts;
    var i := 0;
    while i < |accounts|
      invariant 0 <= i <= |accounts|
      invariant queue.jobs == old(queue.jobs) + SyncJobs(accounts[..i])
    {
      queue.Add("sync", SyncPayload(Some(accounts[i].id)));
      assert accounts[..i + 1][..i] == accounts[..i];
      i := i + 1;
    }
    assert accounts[..i] == accounts;
  }

  /** `js` repeated `n` times. */
  function Repeat<T>(js: seq<T>, n: nat): seq<T> {
    if n == 0 then [] else Repeat(js, n - 1) + js
  }

  /** `n` ticks over an unchanged account collection, each of whose queries succeeds.
      Nothing checks for a job already queued or running, so every tick adds its jobs again. */
  method Ticks(db: MailDb, queue: JobQueue<SyncPayload>, n: nat)
    modifies queue
    ensures queue.jobs == old(queue.jobs) + Repeat(SyncJobs(db.accounts), n)
  {
    var t := 0;
    while t < n
      invariant 0 <= t <= n
      invariant queue.jobs == old(queue.jobs) + Repeat(SyncJobs(db.accounts), t)
    {
      Tick(db, queue, None);
      t := t + 1;
    }
  }

  /** The number of jobs for account `id` among `jobs`. */
  function JobsFor(jobs: seq<Job<SyncPayload>>, id: ObjectId): nat {
    if |jobs| == 0 then 0
    else JobsFor(jobs[..|jobs| - 1], id) + (if jobs[|jobs| - 1].data.accountId == Some(id) then 1 else 0)
  }

  /** The number of account records with id `id`. */
  function AccountsWith(accounts: seq<EmailAccount>, id: ObjectId): nat {
    if |accounts| == 0 then 0
    else AccountsWith(accounts[..|accounts| - 1], id) + (if accounts[|accounts| - 1].id == id then 1 else 0)
  }

  lemma {:induction false} JobsForAppend(a: seq<Job<SyncPayload>>, b: seq<Job<SyncPayload>>, id: ObjectId)
    ensures JobsFor(a + b, id) == JobsFor(a, id) + JobsFor(b, id)
  {
    if |b| > 0 {
      JobsForAppend(a, b[..|b| - 1], id);
      assert (a + b)[..|a + b| - 1] == a + b[..|b| - 1];
    } else {
      assert a + b == a;
    }
  }

  /** A tick adds exactly one job for each account record with that id, and none for an
      id no account has; with no accounts it adds nothing. */
  lemma {:induction false} OneJobPerAccount(accounts: seq<EmailAccount>, id: ObjectId)
    ensures JobsFor(SyncJobs(accounts), id) == AccountsWith(accounts, id)
    ensures accounts == [] ==> SyncJobs(accounts) == []
  {
    if |accounts| > 0 {
      var init := accounts[..|accounts| - 1];
      OneJobPerAccount(init, id);
      JobsForAppend(SyncJobs(init), [SyncJob(accounts[|accounts| - 1])], id);
      assert [SyncJob(accounts[|accounts| - 1])][..0] == [];
    }
  }

  /** After `n` ticks over the same accounts, each account has `n` jobs queued for it. */
  lemma {:induction false} TicksQueuePerAccount(accounts: seq<EmailAccount>, id: ObjectId, n: nat)
    ensures JobsFor(Repeat(SyncJobs(accounts), n), id) == n * AccountsWith(accounts, id)
  {
    if n > 0 {
      var jobs, count := SyncJobs(accounts), AccountsWith(accounts, id);
      TicksQueuePerAccount(accounts, id, n - 1);
      JobsForAppend(Repeat(jobs, n - 1), jobs, id);
      OneJobPerAccount(accounts, id);
      assert Repeat(jobs, n) == Repeat(jobs, n - 1) + jobs;
      assert n * count == (n - 1) * count + count;
    }
  }
}
