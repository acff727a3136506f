/**
 * workers/syncMail.worker.js: the handler of a `sync` job. It looks the account
 * up, rejects when the lookup rejects or finds none, and otherwise runs one sync
 * of that account and resolves to `{success: true}`. `lookupError` is the
 * message of a rejected `findById` (a database failure), if it rejects.
 */
module SyncWorker {
  import opened Wrappers
  import opened MailModel
  import opened MailStore
  import opened Queues
  import opened ImapReceiver

  /** The value a sync job resolves to. */
  datatype SyncReply = SyncReply(success: bool)

  const AccountNotFound: string := "Email account not found"

  /** How a sync job settles: it rejects with the lookup's error when `findById` rejects,
      rejects when no account has the job's id, rejects with the sync's own error when
      connecting, locking or logging out throws, and otherwise resolves to `{success: true}`. */
  function SyncJobOutcome(accounts: seq<EmailAccount>, job: SyncPayload, lookupError: Option<string>, env: ImapEnv)
    : (r: Result<SyncReply, string>)
    ensures lookupError.Some? ==> r == Err(lookupError.value)
    ensures lookupError.None? && FindById(accounts, job.accountId).None? ==> r == Err(AccountNotFound)
    ensures lookupError.None? && FindById(accounts, job.accountId).Some? ==> (r.Ok? <==> SyncResult(env).Ok?)
    ensures r.Ok? ==> r.value == SyncReply(true)
  {
    if lookupError.Some? then Err(lookupError.value)
    else if FindById(accounts, job.accountId).None? then Err(AccountNotFound)
    else if SyncResult(env).Err? then Err(SyncResult(env).error)
    else Ok(SyncReply(true))
  }

  /** Whatever happens to the individual messages (parse failures, failed saves), a job
      for an existing account settles the same way: those errors never reach the job. */
  lemma MessageErrorsDoNotFailTheJob(accounts: seq<EmailAccount>, job: SyncPayload, env: ImapEnv, other: seq<ServerMessage>)
    requires FindById(accounts, job.accountId).Some?
    requires env.connectError.None? && env.lockError.None? && env.logoutError.None?
    ensures SyncJobOutcome(accounts, job, None, env.(inbox := other)) == Ok(SyncReply(true))
  {
  }

  /** The job handler. `synced` lists the accounts the sync was run with. */
  method HandleSyncJob(db: MailDb, job: SyncPayload, lookupError: Option<string>, env: ImapEnv, now: Time)
    returns (result: Result<SyncReply, string>, synced: seq<EmailAccount>)
    modifies db
    ensures result == SyncJobOutcome(old(db.accounts), job, lookupError, env)
    ensures lookupError.Some? || FindById(old(db.accounts), job.accountId).None? ==>
              synced == [] && db.accounts == old(db.accounts) && db.emails == old(db.emails)
    ensures lookupError.None? && FindById(old(db.accounts), job.accountId).Some? ==>
              var account := FindById(old(db.accounts), job.accountId).value;
              var writes := SyncWrites(account, env, now);
              && synced == [account]
              && AllParsed(Saved(writes))
              && db.emails == old(db.emails) + Records(account, Saved(writes), now)
              && db.accounts == Persist(old(db.accounts), account.id, LastWatermark(writes), now)
  {
    if lookupError.Some? {
      return Err(lookupError.value), [];
    }
    var found := FindById(db.accounts, job.accountId);
    if found.None? {
      return Err(AccountNotFound), [];
    }
    var account := found.value;
    var outcome, calls, writes := SyncImap(db, account, env, now);
    synced := [account];
    if outcome.Err? {
      return Err(outcome.error), synced;
    }
    result := Ok(SyncReply(true));
  }
}
