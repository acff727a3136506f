# JustytaBackend core, modelled in Dafny

This project models two parts of the JustytaBackend Express/Mongoose service and
proves properties about them.

1. **The mail pipeline.**
   - The scheduler queues one `sync` job per e-mail account every minute (`config/cronJob.js`).
   - The sync worker looks the account up and runs `syncIMAP` (`workers/syncMail.worker.js`).
   - `syncIMAP` fetches the INBOX from one past the account's watermark (`lastSyncedUID`). It stores
     one `Email` record per fetched message and moves the watermark message by message
     (`services/imapReceiver.js`).
   - The send endpoint queues a `send-email` job (`controller/mailController.js`). The send worker
     submits the mail and stores a "sent" record (`workers/sendMail.worker.js`).
   - The account endpoints create accounts and list them (`controller/mailAccountController.js`).
   - The record shapes come from `model/Email.js` and `model/EmailAccount.js`.
2. **Registration and upload logic.**
   - The four regular-expression validators (`utils/validator.js`).
   - The first-failure-wins check chain of firm-admin registration (`controller/firmAdminController.js`).
   - The firm-admin document: defaults, `toggleActive`, `getFirmLabel`, the password hook
     (`model/firmAdminSchema.js`).
   - The firm-staff document: the `iv:ciphertext` password framing and the employee-number hook
     (`model/firmStaffSchema.js`).
   - Upload routing, the extension filter, stored file names and limits (`utils/multerConfig.js`).
   - The upload error handler (`utils/multerErrorhandler.js`).
   - The optional bearer-token middleware (`utils/optionalAuthMiddleware.js`).

Stores and queues are classes whose `seq` fields the methods append to or update. The sync
loop, the scheduler tick, the handlers that write and the document hooks are methods. Each is
proved against a specification function, and the properties are lemmas about those functions.

Outside effects are parameters:
- the mail server (its INBOX, which step throws, and whether it clamps or rejects a range
  that starts past the last message);
- the SMTP result, and failures of the database lookups and writes;
- the clock (`now`) and `Math.random()` (a real in [0, 1));
- date parsing, bcrypt (`hash`), AES (`Cipher`), the 16 random IV bytes and `jwt.verify`.

Files:
- `wrappers.dfy`: `Option` and `Result`.
- `strings.dfy`: the JavaScript string operations the code relies on (`trim`, `split`, ASCII case
  mapping, decimal rendering, `String(undefined)`).
- `mail_model.dfy`, `mail_store.dfy`, `imap_receiver.dfy`, `sync_worker.dfy`, `cron_job.dfy`,
  `mail_controller.dfy`, `send_worker.dfy`, `mail_account_controller.dfy`: the mail pipeline.
- `validator.dfy`, `firm_admin.dfy`, `firm_admin_controller.dfy`, `firm_staff.dfy`,
  `uploads.dfy`, `optional_auth.dfy`: registration, uploads and authentication.

## Model

| member | source | states |
|---|---|---|
| MailModel.NewEmail | model/Email.js:13-31 | A message record is created exactly when `accountId` is given, else the required-path error. It keeps every given field, files under "inbox" unless a folder is given, and stamps both timestamps with the creation time. |
| MailModel.NewEmailAccount | model/EmailAccount.js:3-26 | An account is created exactly when `userId` and `email` are non-empty, else the validation error naming the missing paths. The watermark starts at 0 and `lastSync` unset. `smtp`/`imap` are kept or left with all five fields unset. Timestamps are the creation time. |
| MailStore.MailDb.AppendEmail | services/imapReceiver.js:53 | Saving a record appends it to the message collection and leaves the accounts unchanged. |
| MailStore.MailDb.SaveWatermark | services/imapReceiver.js:56-58 | Saving the account sets `lastSyncedUID`, `lastSync` and `updatedAt` on that account and changes nothing else. |
| MailStore.MailDb.AppendAccount | controller/mailAccountController.js:7-13 | `EmailAccount.create` appends the account and leaves the messages unchanged. |
| MailStore.FindById | workers/syncMail.worker.js:10 | `findById` finds a record exactly when the id is given and some stored account has it; the record found has that id. |
| MailStore.SetWatermark | services/imapReceiver.js:56-58 | Every account with the id gets the UID, the sync time and `updatedAt`; every other account is unchanged and the length is kept. |
| MailStore.SetWatermarkTwice | services/imapReceiver.js:56-58 | Setting the watermark twice is setting it once to the later UID, so only the last save of a run matters. |
| Queues.JobQueue.Add | config/cronJob.js:8 | `queue.add(name, data)` appends exactly one job with that name and data. |
| ImapReceiver.FetchRange | services/imapReceiver.js:23-24 | The fetch range starts at `lastSyncedUID + 1`, with an unset watermark counting as 0, and is open-ended. |
| ImapReceiver.InboxRecordIsCreated | services/imapReceiver.js:31-53 | Building the record of a parsed message never fails its `accountId` requirement and yields the record the sync stores. |
| ImapReceiver.InboxRecordShape | services/imapReceiver.js:32-50 | A stored record is filed in "inbox" under the account. Missing address lists become empty, and the thread id is the first `References` id, or none. A missing date becomes `now`. Flags are the server's, and each attachment copies name, size and type with `url` "". |
| ImapReceiver.ThreadId | services/imapReceiver.js:34 | The thread id exists exactly when the message has a `References` id, and it is the first one, however the parser packs the header. |
| ImapReceiver.ThreadIdIgnoresPacking | services/imapReceiver.js:34 | A single id gives the same thread id whether the parser gives it as a string or as a one-element list. Indexing a list, as the code does, gives the first id. |
| ImapReceiver.SingleReferenceThreadIdAsWritten | services/imapReceiver.js:34 | Indexing a single reference that the parser gives as a string yields its first character: "<a@x>" gives "<". |
| ImapReceiver.OkPrefix | services/imapReceiver.js:28-59 | The loop completes exactly the leading messages that parse and save, and stops at the first that does not. |
| ImapReceiver.StepFacts | services/imapReceiver.js:29-58 | One message's writes save its record unless parsing or the record save fails. They set the watermark to its UID only when every step succeeds. |
| ImapReceiver.HandledOrder | services/imapReceiver.js:53-58 | For fully handled messages the writes are, per message and in fetch order, its record and then the watermark with its UID. |
| ImapReceiver.HandledSaved | services/imapReceiver.js:28-59 | Fully handled messages save one record each, in fetch order. |
| ImapReceiver.HandledWatermark | services/imapReceiver.js:56-58 | After fully handled messages the last watermark saved is the last message's UID. |
| ImapReceiver.RunSaved | services/imapReceiver.js:28-64 | A run saves records for exactly the k fully handled leading messages, in order, plus message k when only its account save failed. All of them parsed. |
| ImapReceiver.RunWatermark | services/imapReceiver.js:28-64 | The watermark last saved by a run is message k-1's UID, and none (the prior value stays) when k is 0. |
| ImapReceiver.RunWritesSummary | services/imapReceiver.js:28-64 | The records and the watermark of a run, together. When nothing fails, that is every message and the last UID. |
| ImapReceiver.RunWritesInterleave | services/imapReceiver.js:53-58 | A run's writes alternate record and watermark for the k handled messages. At most one more record follows, and nothing for later messages. |
| ImapReceiver.RunSavesInboxRecords | services/imapReceiver.js:32-35 | Every record a run stores is filed in "inbox" under the synced account. |
| ImapReceiver.WatermarkAdvances | services/imapReceiver.js:23-58 | When every fetched UID is at least the fetch start, a run that saves a watermark moves it strictly forward. A run that fetched nothing writes nothing. |
| ImapReceiver.LockReleasedOnEveryPath | services/imapReceiver.js:20-67 | Once the lock is held, the sync fetches `from:*` and ends by releasing the lock and logging out. Its outcome does not depend on the messages. |
| ImapReceiver.AppendStep | services/imapReceiver.js:53-58 | Appending one message's writes adds its record and, when it was fully handled, makes its UID the account's watermark. |
| ImapReceiver.SyncMessage | services/imapReceiver.js:29-58 | The loop body parses, saves the record and then saves the account. It reports success exactly when all three succeed, and the store changes as its writes say. |
| ImapReceiver.FetchLoop | services/imapReceiver.js:28-63 | The loop's writes are the run's writes: records appended in order, and the account holding the last watermark saved. A failing message ends the loop and its error is swallowed. |
| ImapReceiver.SyncImap | services/imapReceiver.js:5-68 | The sync issues connect, lock, fetch, release and logout. It rejects only with a connect, lock or logout error, and leaves the store as the fetch loop's writes say. |
| ImapReceiver.DenseInboxFetchesNewMail | services/imapReceiver.js:23-28 | In a mailbox whose UIDs equal their sequence numbers, the fetch returns exactly the messages above the watermark, in UID order. This holds whichever way the server treats a range that starts too late. |
| ImapReceiver.NoNewMailResavesLast | services/imapReceiver.js:23-62 | With no mail above the watermark, a server that clamps still yields the last message of a non-empty INBOX. When that message is handled, it is stored again and re-saves the watermark. A server that answers BAD makes the run write nothing. |
| ImapReceiver.DenseResumesAtFailure | services/imapReceiver.js:28-64 | After a run stops at message k of a dense mailbox, the watermark is message k-1's UID. The next fetch starts at message k, which is retried, under either server answer. |
| ImapReceiver.SparseInboxSkipsMail | services/imapReceiver.js:23-28 | Take a mailbox whose UIDs run ahead of the sequence numbers. A message above the watermark is passed over. A clamping server yields the later message, whose UID becomes the watermark. A server that answers BAD yields nothing. The UID range would yield both messages. |
| ImapReceiver.UidFetchMissesNothing | services/imapReceiver.js:23-28 | A UID range from one past the watermark yields every message above the watermark and only messages of the mailbox. When there is new mail, it yields nothing else. |
| ImapReceiver.UidFetchAgreesWhenDense | services/imapReceiver.js:23-28 | On a dense mailbox with new mail, the sequence range the code requests and the UID range yield the same messages. |
| SyncWorker.SyncJobOutcome | workers/syncMail.worker.js:8-16 | A rejected lookup fails the job with its error. A job for an unknown account fails with "Email account not found". Otherwise the job succeeds with `{success: true}` exactly when the sync resolves. |
| SyncWorker.MessageErrorsDoNotFailTheJob | workers/syncMail.worker.js:14-15 | When connect, lock and logout succeed, the job succeeds whatever happens to the individual messages. |
| SyncWorker.HandleSyncJob | workers/syncMail.worker.js:8-16 | A rejected lookup or an unknown account changes nothing and syncs nothing. A known account is synced exactly once, and the store ends as that sync's writes say. |
| CronJob.SyncJobsAt | config/cronJob.js:7-8 | A tick's jobs are one per account, in query order, each named "sync" and carrying only the account id. |
| CronJob.Tick | config/cronJob.js:5-9 | A tick appends the jobs of the current accounts to the queue, and nothing when there are no accounts. A rejected `find()` adds nothing. |
| CronJob.Ticks | config/cronJob.js:5-9 | n ticks append the jobs of the accounts n times over. |
| CronJob.OneJobPerAccount | config/cronJob.js:7-8 | A tick adds exactly one job for each account record with an id, and none for an id no account has. |
| CronJob.TicksQueuePerAccount | config/cronJob.js:5-9 | With no check for queued or running jobs, n ticks queue n jobs per account. |
| MailController.SendJobCarriesRequest | controller/mailController.js:6-14 | The job payload carries the body's account, `to`, `cc` and `subject`, with `message` as `html`. It has no bcc, text or attachments. |
| MailController.SendMail | controller/mailController.js:3-17 | Each request, validated or not, appends one "send-email" job and then acknowledges "Email is being sent". A failed add leaves the queue unchanged. |
| SendWorker.SentToRecordsRecipients | workers/sendMail.worker.js:45-47 | An array `to` becomes one entry per recipient, in order, and a single value becomes one entry. |
| SendWorker.SentRecordShape | workers/sendMail.worker.js:40-61 | The sent record is in "sent", from `{name: "", email: account.email}`, with the returned message id. cc, bcc and flags are empty; attachments take `contentType`, else `mimetype`, with `url` "". |
| SendWorker.HandleSendJob | workers/sendMail.worker.js:9-66 | A rejected lookup or an unknown account sends and stores nothing, and the job fails with that error. Otherwise the mail is submitted once from the account's address. The record is stored only after the submission resolves, and only when the create succeeds. |
| SendWorker.EndpointToSentRecord | workers/sendMail.worker.js:28-61 | A mail queued by the endpoint is submitted with the request's fields, and its record keeps `message` as `html` with empty cc and attachments. |
| MailAccountController.CreateIgnoresOtherFields | controller/mailAccountController.js:5-13 | Only the five whitelisted fields reach the record, so a body's watermark fields are ignored and the watermark starts at 0. |
| MailAccountController.CreateEmailAccount | controller/mailAccountController.js:3-20 | A valid account is stored and returned with 201. A validation or insert error gives 500 with its message and stores nothing. |
| MailAccountController.Insert | controller/mailAccountController.js:26 | Inserting into a newest-first list keeps it newest first and adds exactly the one record. |
| MailAccountController.SortNewestFirst | controller/mailAccountController.js:26 | The sort returns the same records, as a multiset, newest `createdAt` first. |
| MailAccountController.OwnedBy | controller/mailAccountController.js:25 | The filter keeps exactly the accounts of that user, each as many times as the collection holds it, and drops every other account. |
| MailAccountController.ListEmailAccounts | controller/mailAccountController.js:22-32 | A query error gives 500 with its message. Otherwise the reply is 200 with the list, newest first. With a `userId` the list holds that user's accounts with their multiplicities; without one it holds every account. |
| MailAccountController.ListIsFilteredAndSorted | controller/mailAccountController.js:24-27 | The list is newest first. With a `userId` it holds exactly that user's accounts, with their multiplicities; without one it holds every account. |
| Validator.EmailValidatorMatchesPattern | utils/validator.js:2-5 | The e-mail check holds iff the string is a non-empty local part, `@`, and a domain with a `.` that is neither its first nor its last character. None of the three parts holds whitespace or `@`, and an accepted string has exactly one `@`. |
| Validator.AcceptedEmailMatches | utils/validator.js:2-5 | An accepted address matches the pattern and holds exactly one `@`. |
| Validator.MatchingEmailAccepted | utils/validator.js:2-5 | Every string the pattern matches is accepted. |
| Validator.ContainsWitness | utils/validator.js:8 | A character class occurs in a string exactly when some position holds it. |
| Validator.LooksAheadWithoutTerminators | utils/validator.js:8 | On a string without line terminators, a `(?=.*[class])` look-ahead holds exactly when some character is in the class. |
| Validator.PasswordValidatorMatchesPattern | utils/validator.js:7-10 | The password check holds iff the string is 8-64 characters with no line terminator, and holds a lowercase letter, an uppercase letter, a digit and a listed symbol. |
| Validator.AbsentNameAccepted | utils/validator.js:12-15 | An absent name is matched as the string "undefined" and accepted. |
| Validator.NameIgnoresSurroundingSpace | utils/validator.js:12-15 | The name check sees the trimmed name, so surrounding whitespace never matters. An all-whitespace name is rejected. |
| Validator.PhoneValidatorShape | utils/validator.js:18-21 | The phone check holds iff the number is an optional `0` or `+971`, then `5`, one of 0 2 4 5 6 8, and seven digits. An accepted number has 9, 10 or 13 characters. |
| FirmAdmin.NormalEmail | model/firmAdminSchema.js:114-121 | The stored e-mail is the trimmed input, lower-cased character by character. It is never longer than the input and holds no upper-case ASCII letter. |
| FirmAdmin.NormalEmailIdempotent | model/firmAdminSchema.js:114-121 | Normalising a normalised e-mail changes nothing, so the stored e-mail is the lookup key of itself. |
| FirmAdmin.NewFirmAdmin | model/firmAdminSchema.js:101-168 | A new record stores the normalised e-mail and the trimmed firm name. Its role is `FIRM_ADMIN_ROLE` or "800", its status "pending_verification", `isActive` true, and both timestamps the creation time. |
| FirmAdmin.FirmLabelNames | model/firmAdminSchema.js:185-187 | When neither name holds `(`, the label splits at its one `(` into the firm name and the owner's name, so both can be read back. |
| FirmAdmin.FirmAdminDoc.ToggleActive | model/firmAdminSchema.js:190-193 | `toggleActive` negates `isActive`, returns the new value and changes nothing else. |
| FirmAdmin.ToggleTwice | model/firmAdminSchema.js:190-193 | Toggling twice restores the document exactly; the two calls return opposite values. |
| FirmAdmin.FirmAdminDoc.PreSave | model/firmAdminSchema.js:171-175 | A modified password is replaced by its hash; otherwise the document is left as it is. |
| FirmAdmin.FirmAdminStore.Create | controller/firmAdminController.js:212-222 | `create` appends the record to the collection and keeps the others. |
| FirmAdmin.FirmAdminStore.CreateHashed | model/firmAdminSchema.js:171-175 | Saving a new document stores it with its password hashed, appended to the collection. |
| FirmAdmin.FindByEmail | controller/firmAdminController.js:62 | `findOne({email})` finds a record exactly when one stores the normalised query e-mail. |
| FirmAdmin.FindAdminById | model/firmStaffSchema.js:146 | `findById` finds a record exactly when one has that id. |
| FirmAdmin.UniqueEmailsAppend | model/firmAdminSchema.js:117 | Appending a record whose e-mail no stored record has keeps the unique index satisfied. |
| FirmAdminController.FirstBlank | controller/firmAdminController.js:77-84 | The required-field loop finds nothing exactly when every value is non-blank. |
| FirmAdminController.FirstBlankIsFirst | controller/firmAdminController.js:77-84 | The key it reports is that of a blank value, and every value before it is filled. |
| FirmAdminController.ListsMatchSchemaEnums | controller/firmAdminController.js:97-112 | The controller's emirate and plan lists equal the schema's enums. |
| FirmAdminController.CredentialStage | controller/firmAdminController.js:51-66 | The credential checks pass iff the e-mail and password are valid and the e-mail is new. Their 409 is reached only with valid credentials. |
| FirmAdminController.FirmStage | controller/firmAdminController.js:69-121 | The firm checks pass iff every firm field is filled, the name and phone are valid, the emirate and plan are in the schema's enums and the licence expiry is a future date. Failures are 400. |
| FirmAdminController.OwnerStage | controller/firmAdminController.js:124-178 | The owner checks pass iff every owner field is filled, the name and phone are valid, the three expiries are future dates, and so is a given visa expiry. Failures are 400. |
| FirmAdminController.RejectionMatchesChecks | controller/firmAdminController.js:51-178 | The chain rejects nothing iff every check holds. A rejection is 400 or 409, and 409 exactly when the credentials are valid and the e-mail is registered. |
| FirmAdminController.NotRegisteredMeansNewEmail | controller/firmAdminController.js:62-66 | The uniqueness check passes exactly when no stored record has the e-mail a new record would store. |
| FirmAdminController.FilePath | controller/firmAdminController.js:44-45 | `filePath` is null for a field with no uploads and throws for an empty upload list. Otherwise it reads the first upload's path. |
| FirmAdminController.FilePathSlashes | controller/firmAdminController.js:44-45 | The path read keeps the upload's path except that every backslash becomes `/`. |
| FirmAdminController.FilePaths | controller/firmAdminController.js:190-205 | Reading the document paths yields one entry per field, or the error of an empty upload list. |
| FirmAdminController.FilePathsReadEach | controller/firmAdminController.js:190-205 | Reading the document paths succeeds iff each field's read does, and then holds each field's path in order. |
| FirmAdminController.MissingDocuments | model/firmAdminSchema.js:58-97 | No required document is missing exactly when the trade licence, both Emirates ID sides, the passport and the Card of Law are present. |
| FirmAdminController.AcceptedDatesValid | controller/firmAdminController.js:117-178 | A request the chain lets through has valid future expiry dates. |
| FirmAdminController.AdminFor | controller/firmAdminController.js:184-222 | The record built for a request carries the normalised e-mail, the given password, the document paths, the default status and `isActive`. |
| FirmAdminController.RegistrationOutcome | controller/firmAdminController.js:51-241 | A record is stored exactly when the reply is 201. That holds exactly when every check passes, the e-mail lookup succeeds, the documents are read and present, and the insert succeeds. Other replies are 400, 409 or 500 with no data. |
| FirmAdminController.LookupFailureIsServerError | controller/firmAdminController.js:61-66 | With a valid e-mail and password, a rejected e-mail lookup gives a 500 carrying its message and stores nothing, whatever the later checks say. Before the lookup runs, its failure changes nothing. |
| FirmAdminController.RegisteredRecord | controller/firmAdminController.js:212-231 | The stored record has the normalised e-mail, the hashed password, status "pending_verification" and `isActive`, and the 201 reply returns it. |
| FirmAdminController.RegistrationKeepsEmailsUnique | controller/firmAdminController.js:62-66 | A registration keeps the stored e-mails unique. |
| FirmAdminController.RegisterFirmAdmin | controller/firmAdminController.js:16-243 | The handler replies as the registration specification says for the request's verdicts, and appends exactly the record it reports, if any. |
| FirmStaff.HexEncode | model/firmStaffSchema.js:23 | Hex encoding gives two hex digits per byte. |
| FirmStaff.HexRoundTrip | model/firmStaffSchema.js:23-29 | Decoding the hex encoding of bytes gives the bytes back. |
| FirmStaff.HexDecode | model/firmStaffSchema.js:29 | Decoding hex yields at most one byte per two characters. |
| FirmStaff.EncryptText | model/firmStaffSchema.js:11-24 | The frame is 32 hex digits of IV, `:`, then the hex ciphertext. |
| FirmStaff.EncryptedFrame | model/firmStaffSchema.js:23-27 | Splitting a frame at `:` recovers exactly the hex IV and the hex ciphertext; the frame holds one `:`. |
| FirmStaff.DecryptEncrypt | model/firmStaffSchema.js:11-41 | For a cipher whose decryption inverts its encryption, `decryptText(encryptText(t))` is `t`. |
| FirmStaff.NewFirmStaff | model/firmStaffSchema.js:43-134 | A new staff record stores its work e-mail trimmed and lower-cased and its e-mail lower-cased. Status is "Active", `isActive` true, and no encrypted copy yet. |
| FirmStaff.Code | model/firmStaffSchema.js:156-164 | A firm or department code has at most three characters, all in A-Z. |
| FirmStaff.CodeIdempotent | model/firmStaffSchema.js:156-164 | Deriving a code from a code gives the code back. |
| FirmStaff.CodeOfLetters | model/firmStaffSchema.js:156-164 | A name starting with three letters has those three, upper-cased, as its code. |
| FirmStaff.DepartmentCodes | model/firmStaffSchema.js:80-91 | The six departments are HR, Secretarial, Legal, Accounts, Research and Lawyer; HR's code is "HR". |
| FirmStaff.LongDepartmentCodes | model/firmStaffSchema.js:161-164 | The other department codes are SEC, LEG, ACC, RES and LAW. |
| FirmStaff.RandomDigits | model/firmStaffSchema.js:166 | The random suffix lies in 1000..9999. |
| FirmStaff.FourDigits | model/firmStaffSchema.js:166 | A number from 1000 to 9999 renders as four digits. |
| FirmStaff.EmployeeNumberParts | model/firmStaffSchema.js:156-168 | An employee number splits at `-` into the firm code, the department code and four digits, and holds exactly two `-`. |
| FirmStaff.FirmStaffDoc.PreSave | model/firmStaffSchema.js:136-174 | A modified password is stored as an encrypted copy of the plaintext, which decrypts back, and as its hash. A new record without a number gets one, or "Invalid firmId - Firm not found", or the lookup's own error when the lookup rejects. An existing number is kept and no other field changes. |
| Uploads.NewMulterError | utils/multerConfig.js:73-85 | A multer error keeps its code, takes multer's message for the code, and records a field only when one is given. |
| Uploads.Lookup | utils/multerConfig.js:60-81 | A folder map yields a folder exactly for the fields it lists, and the folder listed for that field. |
| Uploads.AdminDestinations | utils/multerConfig.js:14-22 | An admin file of one of the seven admin fields goes to `uploads/firmAdmin/<field>`. Any other field makes `path.join` throw. |
| Uploads.StaffDepartmentFirst | utils/multerConfig.js:65-67 | A staff file without a department is refused with "department is required for staff uploads" before its field is looked at. Any other upload type is refused with "Invalid uploadType". |
| Uploads.StaffDestinations | utils/multerConfig.js:65-92 | An accepted staff file goes to `uploads/firmStaff/<department>/<mapped folder>`. A lawyer-only field is accepted only for the job title "Lawyer". |
| Uploads.LawyerFoldersOnlyForLawyers | utils/multerConfig.js:39-49 | Files reach the lawyer-only folders only when the job title is "Lawyer". |
| Uploads.ExtName | utils/multerConfig.js:98 | `path.extname` gives "" or text starting with `.` and holding no `/`. |
| Uploads.ExtNameOfFileName | utils/multerConfig.js:110 | A name `stem.ext` has the extension `.ext`. |
| Uploads.FileFilter | utils/multerConfig.js:109-120 | The filter accepts iff the lower-cased extension is .jpg, .jpeg, .png or .pdf. Otherwise it raises `LIMIT_INVALID_FORMAT` carrying the original name. |
| Uploads.FilterOnFileName | utils/multerConfig.js:9-120 | A `stem.ext` file passes exactly when `.ext` in lower case is an allowed type, whatever the case of its letters. |
| Uploads.RandomSuffix | utils/multerConfig.js:99-101 | The random part of a stored name lies in 0..10^9. |
| Uploads.FileNameKeepsType | utils/multerConfig.js:97-103 | A stored file's name ends with its lower-cased allowed extension. |
| Uploads.FileNameStartsWithField | utils/multerConfig.js:99 | For a field name without `-`, the stored name's first `-`-piece is the field name. |
| Uploads.FieldsMatchFolderMaps | utils/multerConfig.js:128-149 | The accepted fields are the staff fields, then the admin fields. Each allows one file except `specializationFiles` (ten), and the size limit is 5 MiB. |
| Uploads.HandleUploadError | utils/multerErrorhandler.js:1-62 | The handler's intended mapping: every multer error is 400 without `error`, and any other error is 500 "Upload failed due to a server error." with its message. |
| Uploads.OtherCodesKeepMessage | utils/multerErrorhandler.js:46-50 | A multer code the handler does not name keeps multer's own message, or "Upload error" when multer has none. |
| Uploads.RefusedDestinationReplies | utils/multerErrorhandler.js:16-61 | A refused destination gives 500 exactly for the department and upload-type errors. A non-lawyer's lawyer-only file, or an unmapped staff field, gives 400 "Unexpected file field: ..." naming it. |
| Uploads.RefusedTypeReply | utils/multerErrorhandler.js:40-44 | A file the filter refuses gives 400 "Invalid file type. Only JPG, JPEG, PNG, PDF allowed." |
| Uploads.AsWrittenNeverReplies | utils/multerErrorhandler.js:7 | As written, the handler throws "multer is not defined" for every error and never produces the intended reply. |
| Uploads.HandleUploadErrorAsWritten | utils/multerErrorhandler.js:7 | As written, the handler ends in the ReferenceError "multer is not defined" whatever the error. |
| OptionalAuth.BearerToken | utils/optionalAuthMiddleware.js:8-17 | A token is taken only from a present, non-empty header. It is a non-empty piece without spaces. |
| OptionalAuth.OptionalAuthUser | utils/optionalAuthMiddleware.js:3-29 | `req.user` is a payload only when a token was found and verified to it; a verified token always sets it. |
| OptionalAuth.SchemeAndToken | utils/optionalAuthMiddleware.js:13-21 | A header `scheme token` authenticates exactly the token's verified payload, or no user when verification fails. The scheme is not checked. |
| OptionalAuth.OneWordNoUser | utils/optionalAuthMiddleware.js:8-17 | No header, or a header of one word such as "Bearer", leaves the request without a user. |
| OptionalAuth.DoubleSpaceNoUser | utils/optionalAuthMiddleware.js:13-17 | Two spaces after the scheme leave an empty second piece, so no user is set even when a valid token follows. |

## Left out

- Mail protocol I/O is a parameter: the IMAP connection, lock, fetch and logout, SMTP submission and MIME parsing. The model takes the INBOX, the parse of each message, the SMTP result and which save throws.
- The sync's `for await` loop and every handler are sequential here. Queue workers, retries and two syncs of one account running at once (BullMQ, Redis) are not modelled; a queue is the sequence of jobs added to it.
- Cron timing is not modelled: a tick is one call. The clock is one `now` per run or request, and `Math.random()` is a real parameter in [0, 1).
- The IMAP sync and the two workers import `../models/...` while the schemas live in `model/`. The model assumes the imports resolve to those schemas.
- ImapReceiver.InboxRecordShape: states the thread id as the first `References` id. The code indexes the parsed header, which mailparser gives as a string when there is one id, so the code stores its first character (see Findings).
- ImapReceiver.SyncImap: walks the sequence-number range the code requests. The UID range the watermark calls for is the reference `FetchUidRange`, and the two agree only on a dense mailbox (see Findings).
- CronJob.Ticks: every tick's `find()` is taken to succeed; `Tick` alone models a rejected one, which adds nothing and is an unhandled rejection.
- CronJob.Tick: `syncMailQueue.add` is not awaited. A rejected add is an unhandled rejection that drops that one job, and the model treats every add as succeeding.
- mailparser's address objects (`{address, name}`) are copied as the parser gives them. The schema's `{name, email}` shape is not enforced on them.
- `console.log` and `console.error` output is not modelled.
- Mongoose casting is not modelled: a job's `accountId` is an id or absent, never a malformed string that would raise a CastError.
- MailAccountController.SortNewestFirst: the order among accounts with equal `createdAt` is left open by MongoDB. The model fixes one, and the contract states only the ordering and the multiset.
- String lengths and case mapping are on code points: JavaScript's UTF-16 length differs above U+FFFF, and `toLowerCase`/`toUpperCase` are modelled on ASCII letters only. For the extension filter and the firm and department codes this changes nothing: no other character maps to a letter of an allowed extension, and the codes keep only ASCII letters before upper-casing. It does change the stored e-mails (next line).
- FirmAdmin.NormalEmail: lower-cases ASCII letters only, while `toLowerCase` also maps other letters. After "Ä@x.ae" is registered, "ä@x.ae" gets 409 from the code and 201 from the model. The model also keeps the length, while "İ" lower-cases to two code points. Uniqueness and idempotence are proved for the ASCII mapping.
- Request body values are strings or absent. Non-string JSON values (numbers, arrays) would make `trim()` throw; that path is not modelled.
- `isEmpty` in the registration controller is never called and is not modelled.
- Mongo sessions and transactions are not modelled. The controller returns its 400/409 replies without aborting the transaction, and an abort does not change what the model stores.
- Mongoose validation is modelled only for the `required` document paths of the firm admin. The other validators (`match` on the e-mail, `minlength` on the password) are implied by the controller's own checks. The exact wording of Mongoose's validation message is not reproduced.
- `isPasswordCorrect`, `comparePassword`, `generateAccessToken` and `generateRefreshToken` are not modelled. They are bcrypt comparison and JWT signing with no logic of their own.
- Staff and admin fields the core logic never reads are not modelled (personal, compensation and lawyer fields, `staffs`, `lastLogin`, `aboutFirm`, `trn` and the like).
- AES-256-CBC is a parameter (`Cipher`); only the `iv:ciphertext` framing and its hex encoding are modelled. FirmStaff.HexDecode: Node's decoding is modelled as stopping at the first pair that is not two hex digits; its handling of other malformed input is not.
- `path.join` normalisation and directory creation are not modelled: a destination is the list of segments given to `path.join`. `department` is not validated, so a `..` segment could leave the upload root; the model claims nothing about containment.
- The folder maps are plain objects, so a field such as `constructor` or `__proto__` would find an inherited property. The model treats the maps as holding only their listed entries.
- How multer itself applies the limits (the order in which it counts parts, files and sizes) is library behaviour. The model states the configured limits and the errors the handler maps.
- `req.body` inside `destination` holds only the fields sent before the file. The model takes the body the destination sees.
- Uploads.UploadDestination: a synchronous throw inside `destination` is recorded as `Throws` with the TypeError's message. What follows is not modelled: multer's disk storage calls `destination` without a `try`, so the exception escapes the request and no reply is sent. It is reachable with `uploadType` "admin" and a staff-only field such as `passportFile`. The exact wording of Node's TypeErrors is not part of the contract either.
- OptionalAuth.OptionalAuthUser: `next()` is called once on every path and the middleware never rejects; the model states the resulting `req.user` only. A throw from a later handler reaching the `catch` is not modelled.

## Findings

| source | as written | input that shows it | evidently intended | confidence | as-written member | corrected member |
|---|---|---|---|---|---|---|
| utils/multerErrorhandler.js:7 | `err instanceof multer.MulterError` names `multer`, which the module never imports, so the test throws a ReferenceError | any error, e.g. a `LIMIT_FILE_SIZE` MulterError from an oversized upload | 400 "File too large. Max allowed size is 5MB." (and the other mapped replies) | high; not executed | Uploads.AsWrittenNeverReplies | Uploads.HandleUploadError |
| services/imapReceiver.js:34 | `parsed.references[0]` indexes the References header, which mailparser gives as a string when it holds one id, so the first character is stored | a reply whose References header is `<a@x>` | the thread id "<a@x>" | medium; not executed | ImapReceiver.SingleReferenceThreadIdAsWritten | ImapReceiver.ThreadId |
| services/imapReceiver.js:23-28 | the range `lastSyncedUID+1:*` goes to a plain FETCH, so it is read as sequence numbers while the watermark is a UID | UIDs 5, 6, 7 at sequence numbers 1, 2, 3 with watermark 5: UID 6 is never fetched | a UID FETCH of the range, which yields UIDs 6 and 7 | medium; not executed | ImapReceiver.SparseInboxSkipsMail | ImapReceiver.UidFetchMissesNothing |
