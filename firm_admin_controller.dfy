/**
 * Firm-admin registration (controller/firmAdminController.js). The checks run
 * in a fixed order and the first one that fails decides the 400 or 409 reply.
 * When every check passes, the uploaded document paths are read and the
 * record is created: 201 with the record, or 500 when the create throws.
 *
 * The clock (`new Date()`) is the parameter `now`, and date parsing
 * (`new Date(s)`) is the parameter `parse`, which gives None for an invalid
 * date. bcrypt is the parameter `hash`. A failure of the e-mail lookup
 * (`findOne` rejecting) is the parameter `lookupError`, and a failure of the
 * database insert or of the commit is the parameter `storeError`; either is
 * caught and answered with a 500.
 */
module FirmAdminController {
  import opened Wrappers
  import opened Strings
  import opened MailModel
  import opened Validator
  import opened FirmAdmin

  /** The request body fields the controller reads; each may be absent. */
  datatype RegistrationBody = RegistrationBody(
    email: Option<string>,
    password: Option<string>,
    lawFirmName: Option<string>,
    phone: Option<string>,
    emirate: Option<string>,
    subscriptionPlan: Option<string>,
    tradeLicenseExpiry: Option<string>,
    fullName: Option<string>,
    ownerPhone: Option<string>,
    emiratesIdExpiry: Option<string>,
    passportExpiry: Option<string>,
    cardOfLawExpiry: Option<string>,
    residenceVisaExpiry: Option<string>)

  /** `new Date(s)`: a time, or None for Invalid Date. */
  type DateParser = string -> Option<Time>

  /** `isValidFutureDate`: the value parses to a valid date strictly after now. An
      absent value is `new Date(undefined)`, which is invalid. */
  predicate IsValidFutureDate(s: Option<string>, parse: DateParser, now: Time) {
    s.Some? && parse(s.value).Some? && parse(s.value).value > now
  }

  /** The required-field test `!value || value.trim() === ""`. */
  predicate Blank(v: Option<string>) {
    v.None? || Trim(v.value) == ""
  }

  /** The `for...of` loop over a required-field object: the key of the first blank
      value, or None when every value is filled. */
  function FirstBlank(fields: seq<(string, Option<string>)>): (r: Option<string>)
    ensures r.None? <==> forall k :: 0 <= k < |fields| ==> !Blank(fields[k].1)
  {
    if |fields| == 0 then None
    else if Blank(fields[0].1) then Some(fields[0].0)
    else
      var r := FirstBlank(fields[1..]);
      assert r.None? ==> forall k :: 0 <= k < |fields| ==> !Blank(fields[k].1) by {
        if r.None? {
          forall k | 0 <= k < |fields| ensures !Blank(fields[k].1) {
            if k > 0 { assert fields[k] == fields[1..][k - 1]; }
          }
        }
      }
      r
  }

  /** The key `FirstBlank` names is the key of a blank value, and every value before
      it is filled. */
  lemma {:induction false} FirstBlankIsFirst(fields: seq<(string, Option<string>)>)
    requires FirstBlank(fields).Some?
    ensures exists k :: 0 <= k < |fields| && fields[k].0 == FirstBlank(fields).value && Blank(fields[k].1) &&
                        forall m :: 0 <= m < k ==> !Blank(fields[m].1)
  {
    var key := FirstBlank(fields).value;
    if Blank(fields[0].1) {
      assert fields[0].0 == key;
    } else {
      var tail := fields[1..];
      assert FirstBlank(tail) == FirstBlank(fields);
      FirstBlankIsFirst(tail);
      var k :| 0 <= k < |tail| && tail[k].0 == key && Blank(tail[k].1) &&
               forall m :: 0 <= m < k ==> !Blank(tail[m].1);
      assert fields[k + 1] == tail[k];
      forall m | 0 <= m < k + 1 ensures !Blank(fields[m].1) {
        if m > 0 { assert fields[m] == tail[m - 1]; }
      }
      assert fields[k + 1].0 == key && Blank(fields[k + 1].1);
    }
  }

  /** The firm fields that must be filled, in the order they are checked. */
  function FirmRequired(b: RegistrationBody): seq<(string, Option<string>)> {
    [("lawFirmName", b.lawFirmName), ("firmPhone", b.phone), ("emirate", b.emirate),
     ("subscriptionPlan", b.subscriptionPlan), ("tradeLicenseExpiry", b.tradeLicenseExpiry)]
  }

  /** The owner fields that must be filled, in the order they are checked. */
  function OwnerRequired(b: RegistrationBody): seq<(string, Option<string>)> {
    [("fullName", b.fullName), ("ownerPhone", b.ownerPhone), ("emiratesIdExpiry", b.emiratesIdExpiry),
     ("passportExpiry", b.passportExpiry), ("cardOfLawExpiry", b.cardOfLawExpiry)]
  }

  /** The emirate and plan lists the controller keeps for its own checks. */
  const EmirateList: seq<string> :=
    ["Abu Dhabi", "Dubai", "Sharjah", "Ajman", "Umm Al-Quwain", "Ras Al Khaimah", "Fujairah"]
  const PlanList: seq<string> := ["Gold", "Silver", "Platinum", "Basic"]

  const PasswordRule: string := "Password must contain uppercase, lowercase, number, symbol (8–64 chars)"

  /** A rejected request: its status and message. */
  datatype Failure = Failure(status: int, message: string)

  /** The verdicts of the validators and of the e-mail lookup on one request. The
      validators are pure, so evaluating them up front gives the answers the
      controller's calls give where they stand in the chain. */
  datatype Checks = Checks(
    emailValid: bool,
    passwordValid: bool,
    registered: bool,
    firmNameValid: bool,
    firmPhoneValid: bool,
    ownerNameValid: bool,
    ownerPhoneValid: bool)

  /** The verdicts on a request, against the stored records. A value the body does
      not hold reaches a validator as the string "undefined", except for the names:
      `nameValidator` receives the value itself and handles the absent one. */
  function ChecksOf(b: RegistrationBody, admins: seq<FirmAdminRecord>): Checks {
    Checks(EmailValidator(JsString(b.email)), PasswordValidator(JsString(b.password)),
           FindByEmail(admins, JsString(b.email)).Some?,
           NameValidator(b.lawFirmName), PhoneValidator(JsString(b.phone)),
           NameValidator(b.fullName), PhoneValidator(JsString(b.ownerPhone)))
  }

  /** The e-mail, password and uniqueness checks. */
  function CredentialRejection(v: Checks): Option<Failure> {
    if !v.emailValid then Some(Failure(400, "Invalid email"))
    else if !v.passwordValid then Some(Failure(400, PasswordRule))
    else if v.registered then Some(Failure(409, "Email already registered"))
    else None
  }

  /** The firm checks: required fields, name, phone, emirate, plan, trade-licence expiry. */
  function FirmRejection(b: RegistrationBody, v: Checks, parse: DateParser, now: Time): Option<Failure> {
    var blank := FirstBlank(FirmRequired(b));
    if blank.Some? then Some(Failure(400, "Firm field '" + blank.value + "' is required"))
    else if !v.firmNameValid then Some(Failure(400, "Invalid law firm name"))
    else if !v.firmPhoneValid then Some(Failure(400, "Invalid firm phone number"))
    else if !(b.emirate.Some? && b.emirate.value in EmirateList) then Some(Failure(400, "Invalid emirate"))
    else if !(b.subscriptionPlan.Some? && b.subscriptionPlan.value in PlanList) then
      Some(Failure(400, "Invalid subscription plan"))
    else if !IsValidFutureDate(b.tradeLicenseExpiry, parse, now) then
      Some(Failure(400, "Trade license expiry must be a future date"))
    else None
  }

  /** The owner checks: required fields, name, phone, the three expiries, and the
      residence-visa expiry when it is given (a non-empty string). */
  function OwnerRejection(b: RegistrationBody, v: Checks, parse: DateParser, now: Time): Option<Failure> {
    var blank := FirstBlank(OwnerRequired(b));
    if blank.Some? then Some(Failure(400, "Owner field '" + blank.value + "' is required"))
    else if !v.ownerNameValid then Some(Failure(400, "Invalid owner full name"))
    else if !v.ownerPhoneValid then Some(Failure(400, "Invalid owner phone number"))
    else if !IsValidFutureDate(b.emiratesIdExpiry, parse, now) then
      Some(Failure(400, "Emirates ID expiry must be a future date"))
    else if !IsValidFutureDate(b.passportExpiry, parse, now) then
      Some(Failure(400, "Passport expiry must be a future date"))
    else if !IsValidFutureDate(b.cardOfLawExpiry, parse, now) then
      Some(Failure(400, "Card of Law expiry must be a future date"))
    else if VisaGiven(b) && !IsValidFutureDate(b.residenceVisaExpiry, parse, now) then
      Some(Failure(400, "Residence visa expiry must be a future date"))
    else None
  }

  /** `residenceVisaExpiry` is truthy: present and not the empty string. */
  predicate VisaGiven(b: RegistrationBody) {
    b.residenceVisaExpiry.Some? && b.residenceVisaExpiry.value != ""
  }

  /** The whole validation chain: the first failing check, in source order. */
  function Rejection(b: RegistrationBody, v: Checks, parse: DateParser, now: Time): Option<Failure> {
    var c := CredentialRejection(v);
    if c.Some? then c
    else
      var f := FirmRejection(b, v, parse, now);
      if f.Some? then f else OwnerRejection(b, v, parse, now)
  }

  /** The controller's emirate and plan lists are the schema's enums, so an accepted
      request never fails the schema's enum validators. */
  lemma ListsMatchSchemaEnums()
    ensures EmirateList == Emirates && PlanList == SubscriptionPlans
  {
  }

  /** The credential checks, stated without their order. */
  predicate CredentialsAdmissible(v: Checks) {
    v.emailValid && v.passwordValid && !v.registered
  }

  /** The firm checks, stated without their order; enum membership is stated
      against the schema's enums. */
  predicate FirmAdmissible(b: RegistrationBody, v: Checks, parse: DateParser, now: Time) {
    (forall k :: 0 <= k < |FirmRequired(b)| ==> !Blank(FirmRequired(b)[k].1)) &&
    v.firmNameValid && v.firmPhoneValid &&
    JsString(b.emirate) in Emirates && JsString(b.subscriptionPlan) in SubscriptionPlans &&
    IsValidFutureDate(b.tradeLicenseExpiry, parse, now)
  }

  /** The owner checks, stated without their order. */
  predicate OwnerAdmissible(b: RegistrationBody, v: Checks, parse: DateParser, now: Time) {
    (forall k :: 0 <= k < |OwnerRequired(b)| ==> !Blank(OwnerRequired(b)[k].1)) &&
    v.ownerNameValid && v.ownerPhoneValid &&
    IsValidFutureDate(b.emiratesIdExpiry, parse, now) && IsValidFutureDate(b.passportExpiry, parse, now) &&
    IsValidFutureDate(b.cardOfLawExpiry, parse, now) &&
    (VisaGiven(b) ==> IsValidFutureDate(b.residenceVisaExpiry, parse, now))
  }

  /** Every check of the registration, stated without their order. */
  predicate Admissible(b: RegistrationBody, v: Checks, parse: DateParser, now: Time) {
    CredentialsAdmissible(v) && FirmAdmissible(b, v, parse, now) && OwnerAdmissible(b, v, parse, now)
  }

  /** The credential stage rejects nothing exactly when its checks hold; its only
      409 is the stored e-mail, reached with valid credentials. */
  lemma CredentialStage(v: Checks)
    ensures CredentialRejection(v).None? <==> CredentialsAdmissible(v)
    ensures CredentialRejection(v).Some? ==>
              (CredentialRejection(v).value.status == 409 <==> v.emailValid && v.passwordValid && v.registered)
    ensures CredentialRejection(v).Some? ==> CredentialRejection(v).value.status in {400, 409}
  {
  }

  /** The firm stage rejects nothing exactly when its checks hold, and rejects with 400. */
  lemma FirmStage(b: RegistrationBody, v: Checks, parse: DateParser, now: Time)
    ensures FirmRejection(b, v, parse, now).None? <==> FirmAdmissible(b, v, parse, now)
    ensures FirmRejection(b, v, parse, now).Some? ==> FirmRejection(b, v, parse, now).value.status == 400
  {
    ListsMatchSchemaEnums();
    if FirmAdmissible(b, v, parse, now) {
      assert FirstBlank(FirmRequired(b)).None?;
      assert b.emirate.Some? by { assert !Blank(FirmRequired(b)[2].1); }
      assert b.subscriptionPlan.Some? by { assert !Blank(FirmRequired(b)[3].1); }
      assert b.emirate.value in EmirateList;
      assert b.subscriptionPlan.value in PlanList;
    }
  }

  /** The owner stage rejects nothing exactly when its checks hold, and rejects with 400. */
  lemma OwnerStage(b: RegistrationBody, v: Checks, parse: DateParser, now: Time)
    ensures OwnerRejection(b, v, parse, now).None? <==> OwnerAdmissible(b, v, parse, now)
    ensures OwnerRejection(b, v, parse, now).Some? ==> OwnerRejection(b, v, parse, now).value.status == 400
  {
    if OwnerAdmissible(b, v, parse, now) {
      assert FirstBlank(OwnerRequired(b)).None?;
    }
  }

  /** A request is rejected by none of the checks exactly when it satisfies all of them;
      a rejection is a 400 or a 409, and it is a 409 ("Email already registered")
      exactly when the e-mail and the password are valid and a record with that e-mail
      is stored. */
  lemma RejectionMatchesChecks(b: RegistrationBody, v: Checks, parse: DateParser, now: Time)
    ensures Rejection(b, v, parse, now).None? <==> Admissible(b, v, parse, now)
    ensures Rejection(b, v, parse, now).Some? ==> Rejection(b, v, parse, now).value.status in {400, 409}
    ensures (Rejection(b, v, parse, now).Some? && Rejection(b, v, parse, now).value.status == 409) <==>
            (v.emailValid && v.passwordValid && v.registered)
  {
    CredentialStage(v);
    FirmStage(b, v, parse, now);
    OwnerStage(b, v, parse, now);
  }

  /** The e-mail lookup finds nothing exactly when no stored record has the
      normalised e-mail, the one a new record would store. */
  lemma NotRegisteredMeansNewEmail(b: RegistrationBody, admins: seq<FirmAdminRecord>)
    ensures !ChecksOf(b, admins).registered <==>
            forall k :: 0 <= k < |admins| ==> admins[k].email != NormalEmail(JsString(b.email))
  {
  }

  // ---------------------------------------------------------------------------
  // Uploaded documents
  // ---------------------------------------------------------------------------

  /** A stored upload, as the upload middleware describes it. */
  datatype UploadedFile = UploadedFile(path: string)

  /** `req.files || {}`: the uploads of each field, in upload order. */
  type Files = map<string, seq<UploadedFile>>

  /** The TypeError `files[field][0].path` throws when the field's array is empty. */
  const MissingFileError: string := "Cannot read properties of undefined (reading 'path')"

  /** `filePath(field)`: null for a field with no uploads, else the first upload's path
      with every backslash turned into `/`; an empty array throws. */
  function FilePath(files: Files, field: string): (r: Result<Option<string>, string>)
    ensures r.Err? <==> field in files && |files[field]| == 0
    ensures r.Err? ==> r.error == MissingFileError
    ensures r.Ok? ==> (r.value.None? <==> field !in files)
  {
    if field !in files then Ok(None)
    else if |files[field]| == 0 then Err(MissingFileError)
    else Ok(Some(ReplaceChar(files[field][0].path, '\\', '/')))
  }

  /** A path read from an upload keeps the upload's path except that it holds no
      backslash: each one became a `/`. */
  lemma FilePathSlashes(files: Files, field: string)
    requires FilePath(files, field).Ok? && FilePath(files, field).value.Some?
    ensures var p, q := files[field][0].path, FilePath(files, field).value.value;
            |q| == |p| && '\\' !in q &&
            forall i :: 0 <= i < |p| ==> q[i] == (if p[i] == '\\' then '/' else p[i])
  {
  }

  /** The document fields, in the order the controller reads them. */
  const DocumentFields: seq<string> :=
    ["logo", "tradeLicense", "emiratesIdFront", "emiratesIdBack", "residenceVisa", "passport", "cardOfLaw"]

  /** Reading the paths of `fields` in order; the first throw stops the reading. */
  function FilePaths(files: Files, fields: seq<string>): (r: Result<seq<Option<string>>, string>)
    ensures r.Err? ==> r.error == MissingFileError
    ensures r.Ok? ==> |r.value| == |fields|
  {
    if |fields| == 0 then Ok([])
    else
      var head := FilePath(files, fields[0]);
      if head.Err? then Err(head.error)
      else
        var rest := FilePaths(files, fields[1..]);
        if rest.Err? then Err(rest.error) else Ok([head.value] + rest.value)
  }

  /** The reading succeeds exactly when no field has an empty upload list, and then
      it holds each field's path, in order. */
  lemma {:induction false} FilePathsReadEach(files: Files, fields: seq<string>)
    ensures FilePaths(files, fields).Ok? <==> forall k :: 0 <= k < |fields| ==> FilePath(files, fields[k]).Ok?
    ensures FilePaths(files, fields).Ok? ==>
              forall k :: 0 <= k < |fields| ==> FilePaths(files, fields).value[k] == FilePath(files, fields[k]).value
  {
    if |fields| > 0 {
      FilePathsReadEach(files, fields[1..]);
      var r := FilePaths(files, fields);
      if r.Ok? {
        forall k | 0 <= k < |fields| ensures FilePath(files, fields[k]).Ok? && r.value[k] == FilePath(files, fields[k]).value {
          if k > 0 { assert fields[k] == fields[1..][k - 1]; }
        }
      } else if FilePath(files, fields[0]).Ok? {
        var k :| 0 <= k < |fields[1..]| && !FilePath(files, fields[1..][k]).Ok?;
        assert fields[k + 1] == fields[1..][k];
      }
    }
  }

  /** The required document paths of the schema left empty, in schema order: the
      trade licence, the two sides of the Emirates ID, the passport and the Card of
      Law. */
  function MissingDocuments(paths: seq<Option<string>>): (missing: seq<string>)
    requires |paths| == |DocumentFields|
    ensures |missing| == 0 <==> paths[1].Some? && paths[2].Some? && paths[3].Some? && paths[5].Some? && paths[6].Some?
    ensures |missing| <= 5
  {
    (if paths[1].None? then ["firmDetails.tradeLicense"] else []) +
    (if paths[2].None? then ["ownerDetails.emiratesIdFront"] else []) +
    (if paths[3].None? then ["ownerDetails.emiratesIdBack"] else []) +
    (if paths[5].None? then ["ownerDetails.passport"] else []) +
    (if paths[6].None? then ["ownerDetails.cardOfLaw"] else [])
  }

  // ---------------------------------------------------------------------------
  // Creating the record
  // ---------------------------------------------------------------------------

  /** What a thrown error carries in the 500 reply: the schema paths that failed
      their `required` validator, or the message of any other error. */
  datatype ErrorInfo = MissingPaths(paths: seq<string>) | Thrown(message: string)

  /** The JSON reply of the endpoint. */
  datatype Reply = Reply(status: int, success: bool, message: string, data: Option<FirmAdminRecord>, error: Option<ErrorInfo>)

  const RegisteredMessage: string := "Firm admin registered successfully"
  const RegistrationErrorMessage: string := "Internal server error during firm registration"

  /** The date checks of the chain: every required expiry, and the residence-visa
      expiry when given, is a valid future date. */
  predicate DatesValid(b: RegistrationBody, parse: DateParser, now: Time) {
    IsValidFutureDate(b.tradeLicenseExpiry, parse, now) && IsValidFutureDate(b.emiratesIdExpiry, parse, now) &&
    IsValidFutureDate(b.passportExpiry, parse, now) && IsValidFutureDate(b.cardOfLawExpiry, parse, now) &&
    (VisaGiven(b) ==> IsValidFutureDate(b.residenceVisaExpiry, parse, now))
  }

  /** A request the chain lets through has valid dates. */
  lemma AcceptedDatesValid(b: RegistrationBody, v: Checks, parse: DateParser, now: Time)
    requires Rejection(b, v, parse, now).None?
    ensures DatesValid(b, parse, now)
  {
    FirmStage(b, v, parse, now);
    OwnerStage(b, v, parse, now);
  }

  /** The record built from an admissible request and its document paths, before the
      pre-save hook runs. */
  function AdminFor(b: RegistrationBody, paths: seq<Option<string>>, parse: DateParser, now: Time,
                    id: ObjectId, roleEnv: Option<string>): (r: FirmAdminRecord)
    requires |paths| == |DocumentFields| && |MissingDocuments(paths)| == 0
    requires DatesValid(b, parse, now)
    ensures r.email == NormalEmail(JsString(b.email)) && r.password == JsString(b.password)
    ensures r.firm.tradeLicense == paths[1].value && r.firm.logo == paths[0]
    ensures r.owner.passport == paths[5].value && r.owner.residenceVisa == paths[4]
    ensures r.status == DefaultAdminStatus && r.isActive
  {
    var firm := FirmDetails(JsString(b.lawFirmName), JsString(b.phone), JsString(b.emirate), JsString(b.subscriptionPlan),
                            paths[1].value, parse(b.tradeLicenseExpiry.value).value, paths[0]);
    var owner := OwnerDetails(JsString(b.fullName), JsString(b.ownerPhone), paths[2].value, paths[3].value,
                              parse(b.emiratesIdExpiry.value).value, paths[4],
                              if VisaGiven(b) then Some(parse(b.residenceVisaExpiry.value).value) else None,
                              paths[5].value, parse(b.passportExpiry.value).value,
                              paths[6].value, parse(b.cardOfLawExpiry.value).value);
    NewFirmAdmin(id, firm, owner, JsString(b.email), JsString(b.password), roleEnv, now)
  }

  /** The reply that ends a registration before anything is stored, if any, in
      source order. It is a 500 when the e-mail lookup, which runs once the e-mail and
      the password are valid, rejects; otherwise the first failing check, or a 500 when
      the document paths cannot be read, when a required document is missing (the
      schema's `required` validators), or when the insert fails. */
  function Refusal(b: RegistrationBody, v: Checks, files: Files, parse: DateParser, now: Time,
                   lookupError: Option<string>, storeError: Option<string>): Option<Reply>
  {
    var rejection := Rejection(b, v, parse, now);
    if v.emailValid && v.passwordValid && lookupError.Some? then
      Some(Reply(500, false, RegistrationErrorMessage, None, Some(Thrown(lookupError.value))))
    else if rejection.Some? then Some(Reply(rejection.value.status, false, rejection.value.message, None, None))
    else
      var paths := FilePaths(files, DocumentFields);
      if paths.Err? then Some(Reply(500, false, RegistrationErrorMessage, None, Some(Thrown(paths.error))))
      else if |MissingDocuments(paths.value)| > 0 then
        Some(Reply(500, false, RegistrationErrorMessage, None, Some(MissingPaths(MissingDocuments(paths.value)))))
      else if storeError.Some? then
        Some(Reply(500, false, RegistrationErrorMessage, None, Some(Thrown(storeError.value))))
      else None
  }

  /** What `registerFirmAdmin` replies and the record it stores, if any, given the
      verdicts on the request: the refusal when there is one (the transaction is
      aborted and nothing is stored), otherwise 201 with the record, stored with its
      password hashed by the pre-save hook. */
  function Registration(b: RegistrationBody, v: Checks, files: Files, parse: DateParser, now: Time,
                        id: ObjectId, roleEnv: Option<string>, hash: string -> string,
                        lookupError: Option<string>, storeError: Option<string>): (Reply, Option<FirmAdminRecord>)
  {
    var refusal := Refusal(b, v, files, parse, now, lookupError, storeError);
    if refusal.Some? then (refusal.value, None)
    else
      AcceptedDatesValid(b, v, parse, now);
      var paths := FilePaths(files, DocumentFields).value;
      var stored := AdminFor(b, paths, parse, now, id, roleEnv).(password := hash(JsString(b.password)));
      (Reply(201, true, RegisteredMessage, Some(stored), None), Some(stored))
  }

  /** A record is stored exactly when the reply is 201. That happens exactly when
      the request passes every check, the e-mail lookup succeeds, every document path
      is read and present, and the insert succeeds. Every other reply is a 400, 409 or 500 failure without
      data. */
  lemma RegistrationOutcome(b: RegistrationBody, v: Checks, files: Files, parse: DateParser, now: Time,
                            id: ObjectId, roleEnv: Option<string>, hash: string -> string,
                            lookupError: Option<string>, storeError: Option<string>)
    ensures var out := Registration(b, v, files, parse, now, id, roleEnv, hash, lookupError, storeError);
            (out.1.Some? <==> out.0.status == 201) &&
            out.0.status in {201, 400, 409, 500} &&
            (out.0.status != 201 ==> !out.0.success && out.0.data.None?)
    ensures var out := Registration(b, v, files, parse, now, id, roleEnv, hash, lookupError, storeError);
            out.0.status == 201 <==>
              Admissible(b, v, parse, now) && FilePaths(files, DocumentFields).Ok? &&
              |MissingDocuments(FilePaths(files, DocumentFields).value)| == 0 &&
              lookupError.None? && storeError.None?
  {
    RejectionMatchesChecks(b, v, parse, now);
  }

  /** A rejected e-mail lookup ends the registration with a 500 carrying its message
      and stores nothing, whatever the later checks would have said; before the lookup
      runs (an invalid e-mail or password) it changes nothing. */
  lemma LookupFailureIsServerError(b: RegistrationBody, v: Checks, files: Files, parse: DateParser, now: Time,
                                   id: ObjectId, roleEnv: Option<string>, hash: string -> string,
                                   lookupError: Option<string>, storeError: Option<string>)
    ensures v.emailValid && v.passwordValid && lookupError.Some? ==>
              Registration(b, v, files, parse, now, id, roleEnv, hash, lookupError, storeError) ==
              (Reply(500, false, RegistrationErrorMessage, None, Some(Thrown(lookupError.value))), None)
    ensures !(v.emailValid && v.passwordValid) ==>
              Registration(b, v, files, parse, now, id, roleEnv, hash, lookupError, storeError) ==
              Registration(b, v, files, parse, now, id, roleEnv, hash, None, storeError)
  {
  }

  /** The stored record carries the normalised e-mail, the hashed password, the
      default status and `isActive`, and the reply returns it. */
  lemma RegisteredRecord(b: RegistrationBody, v: Checks, files: Files, parse: DateParser, now: Time,
                         id: ObjectId, roleEnv: Option<string>, hash: string -> string,
                         lookupError: Option<string>, storeError: Option<string>)
    ensures var out := Registration(b, v, files, parse, now, id, roleEnv, hash, lookupError, storeError);
            out.1.Some? ==>
              out.0 == Reply(201, true, RegisteredMessage, out.1, None) &&
              out.1.value.email == NormalEmail(JsString(b.email)) &&
              out.1.value.password == hash(JsString(b.password)) &&
              out.1.value.status == DefaultAdminStatus && out.1.value.isActive
  {
  }

  /** A registration keeps the e-mails of the collection unique: a record is stored
      only when the lookup found none with its e-mail. */
  lemma RegistrationKeepsEmailsUnique(b: RegistrationBody, admins: seq<FirmAdminRecord>, files: Files,
                                      parse: DateParser, now: Time, id: ObjectId, roleEnv: Option<string>,
                                      hash: string -> string, lookupError: Option<string>, storeError: Option<string>)
    requires UniqueEmails(admins)
    ensures var out := Registration(b, ChecksOf(b, admins), files, parse, now, id, roleEnv, hash,
                                    lookupError, storeError);
            UniqueEmails(admins + (if out.1.Some? then [out.1.value] else []))
  {
    var v := ChecksOf(b, admins);
    var out := Registration(b, v, files, parse, now, id, roleEnv, hash, lookupError, storeError);
    if out.1.Some? {
      RegistrationOutcome(b, v, files, parse, now, id, roleEnv, hash, lookupError, storeError);
      RegisteredRecord(b, v, files, parse, now, id, roleEnv, hash, lookupError, storeError);
      NotRegisteredMeansNewEmail(b, admins);
      UniqueEmailsAppend(admins, out.1.value);
    } else {
      assert admins + [] == admins;
    }
  }

  /** `registerFirmAdmin`: replies as `Registration` says for the verdicts on the
      request and appends the record it stores, if any; a refused request leaves the
      collection as it was. */
  method RegisterFirmAdmin(store: FirmAdminStore, b: RegistrationBody, files: Files, parse: DateParser, now: Time,
                           id: ObjectId, roleEnv: Option<string>, hash: string -> string,
                           lookupError: Option<string>, storeError: Option<string>) returns (reply: Reply)
    modifies store
    ensures var out := Registration(b, ChecksOf(b, old(store.admins)), files, parse, now, id, roleEnv, hash,
                                    lookupError, storeError);
            reply == out.0 && store.admins == old(store.admins) + (if out.1.Some? then [out.1.value] else [])
  {
    var checks := ChecksOf(b, store.admins);
    var refusal := Refusal(b, checks, files, parse, now, lookupError, storeError);
    if refusal.Some? {
      return refusal.value;
    }
    var paths := FilePaths(files, DocumentFields).value;
    AcceptedDatesValid(b, checks, parse, now);
    var stored := store.CreateHashed(AdminFor(b, paths, parse, now, id, roleEnv), hash);
    reply := Reply(201, true, RegisteredMessage, Some(stored), None);
  }
}
