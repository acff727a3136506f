/**
 * The firm-admin record of model/firmAdminSchema.js. It covers the enums and
 * defaults of the schema and what the `lowercase`/`trim` setters store. It
 * also covers the document methods `toggleActive` and `getFirmLabel`, the
 * pre-save hook that hashes a modified password, and the collection the
 * records are stored in.
 */
module FirmAdmin {
  import opened Wrappers
  import opened Strings
  import opened MailModel

  /** The `emirate` enum of the firm details. */
  const Emirates: seq<string> :=
    ["Abu Dhabi", "Dubai", "Sharjah", "Ajman", "Umm Al-Quwain", "Ras Al Khaimah", "Fujairah"]

  /** The `subscriptionPlan` enum of the firm details. */
  const SubscriptionPlans: seq<string> := ["Gold", "Silver", "Platinum", "Basic"]

  /** The `status` enum of the record and its default. */
  const AdminStatuses: seq<string> := ["pending_verification", "approved", "rejected"]
  const DefaultAdminStatus: string := "pending_verification"

  /** `FIRM_ADMIN_ROLE`: the environment value when it is set and non-empty, else the
      number 800, which the String path stores as "800". */
  function FirmAdminRole(env: Option<string>): string {
    if env.Some? && env.value != "" then env.value else "800"
  }

  /** The firm details, with the paths the registration fills. */
  datatype FirmDetails = FirmDetails(
    lawFirmName: string,
    phone: string,
    emirate: string,
    subscriptionPlan: string,
    tradeLicense: string,
    tradeLicenseExpiry: Time,
    logo: Option<string>)

  /** The owner details, with the paths the registration fills. */
  datatype OwnerDetails = OwnerDetails(
    fullName: string,
    phone: string,
    emiratesIdFront: string,
    emiratesIdBack: string,
    emiratesIdExpiry: Time,
    residenceVisa: Option<string>,
    residenceVisaExpiry: Option<Time>,
    passport: string,
    passportExpiry: Time,
    cardOfLaw: string,
    cardOfLawExpiry: Time)

  /** A stored firm admin. */
  datatype FirmAdminRecord = FirmAdminRecord(
    id: ObjectId,
    firm: FirmDetails,
    owner: OwnerDetails,
    email: string,
    password: string,
    role: string,
    status: string,
    isActive: bool,
    createdAt: Time,
    updatedAt: Time)

  /** The e-mail as the `trim` and `lowercase` setters store it: the trimmed input,
      character by character in lower case. The same setters apply to an equality
      query on the path. */
  function NormalEmail(email: string): (r: string)
    ensures |r| == |Trim(email)| <= |email|
    ensures forall i :: 0 <= i < |r| ==> r[i] == LowerChar(Trim(email)[i])
    ensures forall i :: 0 <= i < |r| ==> !IsAsciiUpper(r[i])
  {
    ToLowerAscii(Trim(email))
  }

  /** Normalising a stored e-mail again leaves it as it is, so a query with a stored
      e-mail looks for that very e-mail. */
  lemma NormalEmailIdempotent(email: string)
    ensures NormalEmail(NormalEmail(email)) == NormalEmail(email)
  {
    var t := Trim(email);
    var r := NormalEmail(email);
    if r != [] {
      assert !IsJsSpace(r[0]) && !IsJsSpace(r[|r| - 1]);
    }
    TrimFixedPoints(r);
    assert Trim(r) == r;
    assert ToLowerAscii(r) == r;
  }

  /** Creating a record: the e-mail and the firm name go through their setters. The
      role, the status and `isActive` take their defaults, and both timestamps are the
      creation time. The password is still the plain one here; the pre-save hook
      replaces it. */
  function NewFirmAdmin(id: ObjectId, firm: FirmDetails, owner: OwnerDetails, email: string, password: string,
                        roleEnv: Option<string>, now: Time): (r: FirmAdminRecord)
    ensures r.id == id && r.owner == owner && r.password == password
    ensures r.firm == firm.(lawFirmName := Trim(firm.lawFirmName))
    ensures r.email == NormalEmail(email)
    ensures r.role == FirmAdminRole(roleEnv)
    ensures r.status == DefaultAdminStatus && r.status in AdminStatuses && r.isActive
    ensures r.createdAt == now && r.updatedAt == now
  {
    FirmAdminRecord(id, firm.(lawFirmName := Trim(firm.lawFirmName)), owner, NormalEmail(email), password,
                    FirmAdminRole(roleEnv), DefaultAdminStatus, true, now, now)
  }

  /** `getFirmLabel`: the firm name followed by the owner's name in parentheses. */
  function FirmLabel(r: FirmAdminRecord): string {
    r.firm.lawFirmName + " (" + r.owner.fullName + ")"
  }

  /** When neither name holds a `(`, the label splits at its one `(` into the firm
      name (with the separating space) and the owner's name (with the closing
      parenthesis), so both names can be read back from it. */
  lemma FirmLabelNames(r: FirmAdminRecord)
    requires '(' !in r.firm.lawFirmName && '(' !in r.owner.fullName
    ensures Split(FirmLabel(r), '(') == [r.firm.lawFirmName + " ", r.owner.fullName + ")"]
  {
    var a, b := r.firm.lawFirmName + " ", r.owner.fullName + ")";
    assert Join([a, b], '(') == a + ['('] + b by {
      assert [a, b][1..] == [b];
    }
    assert FirmLabel(r) == a + ['('] + b;
    SplitJoin([a, b], '(');
  }

  /** A firm-admin document in memory: its record and whether `password` was set
      since it was loaded (`isModified("password")`, true for a new document). */
  class FirmAdminDoc {
    var record: FirmAdminRecord
    var passwordModified: bool

    constructor (record: FirmAdminRecord, passwordModified: bool)
      ensures this.record == record && this.passwordModified == passwordModified
    {
      this.record := record;
      this.passwordModified := passwordModified;
    }

    /** `toggleActive`: negates `isActive`, changes nothing else and returns the new value. */
    method ToggleActive() returns (active: bool)
      modifies this
      ensures record == old(record).(isActive := !old(record.isActive))
      ensures active == record.isActive
      ensures passwordModified == old(passwordModified)
    {
      record := record.(isActive := !record.isActive);
      active := record.isActive;
    }

    /** The pre-save hook: a modified password is replaced by its hash (`hash` stands
        for bcrypt with cost 10). Otherwise the document is left as it is. */
    method PreSave(hash: string -> string)
      modifies this
      ensures old(passwordModified) ==> record == old(record).(password := hash(old(record.password)))
      ensures !old(passwordModified) ==> record == old(record)
      ensures passwordModified == old(passwordModified)
    {
      if passwordModified {
        record := record.(password := hash(record.password));
      }
    }
  }

  /** Toggling twice restores the document: `isActive` and every other field. The
      two calls return opposite values. */
  method ToggleTwice(doc: FirmAdminDoc) returns (first: bool, second: bool)
    modifies doc
    ensures first == !old(doc.record.isActive) && second == old(doc.record.isActive)
    ensures doc.record == old(doc.record) && doc.passwordModified == old(doc.passwordModified)
  {
    first := doc.ToggleActive();
    second := doc.ToggleActive();
  }

  /** The firm-admin collection, in insertion order. */
  class FirmAdminStore {
    var admins: seq<FirmAdminRecord>

    constructor (admins: seq<FirmAdminRecord>)
      ensures this.admins == admins
    {
      this.admins := admins;
    }

    /** `FirmAdmin.create(...)`: appends one record. */
    method Create(r: FirmAdminRecord)
      modifies this
      ensures admins == old(admins) + [r]
    {
      admins := admins + [r];
    }

    /** Saving a new document: the pre-save hook runs first (a new document's password
        counts as modified, so it is hashed), then the record is appended. Returns the
        record as stored. */
    method CreateHashed(r: FirmAdminRecord, hash: string -> string) returns (stored: FirmAdminRecord)
      modifies this
      ensures stored == r.(password := hash(r.password))
      ensures admins == old(admins) + [stored]
    {
      var doc := new FirmAdminDoc(r, true);
      doc.PreSave(hash);
      stored := doc.record;
      Create(stored);
    }
  }

  /** `FirmAdmin.findOne({ email })`: the query value goes through the path's setters,
      so it finds a record whose stored e-mail is the normalised query. */
  function FindByEmail(admins: seq<FirmAdminRecord>, email: string): (r: Option<FirmAdminRecord>)
    ensures r.Some? <==> exists k :: 0 <= k < |admins| && admins[k].email == NormalEmail(email)
    ensures r.Some? ==> r.value in admins && r.value.email == NormalEmail(email)
  {
    if |admins| == 0 then None
    else if admins[0].email == NormalEmail(email) then Some(admins[0])
    else
      var r := FindByEmail(admins[1..], email);
      assert (exists k :: 0 <= k < |admins| && admins[k].email == NormalEmail(email)) ==>
             (exists k :: 0 <= k < |admins[1..]| && admins[1..][k].email == NormalEmail(email)) by {
        if exists k :: 0 <= k < |admins| && admins[k].email == NormalEmail(email) {
          var k :| 0 <= k < |admins| && admins[k].email == NormalEmail(email);
          assert admins[1..][k - 1] == admins[k];
        }
      }
      r
  }

  /** `FirmAdmin.findById(id)`: the first record with that id. */
  function FindAdminById(admins: seq<FirmAdminRecord>, id: ObjectId): (r: Option<FirmAdminRecord>)
    ensures r.Some? <==> exists k :: 0 <= k < |admins| && admins[k].id == id
    ensures r.Some? ==> r.value in admins && r.value.id == id
  {
    if |admins| == 0 then None
    else if admins[0].id == id then Some(admins[0])
    else
      var r := FindAdminById(admins[1..], id);
      assert (exists k :: 0 <= k < |admins| && admins[k].id == id) ==>
             (exists k :: 0 <= k < |admins[1..]| && admins[1..][k].id == id) by {
        if exists k :: 0 <= k < |admins| && admins[k].id == id {
          var k :| 0 <= k < |admins| && admins[k].id == id;
          assert admins[1..][k - 1] == admins[k];
        }
      }
      r
  }

  /** The unique index on `email`: no two records share an e-mail. */
  predicate UniqueEmails(admins: seq<FirmAdminRecord>) {
    forall i, j :: 0 <= i < j < |admins| ==> admins[i].email != admins[j].email
  }

  /** Appending a record whose e-mail no stored record has keeps the e-mails unique. */
  lemma UniqueEmailsAppend(admins: seq<FirmAdminRecord>, r: FirmAdminRecord)
    requires UniqueEmails(admins)
    requires forall k :: 0 <= k < |admins| ==> admins[k].email != r.email
    ensures UniqueEmails(admins + [r])
  {
    var s := admins + [r];
    forall i, j | 0 <= i < j < |s| ensures s[i].email != s[j].email {
      if j == |admins| {
        assert s[i] == admins[i];
      } else {
        assert s[i] == admins[i] && s[j] == admins[j];
      }
    }
  }
}
