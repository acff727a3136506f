/**
 * The firm-staff record of model/firmStaffSchema.js. It covers the `iv:ciphertext`
 * format of the reversible password copy, the enums and defaults, the codes the
 * employee number is made of, and the pre-save hook. The hook encrypts and hashes a
 * modified password and numbers a new employee.
 */
module FirmStaff {
  import opened Wrappers
  import opened Strings
  import opened MailModel
  import opened FirmAdmin

  type Byte = b: int | 0 <= b < 256

  // ---------------------------------------------------------------------------
  // Hex text, as `toString("hex")` writes it and `Buffer.from(_, "hex")` reads it
  // ---------------------------------------------------------------------------

  predicate IsHexDigit(c: char) {
    '0' <= c <= '9' || 'a' <= c <= 'f' || 'A' <= c <= 'F'
  }

  /** The lower-case hex digit of a value below 16. */
  function HexDigit(k: nat): (c: char)
    requires k < 16
    ensures IsHexDigit(c)
  {
    if k < 10 then ('0' as int + k) as char else ('a' as int + k - 10) as char
  }

  /** The value of a hex digit of either case. */
  function HexValue(c: char): (k: nat)
    requires IsHexDigit(c)
    ensures k < 16
  {
    if '0' <= c <= '9' then c as int - '0' as int
    else if 'a' <= c <= 'f' then c as int - 'a' as int + 10
    else c as int - 'A' as int + 10
  }

  /** Hex encoding: two lower-case digits per byte, high half first. */
  function HexEncode(bytes: seq<Byte>): (s: string)
    ensures |s| == 2 * |bytes|
    ensures forall i :: 0 <= i < |s| ==> IsHexDigit(s[i])
  {
    if |bytes| == 0 then "" else [HexDigit(bytes[0] / 16), HexDigit(bytes[0] % 16)] + HexEncode(bytes[1..])
  }

  /** Hex decoding: one byte per pair of digits, stopping at the first pair that is
      not two hex digits; a last odd digit is dropped. */
  function HexDecode(s: string): (bytes: seq<Byte>)
    ensures |bytes| <= |s| / 2
  {
    if |s| < 2 || !IsHexDigit(s[0]) || !IsHexDigit(s[1]) then []
    else [HexValue(s[0]) * 16 + HexValue(s[1])] + HexDecode(s[2..])
  }

  /** Decoding the hex text of a byte string gives the bytes back. */
  lemma {:induction false} HexRoundTrip(bytes: seq<Byte>)
    ensures HexDecode(HexEncode(bytes)) == bytes
  {
    if |bytes| > 0 {
      var b := bytes[0];
      var s := HexEncode(bytes);
      HexRoundTrip(bytes[1..]);
      assert s[2..] == HexEncode(bytes[1..]);
      assert HexValue(s[0]) == b / 16 && HexValue(s[1]) == b % 16;
      assert [b] + bytes[1..] == bytes;
    }
  }

  // ---------------------------------------------------------------------------
  // encryptText / decryptText
  // ---------------------------------------------------------------------------

  /** AES-256-CBC under the configured key, as two functions: the ciphertext of a text
      under an IV, and the text a ciphertext decrypts to under an IV (an error when
      the padding or the UTF-8 does not check out). */
  datatype Cipher = Cipher(
    encrypt: (seq<Byte>, string) -> seq<Byte>,
    decrypt: (seq<Byte>, seq<Byte>) -> Result<string, string>)

  /** A cipher whose decryption undoes its encryption under every 16-byte IV. */
  ghost predicate Inverts(c: Cipher) {
    forall iv: seq<Byte>, t: string :: |iv| == 16 ==> c.decrypt(iv, c.encrypt(iv, t)) == Ok(t)
  }

  /** `createDecipheriv` refuses an IV that is not 16 bytes long. */
  const InvalidIv: string := "Invalid initialization vector"

  /** `decipher.update(undefined, ...)` refuses the missing ciphertext. */
  const MissingCiphertext: string :=
    "The \"data\" argument must be of type string or an instance of Buffer, TypedArray, or DataView. Received undefined"

  /** `encryptText`: the hex of the random 16-byte IV, a colon, and the hex of the
      ciphertext. */
  function EncryptText(text: string, iv: seq<Byte>, c: Cipher): (s: string)
    requires |iv| == 16
    ensures |s| == 33 + 2 * |c.encrypt(iv, text)| && s[32] == ':'
    ensures forall i :: 0 <= i < |s| && i != 32 ==> IsHexDigit(s[i])
  {
    HexEncode(iv) + ":" + HexEncode(c.encrypt(iv, text))
  }

  /** `decryptText`: the text before the first colon is the IV and the text after it,
      up to a second colon, is the ciphertext. */
  function DecryptText(s: string, c: Cipher): Result<string, string> {
    var parts := Split(s, ':');
    var iv := HexDecode(parts[0]);
    if |iv| != 16 then Err(InvalidIv)
    else if |parts| < 2 then Err(MissingCiphertext)
    else c.decrypt(iv, HexDecode(parts[1]))
  }

  /** The encrypted text holds exactly one colon, so splitting it recovers the hex of
      the IV and the hex of the ciphertext. */
  lemma EncryptedFrame(text: string, iv: seq<Byte>, c: Cipher)
    requires |iv| == 16
    ensures Split(EncryptText(text, iv, c), ':') == [HexEncode(iv), HexEncode(c.encrypt(iv, text))]
    ensures Count(EncryptText(text, iv, c), ':') == 1
  {
    var a, b := HexEncode(iv), HexEncode(c.encrypt(iv, text));
    assert ':' !in a && ':' !in b by {
      assert forall i :: 0 <= i < |a| ==> IsHexDigit(a[i]);
      assert forall i :: 0 <= i < |b| ==> IsHexDigit(b[i]);
    }
    assert Join([a, b], ':') == EncryptText(text, iv, c) by {
      assert [a, b][1..] == [b];
    }
    SplitJoin([a, b], ':');
    CountAppend(a + ":", b, ':');
    CountAppend(a, ":", ':');
    CountAbsent(a, ':');
    CountAbsent(b, ':');
  }

  /** Decrypting what `encryptText` produced gives the text back, for a cipher whose
      decryption undoes its encryption. */
  lemma DecryptEncrypt(text: string, iv: seq<Byte>, c: Cipher)
    requires |iv| == 16 && Inverts(c)
    ensures DecryptText(EncryptText(text, iv, c), c) == Ok(text)
  {
    EncryptedFrame(text, iv, c);
    HexRoundTrip(iv);
    HexRoundTrip(c.encrypt(iv, text));
  }

  // ---------------------------------------------------------------------------
  // The record
  // ---------------------------------------------------------------------------

  /** The `employment.department` enum. */
  const Departments: seq<string> := ["HR", "Secretarial", "Legal", "Accounts", "Research", "Lawyer"]

  /** The `status` enum and its default. */
  const StaffStatuses: seq<string> := ["Active", "Onboarding", "Probation", "Leave", "Terminated"]
  const DefaultStaffStatus: string := "Active"

  /** A stored staff member, with the paths the hook and the setters touch. */
  datatype FirmStaffRecord = FirmStaffRecord(
    id: ObjectId,
    firmId: ObjectId,
    fullName: string,
    workEmail: string,
    department: string,
    employeeNumber: Option<string>,
    email: string,
    password: string,
    encryptedPassword: Option<string>,
    status: string,
    isActive: bool)

  /** Creating a record: `workEmail` is trimmed and lower-cased, `email` only
      lower-cased. The status and `isActive` take their defaults, and there is no
      encrypted copy of the password yet. */
  function NewFirmStaff(id: ObjectId, firmId: ObjectId, fullName: string, workEmail: string, department: string,
                        employeeNumber: Option<string>, email: string, password: string): (r: FirmStaffRecord)
    ensures r.id == id && r.firmId == firmId && r.fullName == fullName && r.department == department
    ensures r.employeeNumber == employeeNumber && r.password == password && r.encryptedPassword == None
    ensures r.workEmail == NormalEmail(workEmail) && r.email == ToLowerAscii(email)
    ensures r.status == DefaultStaffStatus && r.status in StaffStatuses && r.isActive
  {
    FirmStaffRecord(id, firmId, fullName, NormalEmail(workEmail), department, employeeNumber,
                    ToLowerAscii(email), password, None, DefaultStaffStatus, true)
  }

  /** `undefined.split(...)`: the error `getDecryptedPassword` throws for a record
      without an encrypted copy. */
  const NoEncryptedCopy: string := "Cannot read properties of undefined (reading 'split')"

  /** `getDecryptedPassword`. */
  function DecryptedPassword(r: FirmStaffRecord, c: Cipher): Result<string, string> {
    if r.encryptedPassword.None? then Err(NoEncryptedCopy) else DecryptText(r.encryptedPassword.value, c)
  }

  // ---------------------------------------------------------------------------
  // Employee numbers
  // ---------------------------------------------------------------------------

  /** The first up-to-three ASCII letters of a name, upper-cased (`firmCode`, `deptCode`). */
  function Code(s: string): (r: string)
    ensures |r| <= 3 && |r| <= |LettersOnly(s)|
    ensures forall i :: 0 <= i < |r| ==> IsAsciiUpper(r[i])
  {
    var letters := LettersOnly(s);
    ToUpperAscii(letters[..if |letters| < 3 then |letters| else 3])
  }

  /** A code is its own code: it is made of at most three upper-case letters. */
  lemma CodeIdempotent(s: string)
    ensures Code(Code(s)) == Code(s)
  {
    var r := Code(s);
    UpperLettersKept(r);
    assert r[..|r|] == r;
    UpperKept(r);
  }

  lemma {:induction false} UpperLettersKept(r: string)
    requires forall i :: 0 <= i < |r| ==> IsAsciiUpper(r[i])
    ensures LettersOnly(r) == r
  {
    if |r| > 0 {
      UpperLettersKept(r[1..]);
      assert [r[0]] + r[1..] == r;
    }
  }

  lemma UpperKept(r: string)
    requires forall i :: 0 <= i < |r| ==> IsAsciiUpper(r[i])
    ensures ToUpperAscii(r) == r
  {
  }

  /** A name that starts with three ASCII letters has those letters, upper-cased, as its code. */
  lemma CodeOfLetters(s: string)
    requires |s| >= 3 && IsAsciiLetter(s[0]) && IsAsciiLetter(s[1]) && IsAsciiLetter(s[2])
    ensures Code(s) == [UpperChar(s[0]), UpperChar(s[1]), UpperChar(s[2])]
  {
    assert LettersOnly(s) == [s[0]] + LettersOnly(s[1..]);
    assert LettersOnly(s[1..]) == [s[1]] + LettersOnly(s[2..]);
    assert LettersOnly(s[2..]) == [s[2]] + LettersOnly(s[3..]);
    assert LettersOnly(s)[..3] == [s[0], s[1], s[2]];
  }

  /** The six departments, and the code of the one whose name is shorter than three
      letters: it is kept whole. */
  lemma DepartmentCodes()
    ensures Departments == ["HR", "Secretarial", "Legal", "Accounts", "Research", "Lawyer"]
    ensures Code("HR") == "HR"
  {
    var w0 := "HR";
    UpperLettersKept(w0);
    assert w0[..2] == w0;
    UpperKept(w0);
  }

  /** The codes of the five departments with longer names: their first three letters,
      upper-cased. */
  lemma LongDepartmentCodes()
    ensures Code("Secretarial") == "SEC" && Code("Legal") == "LEG"
    ensures Code("Accounts") == "ACC" && Code("Research") == "RES" && Code("Lawyer") == "LAW"
  {
    CodeOfLetters("Secretarial");
    CodeOfLetters("Legal");
    CodeOfLetters("Accounts");
    CodeOfLetters("Research");
    CodeOfLetters("Lawyer");
  }

  /** `Math.floor(1000 + Math.random() * 9000)` for a random number in [0, 1). */
  function RandomDigits(random: real): (d: nat)
    requires 0.0 <= random < 1.0
    ensures 1000 <= d <= 9999
  {
    (1000.0 + random * 9000.0).Floor
  }

  /** The employee number `firmCode-deptCode-digits`. */
  function EmployeeNumber(firmName: string, department: string, digits: nat): string {
    Code(firmName) + "-" + Code(department) + "-" + NatToDecimal(digits)
  }

  lemma FourDigits(d: nat)
    requires 1000 <= d <= 9999
    ensures |NatToDecimal(d)| == 4
  {
    var d1 := d / 10;
    var d2 := d1 / 10;
    var d3 := d2 / 10;
    assert 1 <= d3 < 10 && 10 <= d2 < 100 && 100 <= d1 < 1000;
    assert |NatToDecimal(d3)| == 1;
    assert |NatToDecimal(d2)| == 2;
    assert |NatToDecimal(d1)| == 3;
  }

  /** An employee number splits at its two dashes into the firm code, the department
      code and four digits. */
  lemma EmployeeNumberParts(firmName: string, department: string, digits: nat)
    requires 1000 <= digits <= 9999
    ensures Split(EmployeeNumber(firmName, department, digits), '-') ==
            [Code(firmName), Code(department), NatToDecimal(digits)]
    ensures Count(EmployeeNumber(firmName, department, digits), '-') == 2
    ensures |NatToDecimal(digits)| == 4
  {
    var a, b, d := Code(firmName), Code(department), NatToDecimal(digits);
    assert '-' !in a && '-' !in b && '-' !in d by {
      assert forall i :: 0 <= i < |a| ==> IsAsciiUpper(a[i]);
      assert forall i :: 0 <= i < |b| ==> IsAsciiUpper(b[i]);
      assert forall i :: 0 <= i < |d| ==> IsAsciiDigit(d[i]);
    }
    assert Join([a, b, d], '-') == EmployeeNumber(firmName, department, digits) by {
      assert [b, d][1..] == [d];
      assert Join([b, d], '-') == b + ['-'] + d;
      assert [a, b, d][1..] == [b, d];
      assert Join([a, b, d], '-') == a + ['-'] + (b + ['-'] + d);
    }
    SplitJoin([a, b, d], '-');
    CountAppend(a + "-" + b + "-", d, '-');
    CountAppend(a + "-" + b, "-", '-');
    CountAppend(a + "-", b, '-');
    CountAppend(a, "-", '-');
    CountAbsent(a, '-');
    CountAbsent(b, '-');
    CountAbsent(d, '-');
    FourDigits(digits);
  }

  /** The hook numbers a record only when it is new and has no number (absent or
      empty). */
  predicate NeedsEmployeeNumber(isNew: bool, employeeNumber: Option<string>) {
    isNew && (employeeNumber.None? || employeeNumber.value == "")
  }

  /** The error the hook passes on when the record's firm does not exist. */
  const FirmNotFound: string := "Invalid firmId - Firm not found"

  /** A staff document in memory: its record, whether it is new, and whether
      `password` was set since it was loaded. */
  class FirmStaffDoc {
    var record: FirmStaffRecord
    var isNew: bool
    var passwordModified: bool

    constructor (record: FirmStaffRecord, isNew: bool, passwordModified: bool)
      ensures this.record == record && this.isNew == isNew && this.passwordModified == passwordModified
    {
      this.record := record;
      this.isNew := isNew;
      this.passwordModified := passwordModified;
    }

    /** The pre-save hook. A modified password is first encrypted from the plain text
        (`iv` stands for the random IV) and then replaced by its hash (`hash` stands
        for bcrypt with cost 10). A new record without an employee number is given
        one from its firm's name, its department and `random` (`Math.random()`). If
        its firm is not in `admins`, the save fails with `FirmNotFound`, which is
        returned as `error`. `lookupError` is the message of a rejected firm lookup
        (`findById` failing): the save then fails with it, after the password work. */
    method PreSave(admins: seq<FirmAdminRecord>, lookupError: Option<string>, iv: seq<Byte>, c: Cipher,
                   hash: string -> string, random: real)
      returns (error: Option<string>)
      requires |iv| == 16 && 0.0 <= random < 1.0
      modifies this
      ensures isNew == old(isNew) && passwordModified == old(passwordModified)
      ensures record == old(record).(password := record.password, encryptedPassword := record.encryptedPassword,
                                     employeeNumber := record.employeeNumber)
      ensures old(passwordModified) ==>
                record.encryptedPassword == Some(EncryptText(old(record.password), iv, c)) &&
                record.password == hash(old(record.password))
      ensures !old(passwordModified) ==>
                record.encryptedPassword == old(record.encryptedPassword) && record.password == old(record.password)
      ensures old(passwordModified) && Inverts(c) ==> DecryptedPassword(record, c) == Ok(old(record.password))
      ensures !NeedsEmployeeNumber(old(isNew), old(record.employeeNumber)) ==>
                error == None && record.employeeNumber == old(record.employeeNumber)
      ensures NeedsEmployeeNumber(old(isNew), old(record.employeeNumber)) && lookupError.Some? ==>
                error == lookupError && record.employeeNumber == old(record.employeeNumber)
      ensures NeedsEmployeeNumber(old(isNew), old(record.employeeNumber)) && lookupError.None? ==>
                match FindAdminById(admins, old(record.firmId))
                case None => error == Some(FirmNotFound) && record.employeeNumber == old(record.employeeNumber)
                case Some(firm) =>
                  error == None &&
                  record.employeeNumber ==
                    Some(EmployeeNumber(firm.firm.lawFirmName, old(record.department), RandomDigits(random)))
    {
      if passwordModified {
        var plain := record.password;
        record := record.(encryptedPassword := Some(EncryptText(plain, iv, c)));
        record := record.(password := hash(plain));
        if Inverts(c) {
          DecryptEncrypt(plain, iv, c);
        }
      }
      error := None;
      if isNew && (record.employeeNumber.None? || record.employeeNumber.value == "") {
        if lookupError.Some? {
          error := lookupError;
          return;
        }
        var firm := FindAdminById(admins, record.firmId);
        if firm.None? {
          error := Some(FirmNotFound);
          return;
        }
        var digits := RandomDigits(random);
        record := record.(employeeNumber := Some(EmployeeNumber(firm.value.firm.lawFirmName, record.department, digits)));
      }
    }
  }
}
