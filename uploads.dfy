/**
 * The upload configuration of utils/multerConfig.js and the error handler of
 * utils/multerErrorhandler.js. It covers where an uploaded file is stored
 * (`storage.destination`), which file names pass the extension filter
 * (`fileFilter`), the name a stored file gets (`storage.filename`), the limits,
 * and the reply an upload error produces.
 *
 * The clock (`Date.now()`) and `Math.random()` are parameters. A destination is
 * the list of segments `path.join` receives; directory creation is not modelled.
 */
module Uploads {
  import opened Wrappers
  import opened Strings

  // ---------------------------------------------------------------------------
  // Errors
  // ---------------------------------------------------------------------------

  /** An error handed to the upload error handler: a `MulterError` (its code, its
      `field` when one was given, and its `message`), or any other `Error`. */
  datatype UploadError =
    | MulterError(code: string, field: Option<string>, message: Option<string>)
    | PlainError(text: string)

  /** The message multer's `MulterError` constructor gives each code it knows; other
      codes get no message. */
  function MulterMessage(code: string): Option<string> {
    if code == "LIMIT_PART_COUNT" then Some("Too many parts")
    else if code == "LIMIT_FILE_SIZE" then Some("File too large")
    else if code == "LIMIT_FILE_COUNT" then Some("Too many files")
    else if code == "LIMIT_FIELD_KEY" then Some("Field name too long")
    else if code == "LIMIT_FIELD_VALUE" then Some("Field value too long")
    else if code == "LIMIT_FIELD_COUNT" then Some("Too many fields")
    else if code == "LIMIT_UNEXPECTED_FILE" then Some("Unexpected field")
    else if code == "MISSING_FIELD_NAME" then Some("Field name missing")
    else None
  }

  /** `new multer.MulterError(code, field)`: the field is kept only when it is truthy. */
  function NewMulterError(code: string, field: string): (e: UploadError)
    ensures e.MulterError? && e.code == code && e.message == MulterMessage(code)
    ensures e.field == (if field == "" then None else Some(field))
  {
    MulterError(code, if field == "" then None else Some(field), MulterMessage(code))
  }

  // ---------------------------------------------------------------------------
  // storage.destination
  // ---------------------------------------------------------------------------

  const BaseAdminPath: string := "uploads/firmAdmin"
  const BaseStaffPath: string := "uploads/firmStaff"

  /** Looking a key up in a table of entries (an object literal used as a map). */
  function Lookup(table: seq<(string, string)>, key: string): (r: Option<string>)
    ensures r.Some? <==> exists k :: 0 <= k < |table| && table[k].0 == key
    ensures r.Some? ==> exists k :: 0 <= k < |table| && table[k] == (key, r.value)
  {
    if |table| == 0 then None
    else if table[0].0 == key then Some(table[0].1)
    else
      var r := Lookup(table[1..], key);
      assert forall k :: 1 <= k < |table| ==> table[k] == table[1..][k - 1];
      r
  }

  /** `adminFolderMap`: every admin field has a folder of its own name. */
  const AdminFolders: seq<(string, string)> :=
    [("logo", "logo"), ("tradeLicense", "tradeLicense"), ("emiratesIdFront", "emiratesIdFront"),
     ("emiratesIdBack", "emiratesIdBack"), ("residenceVisa", "residenceVisa"), ("passport", "passport"),
     ("cardOfLaw", "cardOfLaw")]

  /** `staffFolderMap`. */
  const StaffFolders: seq<(string, string)> :=
    [("passportFile", "passport"), ("emiratesIdFrontFile", "emiratesIdFront"),
     ("emiratesIdBackFile", "emiratesIdBack"), ("visaFile", "visa"), ("lawyerIdCardFile", "lawyerIdCard"),
     ("barMembershipCardFile", "barMembershipCard"), ("specializationFiles", "specialization")]

  /** `lawyerOnlyFields`. */
  const LawyerOnlyFields: seq<string> := ["lawyerIdCardFile", "barMembershipCardFile", "specializationFiles"]

  /** The body fields the destination reads. */
  datatype UploadRequest = UploadRequest(uploadType: Option<string>, jobTitle: Option<string>, department: Option<string>)

  /** What the destination callback does: it names a folder, passes an error to
      the callback, or throws. The throw is `path.join` refusing the undefined folder
      of a field `adminFolderMap` does not hold; multer's disk storage calls the
      callback without a `try`, so such a throw escapes the request unanswered. */
  datatype Destination =
    | Folder(segments: seq<string>)
    | Refused(error: UploadError)
    | Throws(message: string)

  const DepartmentRequired: string := "department is required for staff uploads"
  const InvalidUploadType: string := "Invalid uploadType"
  const PathArgumentError: string := "The \"path\" argument must be of type string. Received undefined"

  /** `storage.destination` for a file of field `field`. */
  function UploadDestination(req: UploadRequest, field: string): Destination {
    if req.uploadType == Some("admin") then
      var folder := Lookup(AdminFolders, field);
      if folder.None? then Throws(PathArgumentError) else Folder([BaseAdminPath, folder.value])
    else if req.uploadType == Some("staff") then
      if req.department.None? || req.department.value == "" then Refused(PlainError(DepartmentRequired))
      else if field in LawyerOnlyFields && req.jobTitle != Some("Lawyer") then
        Refused(NewMulterError("LIMIT_UNEXPECTED_FILE", field + " allowed only for Lawyer"))
      else
        var folder := Lookup(StaffFolders, field);
        if folder.None? then Refused(NewMulterError("LIMIT_UNEXPECTED_FILE", field))
        else Folder([BaseStaffPath, req.department.value, folder.value])
    else Refused(PlainError(InvalidUploadType))
  }

  /** An admin file of one of the seven admin fields goes to the folder of the
      field's own name under `uploads/firmAdmin`; an admin file of any other field
      throws. */
  lemma AdminDestinations(req: UploadRequest, field: string)
    requires req.uploadType == Some("admin")
    ensures (exists k :: 0 <= k < |AdminFolders| && AdminFolders[k].0 == field) ==>
              UploadDestination(req, field) == Folder([BaseAdminPath, field])
    ensures (forall k :: 0 <= k < |AdminFolders| ==> AdminFolders[k].0 != field) ==>
              UploadDestination(req, field) == Throws(PathArgumentError)
  {
    var r := Lookup(AdminFolders, field);
    if r.Some? {
      var k :| 0 <= k < |AdminFolders| && AdminFolders[k] == (field, r.value);
      assert AdminFolders[k].0 == AdminFolders[k].1 by {
        assert k < 7;
      }
    }
  }

  /** A staff file with no department is refused whatever its field: the department
      is checked first. Any `uploadType` other than admin and staff is refused. */
  lemma StaffDepartmentFirst(req: UploadRequest, field: string)
    ensures req.uploadType == Some("staff") && (req.department.None? || req.department.value == "") ==>
              UploadDestination(req, field) == Refused(PlainError(DepartmentRequired))
    ensures req.uploadType != Some("staff") && req.uploadType != Some("admin") ==>
              UploadDestination(req, field) == Refused(PlainError(InvalidUploadType))
  {
  }

  /** A staff file that gets a folder goes to `uploads/firmStaff/<department>/<folder>`
      with the folder `staffFolderMap` gives its field, and a lawyer-only field gets
      one only when the job title is "Lawyer". */
  lemma StaffDestinations(req: UploadRequest, field: string)
    requires req.uploadType == Some("staff") && UploadDestination(req, field).Folder?
    ensures var segments := UploadDestination(req, field).segments;
            req.department.Some? && req.department.value != "" &&
            |segments| == 3 && segments[0] == BaseStaffPath && segments[1] == req.department.value &&
            Lookup(StaffFolders, field) == Some(segments[2])
    ensures field in LawyerOnlyFields ==> req.jobTitle == Some("Lawyer")
  {
  }

  /** The lawyer-only folders are reached only when the job title is "Lawyer". */
  lemma LawyerFoldersOnlyForLawyers(req: UploadRequest, field: string)
    requires req.uploadType == Some("staff") && UploadDestination(req, field).Folder?
    requires UploadDestination(req, field).segments[2] in ["lawyerIdCard", "barMembershipCard", "specialization"]
    ensures req.jobTitle == Some("Lawyer")
  {
    var folder := Lookup(StaffFolders, field).value;
    var k :| 0 <= k < |StaffFolders| && StaffFolders[k] == (field, folder);
    assert 4 <= k;
    assert field == LawyerOnlyFields[k - 4];
  }

  // ---------------------------------------------------------------------------
  // fileFilter and storage.filename
  // ---------------------------------------------------------------------------

  const AllowedFileTypes: seq<string> := [".jpg", ".jpeg", ".png", ".pdf"]

  /** The index of the last `c` in `s`, or -1. */
  function LastIndex(s: string, c: char): (i: int)
    ensures -1 <= i < |s|
    ensures i >= 0 ==> s[i] == c
    ensures forall k :: i < k < |s| ==> s[k] != c
  {
    if |s| == 0 then -1 else if s[|s| - 1] == c then |s| - 1 else LastIndex(s[..|s| - 1], c)
  }

  /** The path without its trailing slashes. */
  function DropTrailingSlashes(p: string): (r: string)
    ensures |r| <= |p| && r == p[..|r|]
    ensures r == [] || r[|r| - 1] != '/'
  {
    if |p| > 0 && p[|p| - 1] == '/' then DropTrailingSlashes(p[..|p| - 1]) else p
  }

  /** `path.basename`: the last segment of the path, trailing slashes ignored. */
  function BaseName(p: string): (base: string)
    ensures '/' !in base
  {
    var t := DropTrailingSlashes(p);
    t[LastIndex(t, '/') + 1..]
  }

  /** `path.extname`: the last segment from its last `.` on. It is empty when the
      segment has no `.`, when its only `.` is its first character, and for `..`. */
  function ExtName(p: string): (ext: string)
    ensures ext == [] || ext[0] == '.'
    ensures '/' !in ext
  {
    var base := BaseName(p);
    var dot := LastIndex(base, '.');
    if dot <= 0 || base == ".." then "" else base[dot..]
  }

  /** A path with no `/` is its own base name. */
  lemma BaseNameOfPlainName(p: string)
    requires '/' !in p
    ensures BaseName(p) == p
  {
    if |p| > 0 {
      assert p[|p| - 1] in p;
    }
    assert DropTrailingSlashes(p) == p;
    assert p[0..] == p;
  }

  /** A file name `stem.ext` whose stem is not `.` and holds no `/`, and whose ext
      holds neither `.` nor `/`, has the extension `.ext`. */
  lemma ExtNameOfFileName(stem: string, ext: string)
    requires |stem| > 0 && stem != "." && '/' !in stem && '.' !in ext && '/' !in ext
    ensures ExtName(stem + "." + ext) == "." + ext
  {
    var p := stem + "." + ext;
    assert p[|stem|..] == "." + ext;
    assert '/' !in p by {
      forall k | 0 <= k < |p| ensures p[k] != '/' {
        if k < |stem| { assert p[k] == stem[k]; } else if k > |stem| { assert p[k] == ext[k - |stem| - 1]; }
      }
    }
    BaseNameOfPlainName(p);
    LastDotOfFileName(stem, ext);
    NotDotDot(stem, ext);
    ExtNameAtDot(p, |stem|);
  }

  /** A name with a stem other than `.` before its dot is not `..`. */
  lemma NotDotDot(stem: string, ext: string)
    requires |stem| > 0 && stem != "."
    ensures stem + "." + ext != ".."
  {
    if |stem| == 1 {
      assert stem == [stem[0]];
      assert (stem + "." + ext)[0] == stem[0] != '.';
    }
  }

  /** The extension of a plain name whose last `.` is not its first character. */
  lemma ExtNameAtDot(p: string, dot: int)
    requires BaseName(p) == p && LastIndex(p, '.') == dot && 0 < dot && p != ".."
    ensures ExtName(p) == p[dot..]
  {
  }

  /** The last `.` of `stem.ext` is the one after the stem when ext holds none. */
  lemma LastDotOfFileName(stem: string, ext: string)
    requires '.' !in ext
    ensures LastIndex(stem + "." + ext, '.') == |stem|
  {
    var p := stem + "." + ext;
    var dot := LastIndex(p, '.');
    assert p[|stem|] == '.';
  }

  /** `fileFilter`: a file passes when the lower-cased extension of its original
      name is one of the allowed types; otherwise a `LIMIT_INVALID_FORMAT` error
      carries the original name. Lower-casing is done on ASCII letters: no other
      character lower-cases to a letter of an allowed type, so the verdict is that of
      `toLowerCase`. */
  function FileFilter(originalName: string): (r: Result<bool, UploadError>)
    ensures r.Ok? <==> ToLowerAscii(ExtName(originalName)) in AllowedFileTypes
    ensures r.Ok? ==> r.value
    ensures r.Err? ==> r.error == NewMulterError("LIMIT_INVALID_FORMAT", originalName)
  {
    if ToLowerAscii(ExtName(originalName)) !in AllowedFileTypes then
      Err(NewMulterError("LIMIT_INVALID_FORMAT", originalName))
    else Ok(true)
  }

  /** A plain `stem.ext` name passes the filter exactly when `.ext`, lower-cased, is
      an allowed type, whatever the case of its letters. */
  lemma FilterOnFileName(stem: string, ext: string)
    requires |stem| > 0 && stem != "." && '/' !in stem && '.' !in ext && '/' !in ext
    ensures FileFilter(stem + "." + ext).Ok? <==> "." + ToLowerAscii(ext) in AllowedFileTypes
  {
    ExtNameOfFileName(stem, ext);
    assert ToLowerAscii("." + ext) == "." + ToLowerAscii(ext);
  }

  /** `Math.round(Math.random() * 1e9)` for a random number in [0, 1). */
  function RandomSuffix(random: real): (n: nat)
    requires 0.0 <= random < 1.0
    ensures n <= 1000000000
  {
    (random * 1000000000.0 + 0.5).Floor
  }

  /** `storage.filename`: the field name, the upload time, a random number and the
      lower-cased extension of the original name, joined by `-`. */
  function FileName(field: string, originalName: string, now: nat, random: real): string
    requires 0.0 <= random < 1.0
  {
    field + "-" + NatToDecimal(now) + "-" + NatToDecimal(RandomSuffix(random)) + ToLowerAscii(ExtName(originalName))
  }

  /** The stored name of a file that passed the filter ends with its allowed
      lower-cased extension. */
  lemma FileNameKeepsType(field: string, originalName: string, now: nat, random: real)
    requires 0.0 <= random < 1.0 && FileFilter(originalName).Ok?
    ensures var name, ext := FileName(field, originalName, now, random), ToLowerAscii(ExtName(originalName));
            ext in AllowedFileTypes && |ext| <= |name| && name[|name| - |ext|..] == ext
  {
    var ext := ToLowerAscii(ExtName(originalName));
    var head := field + "-" + NatToDecimal(now) + "-" + NatToDecimal(RandomSuffix(random));
    assert FileName(field, originalName, now, random) == head + ext;
    assert (head + ext)[|head|..] == ext;
  }

  /** The stored name starts with its field name; for a field name without `-` that
      is the whole first `-`-separated piece. */
  lemma FileNameStartsWithField(field: string, originalName: string, now: nat, random: real)
    requires 0.0 <= random < 1.0 && '-' !in field
    ensures Split(FileName(field, originalName, now, random), '-')[0] == field
  {
    var name := FileName(field, originalName, now, random);
    var tail := name[|field|..];
    assert name[..|field|] == field && name[|field|] == '-';
    assert name == field + tail;
    SplitAfterPlainPrefix(field, tail, '-');
    assert Split(tail, '-')[0] == "";
    assert field + "" == field;
  }

  // ---------------------------------------------------------------------------
  // Limits
  // ---------------------------------------------------------------------------

  /** `limits.fileSize`: 5 MiB per file. */
  const MaxFileSize: nat := 5 * 1024 * 1024

  /** `limits.files`: files per request. */
  const MaxFiles: nat := 20

  /** The accepted fields and their `maxCount`, in the order they are listed. */
  const UploadFields: seq<(string, nat)> :=
    [("passportFile", 1), ("emiratesIdFrontFile", 1), ("emiratesIdBackFile", 1), ("visaFile", 1),
     ("lawyerIdCardFile", 1), ("barMembershipCardFile", 1), ("specializationFiles", 10),
     ("logo", 1), ("tradeLicense", 1), ("emiratesIdFront", 1), ("emiratesIdBack", 1),
     ("residenceVisa", 1), ("passport", 1), ("cardOfLaw", 1)]

  /** The fields multer accepts are exactly the fields of the two folder maps: the
      seven staff fields, then the seven admin fields. Each may carry one file, except
      `specializationFiles`, which may carry ten. */
  lemma FieldsMatchFolderMaps()
    ensures |UploadFields| == |StaffFolders| + |AdminFolders|
    ensures forall k :: 0 <= k < |StaffFolders| ==> UploadFields[k].0 == StaffFolders[k].0
    ensures forall k :: 0 <= k < |AdminFolders| ==> UploadFields[|StaffFolders| + k].0 == AdminFolders[k].0
    ensures forall k :: 0 <= k < |UploadFields| ==>
              UploadFields[k].1 == (if UploadFields[k].0 == "specializationFiles" then 10 else 1)
    ensures MaxFileSize == 5242880
  {
  }

  // ---------------------------------------------------------------------------
  // multerErrorHandler
  // ---------------------------------------------------------------------------

  /** The JSON reply of the error handler. */
  datatype HandlerReply = HandlerReply(status: int, success: bool, message: string, error: Option<string>)

  const ServerUploadFailure: string := "Upload failed due to a server error."
  const InvalidTypeMessage: string := "Invalid file type. Only JPG, JPEG, PNG, PDF allowed."

  /** `multerErrorHandler`, with `multer` in scope: a `MulterError` gets 400 and the
      message of its code; any other error gets 500 with its message as `error`. */
  function HandleUploadError(err: UploadError): (r: HandlerReply)
    ensures !r.success
    ensures r.status == (if err.MulterError? then 400 else 500)
    ensures err.MulterError? ==> r.error.None?
    ensures err.PlainError? ==> r.message == ServerUploadFailure && r.error == Some(err.text)
  {
    match err
    case MulterError(code, field, message) =>
      var text :=
        if code == "LIMIT_FILE_SIZE" then "File too large. Max allowed size is 5MB."
        else if code == "LIMIT_UNEXPECTED_FILE" then "Unexpected file field: " + JsString(field)
        else if code == "LIMIT_FILE_COUNT" then "Too many files uploaded."
        else if code == "LIMIT_FIELD_KEY" then "Field name too long."
        else if code == "LIMIT_FIELD_VALUE" then "Field value too long."
        else if code == "LIMIT_INVALID_FORMAT" then InvalidTypeMessage
        else if message.Some? && message.value != "" then message.value
        else "Upload error";
      HandlerReply(400, false, text, None)
    case PlainError(text) => HandlerReply(500, false, ServerUploadFailure, Some(text))
  }

  /** The codes the handler names. */
  const HandledCodes: seq<string> :=
    ["LIMIT_FILE_SIZE", "LIMIT_UNEXPECTED_FILE", "LIMIT_FILE_COUNT", "LIMIT_FIELD_KEY", "LIMIT_FIELD_VALUE",
     "LIMIT_INVALID_FORMAT"]

  /** Multer's other codes keep multer's own message; a code multer does not know has
      none, so the reply says "Upload error". */
  lemma OtherCodesKeepMessage(code: string, field: string)
    requires code !in HandledCodes
    ensures HandleUploadError(NewMulterError(code, field)).message ==
            (if MulterMessage(code).Some? then MulterMessage(code).value else "Upload error")
  {
  }

  /** What a refused destination replies. A staff file without a department, or an
      unknown upload type, gets a 500 with the reason as `error`. A lawyer-only file
      of a non-lawyer, or a field with no staff folder, gets a 400 naming the field. */
  lemma RefusedDestinationReplies(req: UploadRequest, field: string)
    requires UploadDestination(req, field).Refused?
    ensures var r := HandleUploadError(UploadDestination(req, field).error);
            !r.success &&
            (r.status == 500 <==> r.error == Some(DepartmentRequired) || r.error == Some(InvalidUploadType)) &&
            (req.uploadType == Some("staff") && req.department.Some? && req.department.value != "" &&
             field in LawyerOnlyFields && req.jobTitle != Some("Lawyer") ==>
               r == HandlerReply(400, false, "Unexpected file field: " + field + " allowed only for Lawyer", None)) &&
            (req.uploadType == Some("staff") && req.department.Some? && req.department.value != "" &&
             field !in LawyerOnlyFields && field != "" ==>
               r == HandlerReply(400, false, "Unexpected file field: " + field, None))
  {
    var f := field + " allowed only for Lawyer";
    assert f != "" by { assert |f| > 0; }
  }

  /** A file the filter refuses gets a 400 with the fixed invalid-type message. */
  lemma RefusedTypeReply(originalName: string)
    requires FileFilter(originalName).Err?
    ensures HandleUploadError(FileFilter(originalName).error) == HandlerReply(400, false, InvalidTypeMessage, None)
  {
  }

  /** The handler as written: it tests `err instanceof multer.MulterError` while the
      module does not import `multer`, so evaluating the test throws a ReferenceError
      for every error it receives. */
  function HandleUploadErrorAsWritten(err: UploadError): (r: Result<HandlerReply, string>)
    ensures r == Err("multer is not defined")
  {
    Err("multer is not defined")
  }

  /** The handler as written never replies: every error, the multer ones included,
      ends in the ReferenceError instead of the intended 400 or 500 reply. */
  lemma AsWrittenNeverReplies(err: UploadError)
    ensures HandleUploadErrorAsWritten(err).Err?
    ensures HandleUploadErrorAsWritten(err) != Ok(HandleUploadError(err))
  {
  }
}
