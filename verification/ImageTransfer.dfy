/** An image on its way from the guest to the host over REST: the request is built,
    written as a form, read again and stored as a host image. */
module ImageTransfer {
  import opened Basics
  import opened Naming

  datatype RepoLocation = RepoLocation(password: string, url: string, token: string, userName: string)

  datatype OsType = OsType(architecture: string, distribution: string, license: string, version: string)

  datatype ImageBody = ImageBody(
    provider: string, name: string, versionInfo: string, imageType: string, repoType: string,
    repo: Option<RepoLocation>, arch: string, os: Option<OsType>)

  datatype ImageSpec = ImageSpec(
    relation: string, imageId: string, ctx: string, notifLink: string, body: Option<ImageBody>)

  const NO_OS := OsType("", "", "", "")

  const NO_REPO := RepoLocation("", "", "", "")

  // ---------------------------------------------------------------- the request

  datatype WireRepo = WireRepo(
    password: Option<string>, url: Option<string>, token: Option<string>, userName: Option<string>)

  datatype Request = Request(
    provider: string, checksum: Option<string>, description: Option<string>, fileId: string, fileName: string,
    repo: Option<WireRepo>, fileType: string, versionInfo: string, arch: string, os: OsType,
    repoType: Option<string>, notifLink: Option<string>)

  /** The fields of the form, in the order they are written. */
  datatype Field =
    | AppProviderId | Checksum | FileDescription | FileId | FileName | FileRepoLocation | FileType
    | FileVersionInfo | ImgInsSetArch | ImgOSType | RepoType | FileNotifLink

  const FIELDS: seq<Field> :=
    [AppProviderId, Checksum, FileDescription, FileId, FileName, FileRepoLocation, FileType,
     FileVersionInfo, ImgInsSetArch, ImgOSType, RepoType, FileNotifLink]

  /** Indexed on the server without a check. */
  const REQUIRED: set<Field> := {AppProviderId, FileId, FileName, FileType, FileVersionInfo, ImgInsSetArch}

  datatype Part = Part(field: Field, value: string)

  /** JSON encoding of the two structured fields; reading is partial. */
  datatype Json = Json(
    writeRepo: Option<WireRepo> -> string, readRepo: string -> Option<Option<WireRepo>>,
    writeOs: OsType -> string, readOs: string -> Option<OsType>)

  /** What is written is read back. */
  ghost predicate Inverse(json: Json) {
    && (forall repo :: json.readRepo(json.writeRepo(repo)) == Some(repo))
    && (forall os :: json.readOs(json.writeOs(os)) == Some(os))
  }

  function WireRepoOf(repo: Option<RepoLocation>): WireRepo {
    match repo
    case Some(r) => WireRepo(Some(r.password), Some(r.url), Some(r.token), Some(r.userName))
    case None => WireRepo(None, None, None, None)
  }

  /** The links are always set, the checksum and the description never. */
  function RequestOf(spec: ImageSpec, body: ImageBody): Request {
    Request(body.provider, None, None, spec.imageId, body.name, Some(WireRepoOf(body.repo)), body.imageType,
            body.versionInfo, body.arch, if body.os.Some? then body.os.value else NO_OS,
            Some(body.repoType), Some(spec.notifLink))
  }

  method BuildRequest(spec: ImageSpec) returns (request: Option<Request>)
    ensures request == if spec.body.Some? then Some(RequestOf(spec, spec.body.value)) else None
  {
    if spec.body.None? {
      return None;
    }
    var body := spec.body.value;
    var repoLocation := WireRepo(None, None, None, None);
    if body.repo.Some? {
      var r := body.repo.value;
      repoLocation := WireRepo(Some(r.password), Some(r.url), Some(r.token), Some(r.userName));
    }
    var osType := NO_OS;
    if body.os.Some? {
      osType := body.os.value;
    }
    var arch, uri := "", "";
    if body.arch != "" {
      arch := body.arch;
    }
    if spec.notifLink != "" {
      uri := spec.notifLink;
    }
    request := Some(Request(body.provider, None, None, spec.imageId, body.name, Some(repoLocation), body.imageType,
                            body.versionInfo, arch, osType, Some(body.repoType), Some(uri)));
  }

  // ---------------------------------------------------------------- writing the form

  function NonEmpty(s: string): Option<string> {
    if s == "" then None else Some(s)
  }

  function NonEmptyPtr(s: Option<string>): Option<string> {
    if s.Some? then NonEmpty(s.value) else None
  }

  /** The value a field travels with, if any. */
  function Sent(r: Request, json: Json, field: Field): Option<string> {
    match field
    case AppProviderId => NonEmpty(r.provider)
    case Checksum => NonEmptyPtr(r.checksum)
    case FileDescription => NonEmptyPtr(r.description)
    case FileId => NonEmpty(r.fileId)
    case FileName => NonEmpty(r.fileName)
    case FileRepoLocation => Some(json.writeRepo(r.repo))
    case FileType => NonEmpty(r.fileType)
    case FileVersionInfo => NonEmpty(r.versionInfo)
    case ImgInsSetArch => NonEmpty(r.arch)
    case ImgOSType => if r.os == NO_OS then None else Some(json.writeOs(r.os))
    case RepoType => NonEmptyPtr(r.repoType)
    case FileNotifLink => NonEmptyPtr(r.notifLink)
  }

  function PartOf(field: Field, value: Option<string>): seq<Part> {
    if value.Some? then [Part(field, value.value)] else []
  }

  /** The parts of the first fields, in order. */
  function Form(r: Request, json: Json, fields: seq<Field>): seq<Part> {
    if fields == [] then []
    else Form(r, json, fields[..|fields| - 1]) +
         PartOf(fields[|fields| - 1], Sent(r, json, fields[|fields| - 1]))
  }

  class FormWriter {
    var parts: seq<Part>

    constructor ()
      ensures parts == []
    {
      parts := [];
    }

    method AddFormField(field: Field, value: string)
      modifies this
      ensures parts == old(parts) + PartOf(field, NonEmpty(value))
    {
      if value != "" {
        parts := parts + [Part(field, value)];
      }
    }

    method AddFormFieldPtr(field: Field, value: Option<string>)
      modifies this
      ensures parts == old(parts) + PartOf(field, NonEmptyPtr(value))
    {
      if value.Some? && value.value != "" {
        AddFormField(field, value.value);
      }
    }

    /** The location is compared with the address of a new empty one, so it is written
        even when it is empty or missing. */
    method AddObjectRepoLocationFormField(field: Field, repo: Option<WireRepo>, json: Json)
      modifies this
      ensures parts == old(parts) + [Part(field, json.writeRepo(repo))]
    {
      parts := parts + [Part(field, json.writeRepo(repo))];
    }

    method AddOSTypeFormField(field: Field, os: OsType, json: Json)
      modifies this
      ensures parts == old(parts) + PartOf(field, if os == NO_OS then None else Some(json.writeOs(os)))
    {
      if os != NO_OS {
        parts := parts + [Part(field, json.writeOs(os))];
      }
    }

    method Serialize(r: Request, json: Json)
      requires parts == []
      modifies this
      ensures parts == Form(r, json, FIELDS)
    {
      assert FIELDS[..0] == [];
      AddIdentity(r, json);
      AddFile(r, json);
      AddFormat(r, json);
      AddLinks(r, json);
      assert FIELDS[..12] == FIELDS;
    }

    method AddIdentity(r: Request, json: Json)
      requires parts == Form(r, json, FIELDS[..0])
      modifies this
      ensures parts == Form(r, json, FIELDS[..3])
    {
      AddFormField(AppProviderId, r.provider);
      AddFormFieldPtr(Checksum, r.checksum);
      AddFormFieldPtr(FileDescription, r.description);
      ThreeFields(r, json, 0);
    }

    method AddFile(r: Request, json: Json)
      requires parts == Form(r, json, FIELDS[..3])
      modifies this
      ensures parts == Form(r, json, FIELDS[..6])
    {
      AddFormField(FileId, r.fileId);
      AddFormField(FileName, r.fileName);
      AddObjectRepoLocationFormField(FileRepoLocation, r.repo, json);
      ThreeFields(r, json, 3);
    }

    method AddFormat(r: Request, json: Json)
      requires parts == Form(r, json, FIELDS[..6])
      modifies this
      ensures parts == Form(r, json, FIELDS[..9])
    {
      AddFormField(FileType, r.fileType);
      AddFormField(FileVersionInfo, r.versionInfo);
      AddFormField(ImgInsSetArch, r.arch);
      ThreeFields(r, json, 6);
    }

    method AddLinks(r: Request, json: Json)
      requires parts == Form(r, json, FIELDS[..9])
      modifies this
      ensures parts == Form(r, json, FIELDS[..12])
    {
      AddOSTypeFormField(ImgOSType, r.os, json);
      if r.repoType.Some? {
        AddFormField(RepoType, r.repoType.value);
      }
      if r.notifLink.Some? {
        AddFormField(FileNotifLink, r.notifLink.value);
      }
      ThreeFields(r, json, 9);
    }
  }

  lemma FormStep(r: Request, json: Json, k: nat)
    requires k < |FIELDS|
    ensures Form(r, json, FIELDS[..k + 1]) == Form(r, json, FIELDS[..k]) + PartOf(FIELDS[k], Sent(r, json, FIELDS[k]))
  {
    assert FIELDS[..k + 1][..k] == FIELDS[..k];
  }

  lemma ThreeFields(r: Request, json: Json, k: nat)
    requires k + 3 <= |FIELDS|
    ensures Form(r, json, FIELDS[..k + 3]) ==
            Form(r, json, FIELDS[..k]) + PartOf(FIELDS[k], Sent(r, json, FIELDS[k])) +
            PartOf(FIELDS[k + 1], Sent(r, json, FIELDS[k + 1])) + PartOf(FIELDS[k + 2], Sent(r, json, FIELDS[k + 2]))
  {
    FormStep(r, json, k);
    FormStep(r, json, k + 1);
    FormStep(r, json, k + 2);
  }

  // ---------------------------------------------------------------- reading the form

  /** All values of a field, in the order of the parts. */
  function Values(parts: seq<Part>, field: Field): seq<string> {
    if parts == [] then []
    else Values(parts[..|parts| - 1], field) +
         (if parts[|parts| - 1].field == field then [parts[|parts| - 1].value] else [])
  }

  /** The parsed form: fields that occur, with their values. */
  function FormOf(parts: seq<Part>): map<Field, seq<string>> {
    map p | p in parts :: p.field := Values(parts, p.field)
  }

  function First(form: map<Field, seq<string>>, field: Field): Option<string> {
    if field in form && |form[field]| > 0 then Some(form[field][0]) else None
  }

  /** A missing required field indexes an empty list and aborts the handler. */
  datatype Reading = Parsed(request: Request) | Rejected | Aborted

  predicate LacksRequired(form: map<Field, seq<string>>) {
    exists f :: f in REQUIRED && First(form, f).None?
  }

  function ReadRequest(form: map<Field, seq<string>>, json: Json): Reading {
    if LacksRequired(form) then Aborted
    else
      var location, os := First(form, FileRepoLocation), First(form, ImgOSType);
      if location.Some? && json.readRepo(location.value).None? then Rejected
      else if os.None? || json.readOs(os.value).None? then Rejected
      else Parsed(Request(
        First(form, AppProviderId).value, None, None, First(form, FileId).value, First(form, FileName).value,
        if location.Some? then json.readRepo(location.value).value else None,
        First(form, FileType).value, First(form, FileVersionInfo).value, First(form, ImgInsSetArch).value,
        json.readOs(os.value).value, First(form, RepoType), First(form, FileNotifLink)))
  }

  lemma RequiredFields(form: map<Field, seq<string>>)
    ensures LacksRequired(form) <==>
            || First(form, AppProviderId).None? || First(form, FileId).None? || First(form, FileName).None?
            || First(form, FileType).None? || First(form, FileVersionInfo).None? || First(form, ImgInsSetArch).None?
  {
    assert forall f :: f in REQUIRED <==> f == AppProviderId || f == FileId || f == FileName || f == FileType
                                          || f == FileVersionInfo || f == ImgInsSetArch;
  }

  method NewUploadFileMultipartBody(form: map<Field, seq<string>>, json: Json) returns (reading: Reading)
    ensures reading == ReadRequest(form, json)
  {
    var provider, id, name := First(form, AppProviderId), First(form, FileId), First(form, FileName);
    var kind, version, arch := First(form, FileType), First(form, FileVersionInfo), First(form, ImgInsSetArch);
    assert LacksRequired(form) <==>
      (provider.None? || id.None? || name.None? || kind.None? || version.None? || arch.None?) by {
      RequiredFields(form);
    }
    if provider.None? || id.None? || name.None? || kind.None? || version.None? || arch.None? {
      return Aborted;
    }
    var body := Request(provider.value, None, None, id.value, name.value, None, kind.value, version.value,
                        arch.value, NO_OS, None, None);
    if FileNotifLink in form && |form[FileNotifLink]| > 0 {
      body := body.(notifLink := Some(form[FileNotifLink][0]));
    }
    if RepoType in form && |form[RepoType]| > 0 {
      body := body.(repoType := Some(form[RepoType][0]));
    }
    if FileRepoLocation in form && |form[FileRepoLocation]| > 0 {
      var repo := json.readRepo(form[FileRepoLocation][0]);
      if repo.None? {
        return Rejected;
      }
      body := body.(repo := repo.value);
    }
    if ImgOSType in form && |form[ImgOSType]| > 0 {
      var os := json.readOs(form[ImgOSType][0]);
      if os.None? {
        return Rejected;
      }
      body := body.(os := os.value);
    } else {
      return Rejected;
    }
    reading := Parsed(body);
  }

  // ---------------------------------------------------------------- storing the image

  function Default(s: Option<string>): string {
    if s.Some? then s.value else ""
  }

  function StoredRepo(repo: Option<WireRepo>): Option<RepoLocation> {
    match repo
    case Some(r) => Some(RepoLocation(Default(r.password), Default(r.url), Default(r.token), Default(r.userName)))
    case None => None
  }

  function HostImage(r: Request, ctx: string): ImageSpec {
    ImageSpec("HOST", r.fileId, ctx, Default(r.notifLink),
              Some(ImageBody(r.provider, r.fileName, r.versionInfo, r.fileType, Default(r.repoType),
                             StoredRepo(r.repo), r.arch, Some(r.os))))
  }

  function ImageName(hash: string -> string, ctx: string, fileId: string): string {
    "image-" + hash(ctx + fileId)
  }

  /** How the host answers an upload. */
  datatype Upload = Stored | NotHosted | AlreadyExists | Refused

  /** The host's store: its images by name, and the context ids of its HOST federations. */
  class MetaStore {
    var images: map<string, ImageSpec>
    const hosted: set<string>
    const hash: string -> string

    constructor (hosted: set<string>, hash: string -> string)
      ensures images == map[] && this.hosted == hosted && this.hash == hash
    {
      images := map[];
      this.hosted := hosted;
      this.hash := hash;
    }

    /** `apiOk` is the outcome of the create call when the name is free. */
    method UploadImage(r: Request, ctx: string, apiOk: bool) returns (upload: Upload)
      modifies this`images
      ensures upload == if ctx !in hosted then NotHosted
                        else if ImageName(hash, ctx, r.fileId) in old(images) then AlreadyExists
                        else if apiOk then Stored else Refused
      ensures images == if upload.Stored? then old(images)[ImageName(hash, ctx, r.fileId) := HostImage(r, ctx)]
                        else old(images)
    {
      if ctx !in hosted {
        return NotHosted;
      }
      var name := ImageName(hash, ctx, r.fileId);
      var repoType := "";
      if r.repoType.Some? {
        repoType := r.repoType.value;
      }
      var repoLocation: Option<RepoLocation> := None;
      if r.repo.Some? {
        var w := r.repo.value;
        repoLocation := Some(RepoLocation(Default(w.password), Default(w.url), Default(w.token), Default(w.userName)));
      }
      var callbackLink := "";
      if r.notifLink.Some? {
        callbackLink := r.notifLink.value;
      }
      if name in images {
        return AlreadyExists;
      }
      if !apiOk {
        return Refused;
      }
      images := images[name := ImageSpec("HOST", r.fileId, ctx, callbackLink,
        Some(ImageBody(r.provider, r.fileName, r.versionInfo, r.fileType, repoType, repoLocation, r.arch,
                       Some(r.os))))];
      upload := Stored;
    }

    /** The handler: what cannot be read is a bad request, an abort drops the connection. */
    method UploadFile(form: map<Field, seq<string>>, json: Json, ctx: string, apiOk: bool) returns (response: Response)
      modifies this`images
      ensures match ReadRequest(form, json)
        case Aborted => response == NoAnswer && images == old(images)
        case Rejected => response == Status(400, Some(UNREADABLE)) && images == old(images)
        case Parsed(r) =>
          var name := ImageName(hash, ctx, r.fileId);
          if ctx in hosted && name !in old(images) && apiOk
          then response == Status(200, None) && images == old(images)[name := HostImage(r, ctx)]
          else && images == old(images)
               && response == Status(if ctx in hosted && name in old(images) then 409 else 500,
                                     Some(if ctx in hosted then TAKEN else UNKNOWN_FEDERATION))
    {
      var reading := NewUploadFileMultipartBody(form, json);
      match reading
      case Aborted => return NoAnswer;
      case Rejected => return Status(400, Some(UNREADABLE));
      case Parsed(r) =>
        var upload := UploadImage(r, ctx, apiOk);
        match upload
        case Stored => response := Status(200, None);
        case AlreadyExists => response := Status(409, Some(TAKEN));
        case NotHosted => response := Status(500, Some(UNKNOWN_FEDERATION));
        case Refused => response := Status(500, Some(TAKEN));
    }
  }

  /** What the client sees: a status code with the detail of a problem, if one could be
      read, or a failed exchange. */
  datatype Response = Status(code: nat, detail: Option<string>) | NoAnswer

  /** Details the host gives; they only matter where the client looks for "file not found". */
  const UNREADABLE := "missing required field imgOSType"
  const TAKEN := "Failed to create"
  const UNKNOWN_FEDERATION := "Federation not found"
  const FILE_NOT_FOUND := "file not found"

  // ---------------------------------------------------------------- end to end

  /** The images that survive the transfer. */
  predicate Transferable(spec: ImageSpec) {
    && spec.body.Some?
    && var b := spec.body.value;
    && spec.imageId != "" && b.provider != "" && b.name != "" && b.imageType != ""
    && b.versionInfo != "" && b.arch != "" && b.os.Some? && b.os.value != NO_OS
  }

  /** The host's view of an image: the same, with an absent location made empty. */
  function Received(spec: ImageSpec): ImageSpec
    requires spec.body.Some?
  {
    var b := spec.body.value;
    spec.(relation := "HOST", body := Some(b.(repo := if b.repo.Some? then b.repo else Some(NO_REPO))))
  }

  function Position(field: Field): nat {
    match field
    case AppProviderId => 0
    case Checksum => 1
    case FileDescription => 2
    case FileId => 3
    case FileName => 4
    case FileRepoLocation => 5
    case FileType => 6
    case FileVersionInfo => 7
    case ImgInsSetArch => 8
    case ImgOSType => 9
    case RepoType => 10
    case FileNotifLink => 11
  }

  /** Every field is written once. */
  lemma EachFieldOnce(field: Field)
    ensures Position(field) < |FIELDS| && FIELDS[Position(field)] == field
    ensures forall i :: 0 <= i < |FIELDS| && FIELDS[i] == field ==> i == Position(field)
  {
  }

  lemma ValuesOfPart(before: seq<Part>, f: Field, value: Option<string>, field: Field)
    ensures Values(before + PartOf(f, value), field) ==
            Values(before, field) + (if f == field && value.Some? then [value.value] else [])
  {
    var part := PartOf(f, value);
    if part == [] {
      assert before + part == before;
    } else {
      assert (before + part)[..|before|] == before;
    }
  }

  lemma {:induction false} FormValues(r: Request, json: Json, k: nat, field: Field)
    requires k <= |FIELDS|
    ensures Values(Form(r, json, FIELDS[..k]), field) ==
            if Position(field) < k && Sent(r, json, field).Some? then [Sent(r, json, field).value] else []
  {
    if k > 0 {
      FormValues(r, json, k - 1, field);
      FormStep(r, json, k - 1);
      var f := FIELDS[k - 1];
      ValuesOfPart(Form(r, json, FIELDS[..k - 1]), f, Sent(r, json, f), field);
      EachFieldOnce(field);
    }
  }

  lemma {:induction false} ValuesOfAbsent(parts: seq<Part>, field: Field)
    ensures Values(parts, field) != [] <==> exists p :: p in parts && p.field == field
  {
    if parts != [] {
      var front, last := parts[..|parts| - 1], parts[|parts| - 1];
      ValuesOfAbsent(front, field);
      assert parts == front + [last];
      assert last in parts;
    }
  }

  /** Every field arrives with exactly the value it was sent with. */
  lemma FieldsArrive(r: Request, json: Json, field: Field)
    ensures First(FormOf(Form(r, json, FIELDS)), field) == Sent(r, json, field)
  {
    var parts := Form(r, json, FIELDS);
    assert FIELDS[..|FIELDS|] == FIELDS;
    FormValues(r, json, |FIELDS|, field);
    EachFieldOnce(field);
    ValuesOfAbsent(parts, field);
    if Sent(r, json, field).Some? {
      var p :| p in parts && p.field == field;
      assert p.field in FormOf(parts);
    }
  }

  lemma RequiredArrive(r: Request, form: map<Field, seq<string>>, json: Json)
    requires forall f: Field :: First(form, f) == Sent(r, json, f)
    ensures LacksRequired(form) <==>
      r.provider == "" || r.fileId == "" || r.fileName == "" || r.fileType == "" || r.versionInfo == "" || r.arch == ""
  {
    RequiredFields(form);
  }

  lemma RequestReadsBack(r: Request, form: map<Field, seq<string>>, json: Json)
    requires Inverse(json) && forall f: Field :: First(form, f) == Sent(r, json, f)
    requires !LacksRequired(form)
    ensures ReadRequest(form, json) ==
            if r.os == NO_OS then Rejected
            else Parsed(r.(checksum := None, description := None,
                           repoType := NonEmptyPtr(r.repoType), notifLink := NonEmptyPtr(r.notifLink)))
  {
    RequiredArrive(r, form, json);
    RepoArrives(r, form, json);
    if r.os != NO_OS {
      assert First(form, ImgOSType) == Some(json.writeOs(r.os));
      assert json.readOs(json.writeOs(r.os)) == Some(r.os);
    }
  }

  lemma RepoArrives(r: Request, form: map<Field, seq<string>>, json: Json)
    requires Inverse(json) && forall f: Field :: First(form, f) == Sent(r, json, f)
    ensures First(form, FileRepoLocation).Some?
    ensures json.readRepo(First(form, FileRepoLocation).value) == Some(r.repo)
  {
    assert First(form, FileRepoLocation) == Some(json.writeRepo(r.repo));
  }

  /** Form round trip of any request: it aborts on a missing required text, is rejected
      without an OS type, and otherwise comes back; optional texts that are empty come
      back absent, checksum and description are not read. */
  lemma RequestRoundTrip(r: Request, json: Json, form: map<Field, seq<string>>)
    requires Inverse(json) && form == FormOf(Form(r, json, FIELDS))
    ensures ReadRequest(form, json) ==
            if r.provider == "" || r.fileId == "" || r.fileName == "" || r.fileType == ""
               || r.versionInfo == "" || r.arch == ""
            then Aborted
            else if r.os == NO_OS then Rejected
            else Parsed(r.(checksum := None, description := None,
                           repoType := NonEmptyPtr(r.repoType), notifLink := NonEmptyPtr(r.notifLink)))
  {
    forall f: Field ensures First(form, f) == Sent(r, json, f) {
      FieldsArrive(r, json, f);
    }
    RequiredArrive(r, form, json);
    if !LacksRequired(form) {
      RequestReadsBack(r, form, json);
    }
  }

  /** What goes over the wire: each text under its field, empty ones left out. */
  lemma WireTexts(spec: ImageSpec, body: ImageBody, json: Json, form: map<Field, seq<string>>, f: Field)
    requires form == FormOf(Form(RequestOf(spec, body), json, FIELDS))
    requires f != ImgOSType && f != FileRepoLocation
    ensures First(form, f) == match f {
        case AppProviderId => NonEmpty(body.provider)
        case FileId => NonEmpty(spec.imageId)
        case FileName => NonEmpty(body.name)
        case FileType => NonEmpty(body.imageType)
        case FileVersionInfo => NonEmpty(body.versionInfo)
        case ImgInsSetArch => NonEmpty(body.arch)
        case RepoType => NonEmpty(body.repoType)
        case FileNotifLink => NonEmpty(spec.notifLink)
        case _ => None
      }
  {
    FieldsArrive(RequestOf(spec, body), json, f);
  }

  /** The OS type travels as JSON unless it is absent or empty. */
  lemma WireOs(spec: ImageSpec, body: ImageBody, json: Json)
    ensures Sent(RequestOf(spec, body), json, ImgOSType) ==
            if body.os.None? || body.os == Some(OsType("", "", "", "")) then None else Some(json.writeOs(body.os.value))
  {
  }

  /** The location travels always: an absent one as an object without members. */
  lemma WireLocation(spec: ImageSpec, body: ImageBody, json: Json)
    ensures body.repo.None? ==>
      Sent(RequestOf(spec, body), json, FileRepoLocation) ==
      Some(json.writeRepo(Some(WireRepo(None, None, None, None))))
    ensures body.repo.Some? ==>
      var repo := body.repo.value;
      Sent(RequestOf(spec, body), json, FileRepoLocation) ==
      Some(json.writeRepo(Some(WireRepo(Some(repo.password), Some(repo.url), Some(repo.token), Some(repo.userName)))))
  {
  }

  /** What the host stores of a request, member by member. */
  lemma StoredContents(r: Request, ctx: string, body: ImageBody)
    requires HostImage(r, ctx).body == Some(body)
    ensures HostImage(r, ctx).relation == "HOST"
    ensures HostImage(r, ctx).ctx == ctx && HostImage(r, ctx).imageId == r.fileId
    ensures r.notifLink.Some? ==> HostImage(r, ctx).notifLink == r.notifLink.value
    ensures r.notifLink.None? ==> HostImage(r, ctx).notifLink == ""
    ensures body.provider == r.provider && body.name == r.fileName && body.versionInfo == r.versionInfo
    ensures body.imageType == r.fileType && body.arch == r.arch && body.os == Some(r.os)
    ensures r.repoType == Some(body.repoType) || (r.repoType == None && body.repoType == "")
    ensures match r.repo
      case None => body.repo == None
      case Some(w) =>
        && body.repo.Some?
        && (w.password.Some? ==> body.repo.value.password == w.password.value)
        && (w.url.Some? ==> body.repo.value.url == w.url.value)
        && (w.token.Some? ==> body.repo.value.token == w.token.value)
        && (w.userName.Some? ==> body.repo.value.userName == w.userName.value)
        && (w == WireRepo(None, None, None, None) ==> body.repo.value == RepoLocation("", "", "", ""))
  {
  }

  /** The request of an image is accepted exactly when the image is transferable. */
  lemma TransferAccepted(spec: ImageSpec, json: Json, reading: Reading)
    requires Inverse(json) && spec.body.Some? && Arrives(RequestOf(spec, spec.body.value), json, reading)
    ensures reading.Parsed? <==> Transferable(spec)
  {
    var r := RequestOf(spec, spec.body.value);
    RequestRoundTrip(r, json, FormOf(Form(r, json, FIELDS)));
  }

  /** The transfer preserves meaning: what is accepted is stored as the same image. */
  lemma TransferPreserves(spec: ImageSpec, json: Json, reading: Reading)
    requires Inverse(json) && spec.body.Some? && Arrives(RequestOf(spec, spec.body.value), json, reading)
    requires reading.Parsed?
    ensures HostImage(reading.request, spec.ctx) == Received(spec)
  {
    var r := RequestOf(spec, spec.body.value);
    RequestRoundTrip(r, json, FormOf(Form(r, json, FIELDS)));
  }

  /** What the server reads of a request. */
  predicate Arrives(r: Request, json: Json, reading: Reading) {
    reading == ReadRequest(FormOf(Form(r, json, FIELDS)), json)
  }

  /** Two uploads meet in one host image only for the same context and file. */
  lemma ImageNameInjective(hash: string -> string, ctx1: string, id1: string, ctx2: string, id2: string)
    requires forall s, t :: hash(s) == hash(t) ==> s == t
    requires |ctx1| == |ctx2|
    ensures ImageName(hash, ctx1, id1) == ImageName(hash, ctx2, id2) <==> ctx1 == ctx2 && id1 == id2
  {
    var n1, n2 := ImageName(hash, ctx1, id1), ImageName(hash, ctx2, id2);
    if n1 == n2 {
      assert n1[6..] == hash(ctx1 + id1) && n2[6..] == hash(ctx2 + id2);
      assert (ctx1 + id1)[..|ctx1|] == ctx1 && (ctx2 + id2)[..|ctx2|] == ctx2;
      assert (ctx1 + id1)[|ctx1|..] == id1 && (ctx2 + id2)[|ctx2|..] == id2;
    }
  }

  datatype ImageState = Unset | Pending | Ready | Error | Unknown

  /** How the client ends: it reports an error or not, or crashes on a missing detail. */
  datatype Ending = Returns(failed: bool) | Crashes

  /** What the client makes of a response: the image's state, and how it ends. A bad request
      or a server error whose detail cannot be read crashes it, after the state was set. */
  method Conclude(response: Response) returns (state: ImageState, ending: Ending)
    ensures ending ==
      if response.NoAnswer? then Returns(true)
      else if response.code == 400 then if response.detail.None? then Crashes else Returns(true)
      else if response.code == 500 then
        if response.detail.None? then Crashes else Returns(response.detail.value == FILE_NOT_FOUND)
      else Returns(false)
    ensures state ==
      if response.NoAnswer? || response.code in {400, 401, 404, 409, 422, 500, 503, 520} then Error else Pending
  {
    match response
    case NoAnswer => return Error, Returns(true);
    case Status(code, detail) =>
      ending := Returns(false);
      if 200 <= code < 300 {
        state := Pending;
      } else if code == 400 {
        state := Error;
        ending := if detail.None? then Crashes else Returns(true);
      } else if code == 401 || code == 404 || code == 409 || code == 422 {
        state := Error;
      } else if code == 500 {
        state := Error;
        ending := if detail.None? then Crashes else Returns(detail.value == FILE_NOT_FOUND);
      } else if code == 503 || code == 520 {
        state := Error;
      } else {
        state := Pending;
      }
  }

  /** The whole path. The host stores the image exactly when it is transferable, its
      federation is hosted and its name is free, and otherwise stays as it was. The client
      reports an error for what it could not send or the host could not read; a host that
      refuses what it could read shows only in the image's state. */
  method CreateImage(spec: ImageSpec, state0: ImageState, json: Json, server: MetaStore, reachable: bool, apiOk: bool)
    returns (state: ImageState, ending: Ending)
    requires Inverse(json)
    modifies server`images
    ensures var name := ImageName(server.hash, spec.ctx, spec.imageId);
      var stored := reachable && Transferable(spec) && spec.ctx in server.hosted &&
                    name !in old(server.images) && apiOk;
      && server.images == (if stored then old(server.images)[name := Received(spec)] else old(server.images))
      && state == (if spec.body.None? then state0 else if stored then Pending else Error)
    ensures ending == Returns(!(reachable && Transferable(spec)))
  {
    var request := BuildRequest(spec);
    if request.None? {
      return state0, Returns(true);
    }
    var writer := new FormWriter();
    writer.Serialize(request.value, json);
    var form := FormOf(writer.parts);
    ghost var reading := ReadRequest(form, json);
    TransferAccepted(spec, json, reading);
    if reading.Parsed? {
      TransferPreserves(spec, json, reading);
    }
    var response := NoAnswer;
    if reachable {
      response := server.UploadFile(form, json, spec.ctx, apiOk);
    }
    assert UNKNOWN_FEDERATION[0] == 'F' && TAKEN[0] == 'F' && FILE_NOT_FOUND[0] == 'f';
    state, ending := Conclude(response);
  }
}
