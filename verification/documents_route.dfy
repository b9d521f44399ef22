/** app/api/documents/route.ts: listing the documents (`GET`) and uploading
    new ones (`POST`). The request's multipart form, the environment and the
    outcomes of the foreign calls (clock, blob store, database) are inputs. */
module DocumentsRoute {
  import opened Wrappers
  import opened Text
  import MongoStorage
  import Cloudinary

  /** 10MB, the per-file limit. */
  const MaxFileSize: nat := 10 * 1024 * 1024

  const ConfigErrorMessage := "Server configuration error"
  const InvalidPasswordMessage := "Invalid password"
  const NoFileMessage := "No file provided"
  const NotConfiguredMessage :=
    "Cloudinary not configured. Please add CLOUDINARY_CLOUD_NAME, CLOUDINARY_API_KEY, and CLOUDINARY_API_SECRET to .env.local"
  const UploadFailedMessage := "Upload failed"
  const FetchFailedMessage := "Failed to fetch documents"

  /** A file part of the form: its name and its size in bytes. */
  datatype UploadFile = UploadFile(name: string, size: nat)

  /** A multipart form value: text, or a file. */
  datatype FormValue = TextValue(text: string) | FileValue(file: UploadFile)

  /** The parts of the request the handler reads: the `password` entry, if
      any, and every entry under the `file` key, in order. */
  datatype UploadForm = UploadForm(password: Option<FormValue>, fileParts: seq<FormValue>)

  /** The environment variables the handlers read. */
  datatype Config = Config(
    adminPassword: Option<string>,
    cloudName: Option<string>,
    apiKey: Option<string>,
    apiSecret: Option<string>)

  /** One element of the `uploaded` array of a successful upload. */
  datatype UploadedEntry = UploadedEntry(id: string, name: string, size: nat, uploadedAt: string)

  datatype Body =
    | ErrorBody(error: string)
    | ErrorWithDetails(error: string, details: string)
    | UploadedBody(uploaded: seq<UploadedEntry>)
    | DocumentsBody(documents: seq<MongoStorage.Document>)

  datatype Response = Response(status: nat, body: Body)

  /** The file entries among the `file` parts, in order; text entries are dropped. */
  function FilesOf(parts: seq<FormValue>): (files: seq<UploadFile>)
    ensures |files| <= |parts|
    ensures forall f :: f in files <==> FileValue(f) in parts
  {
    if parts == [] then []
    else
      var rest := FilesOf(parts[1..]);
      assert parts == [parts[0]] + parts[1..];
      match parts[0]
      case FileValue(f) => [f] + rest
      case TextValue(_) => rest
  }

  /** `FilesOf` distributes over concatenation: the file entries keep their
      order and their multiplicity. */
  lemma {:induction false} FilesOfAppend(a: seq<FormValue>, b: seq<FormValue>)
    ensures FilesOf(a + b) == FilesOf(a) + FilesOf(b)
  {
    if a == [] {
      assert a + b == b;
    } else {
      assert (a + b)[1..] == a[1..] + b;
      FilesOfAppend(a[1..], b);
    }
  }

  /** A single entry yields its file when it is one, and nothing when it is text. */
  lemma FilesOfOne(v: FormValue)
    ensures FilesOf([v]) == if v.FileValue? then [v.file] else []
  {
  }

  /** The files over the size limit, in order. */
  function Oversized(files: seq<UploadFile>): (big: seq<UploadFile>)
    ensures |big| <= |files|
    ensures forall f :: f in big <==> f in files && f.size > MaxFileSize
  {
    if files == [] then []
    else
      var rest := Oversized(files[1..]);
      assert files == [files[0]] + files[1..];
      if files[0].size > MaxFileSize then [files[0]] + rest else rest
  }

  /** `Oversized` distributes over concatenation: the oversized files keep
      their order and their repeats, as `filter` does. */
  lemma {:induction false} OversizedAppend(a: seq<UploadFile>, b: seq<UploadFile>)
    ensures Oversized(a + b) == Oversized(a) + Oversized(b)
  {
    if a == [] {
      assert a + b == b;
    } else {
      assert (a + b)[1..] == a[1..] + b;
      OversizedAppend(a[1..], b);
    }
  }

  /** A single file is kept exactly when it is over the limit. */
  lemma OversizedOne(f: UploadFile)
    ensures Oversized([f]) == if f.size > MaxFileSize then [f] else []
  {
  }

  function Names(files: seq<UploadFile>): (names: seq<string>)
    ensures |names| == |files|
    ensures forall k :: 0 <= k < |files| ==> names[k] == files[k].name
  {
    seq(|files|, k requires 0 <= k < |files| => files[k].name)
  }

  /** The rejection text for oversized files: it names every one of them. */
  function TooLargeMessage(big: seq<UploadFile>): (msg: string)
    ensures forall k :: 0 <= k < |big| ==> Includes(msg, big[k].name)
  {
    var joined := Join(Names(big), ", ");
    assert forall k :: 0 <= k < |big| ==>
      Includes("File(s) too large: " + joined + ". Maximum size is 10MB per file.", big[k].name) by {
      forall k | 0 <= k < |big|
        ensures Includes("File(s) too large: " + joined + ". Maximum size is 10MB per file.", big[k].name)
      {
        JoinIncludesEach(Names(big), ", ", k);
        IncludesInContext("File(s) too large: ", big[k].name, ". Maximum size is 10MB per file.", joined);
      }
    }
    "File(s) too large: " + joined + ". Maximum size is 10MB per file."
  }

  /** The request passes the admin check: a password is configured and the
      form's `password` entry is exactly that text. */
  predicate Authorized(form: UploadForm, config: Config) {
    Truthy(config.adminPassword) && form.password == Some(TextValue(config.adminPassword.value))
  }

  predicate CredentialsConfigured(config: Config) {
    Truthy(config.cloudName) && Truthy(config.apiKey) && Truthy(config.apiSecret)
  }

  /** The checks `POST` makes before uploading anything, in their order: the
      configured password, the given password, at least one file, the size of
      every file, the blob store's credentials. Passing yields the files. */
  function Admission(form: UploadForm, config: Config): (r: Result<seq<UploadFile>, Response>)
    ensures r.Success? <==>
      && Authorized(form, config)
      && FilesOf(form.fileParts) != []
      && (forall f :: f in FilesOf(form.fileParts) ==> f.size <= MaxFileSize)
      && CredentialsConfigured(config)
    ensures r.Success? ==> r.value == FilesOf(form.fileParts)
    ensures !Truthy(config.adminPassword) ==> r == Failure(Response(500, ErrorBody(ConfigErrorMessage)))
    ensures Truthy(config.adminPassword) && !Authorized(form, config) ==>
      r == Failure(Response(401, ErrorBody(InvalidPasswordMessage)))
    ensures Authorized(form, config) && FilesOf(form.fileParts) == [] ==>
      r == Failure(Response(400, ErrorBody(NoFileMessage)))
    ensures Authorized(form, config) && Oversized(FilesOf(form.fileParts)) != [] ==>
      r == Failure(Response(400, ErrorBody(TooLargeMessage(Oversized(FilesOf(form.fileParts))))))
    ensures && Authorized(form, config) && FilesOf(form.fileParts) != []
            && (forall f :: f in FilesOf(form.fileParts) ==> f.size <= MaxFileSize)
            && !CredentialsConfigured(config) ==>
      r == Failure(Response(500, ErrorBody(NotConfiguredMessage)))
    ensures r.Failure? ==> r.error.status in {400, 401, 500} && r.error.body.ErrorBody?
    ensures r.Failure? && r.error.status == 400 ==> Authorized(form, config)
  {
    if !Truthy(config.adminPassword) then Failure(Response(500, ErrorBody(ConfigErrorMessage)))
    else if form.password != Some(TextValue(config.adminPassword.value)) then
      Failure(Response(401, ErrorBody(InvalidPasswordMessage)))
    else
      var files := FilesOf(form.fileParts);
      if |files| == 0 then Failure(Response(400, ErrorBody(NoFileMessage)))
      else
        var big := Oversized(files);
        if |big| > 0 then
          assert big[0] in big;
          Failure(Response(400, ErrorBody(TooLargeMessage(big))))
        else if !CredentialsConfigured(config) then Failure(Response(500, ErrorBody(NotConfiguredMessage)))
        else Success(files)
  }

  /** The size check is inclusive: a file of exactly 10MB passes, one byte more does not. */
  lemma SizeLimitIsInclusive(form: UploadForm, config: Config, name: string)
    requires Authorized(form, config) && CredentialsConfigured(config)
    ensures form.(fileParts := [FileValue(UploadFile(name, 10485760))]).fileParts != [] &&
      Admission(form.(fileParts := [FileValue(UploadFile(name, 10485760))]), config).Success?
    ensures Admission(form.(fileParts := [FileValue(UploadFile(name, 10485761))]), config)
      == Failure(Response(400, ErrorBody(TooLargeMessage([UploadFile(name, 10485761)]))))
  {
    var big := [UploadFile(name, 10485761)];
    assert FilesOf([FileValue(UploadFile(name, 10485761))]) == big;
    assert Oversized(big) == big;
  }

  /** The rejection of oversized files names every one of them. */
  lemma {:induction false} TooLargeNamesEachFile(form: UploadForm, config: Config, f: UploadFile)
    requires Authorized(form, config)
    requires f in FilesOf(form.fileParts) && f.size > MaxFileSize
    ensures Admission(form, config).Failure?
    ensures Admission(form, config).error.status == 400
    ensures Includes(Admission(form, config).error.body.error, f.name)
  {
    var big := Oversized(FilesOf(form.fileParts));
    assert f in big;
    var k :| 0 <= k < |big| && big[k] == f;
  }

  /** What happens to one file during the upload, as the foreign calls
      decide it: the blob store's reply, the clock when the id is made, the
      two timestamps taken (one stored, one reported), and whether the
      database accepted the row. */
  datatype FileEffects = FileEffects(
    reply: Cloudinary.UploadReply,
    millis: nat,
    savedAt: string,
    reportedAt: string,
    saveOk: bool)

  /** `${Date.now()}-${file.name}` */
  function IdFor(millis: nat, name: string): string {
    Decimal(millis) + "-" + name
  }

  /** The first `-` of an id is the one after the clock reading, so the file
      name is whatever follows it. */
  lemma IdSplitsAtFirstDash(millis: nat, name: string)
    ensures FirstIndexOf(IdFor(millis, name), '-') == |Decimal(millis)|
    ensures IdFor(millis, name)[FirstIndexOf(IdFor(millis, name), '-') + 1..] == name
  {
    assert '-' !in Decimal(millis);
    FirstIndexAfterPrefix(Decimal(millis), '-', name);
  }

  /** The value of a string of decimal digits. */
  function DigitsValue(s: string): nat
    requires forall i :: 0 <= i < |s| ==> '0' <= s[i] <= '9'
  {
    if s == [] then 0 else DigitsValue(s[..|s| - 1]) * 10 + (s[|s| - 1] as int - '0' as int)
  }

  /** Rendering a number in decimal loses nothing. */
  lemma {:induction false} DecimalValue(n: nat)
    ensures DigitsValue(Decimal(n)) == n
  {
    if n >= 10 {
      DecimalValue(n / 10);
      var d := Decimal(n);
      assert d[..|d| - 1] == Decimal(n / 10);
      assert "0123456789"[n % 10] as int - '0' as int == n % 10;
    } else {
      assert "0123456789"[n] as int - '0' as int == n;
    }
  }

  /** Two ids are equal only when both the clock reading and the file name
      are: files of the same name uploaded in the same millisecond collide,
      and nothing else does. */
  lemma {:induction false} IdsCollideOnlyOnSameMillisAndName(m1: nat, n1: string, m2: nat, n2: string)
    ensures IdFor(m1, n1) == IdFor(m2, n2) <==> m1 == m2 && n1 == n2
  {
    var d1, d2 := Decimal(m1), Decimal(m2);
    var id1, id2 := IdFor(m1, n1), IdFor(m2, n2);
    if id1 == id2 {
      assert '-' !in d1 && '-' !in d2;
      FirstIndexAfterPrefix(d1, '-', n1);
      FirstIndexAfterPrefix(d2, '-', n2);
      assert |d1| == FirstIndexOf(id1, '-') == |d2|;
      assert d1 == id1[..|d1|] && d2 == id2[..|d2|];
      assert n1 == id1[|d1| + 1..] && n2 == id2[|d2| + 1..];
      DecimalValue(m1);
      DecimalValue(m2);
    }
  }

  /** The record saved for a file once its upload succeeded: the store's
      format, or `unknown` when it reports none. */
  function RecordFor(file: UploadFile, eff: FileEffects, result: Cloudinary.UploadResult): (d: MongoStorage.Document)
    ensures d.id == IdFor(eff.millis, file.name) && d.name == file.name && d.size == file.size
    ensures d.uploadedAt == eff.savedAt
    ensures d.cloudinaryUrl == result.secureUrl && d.cloudinaryPublicId == result.publicId
    ensures d.fileType != "" && (result.format != "" ==> d.fileType == result.format)
    ensures result.format == "" ==> d.fileType == "unknown"
    ensures d.resourceType == Some(result.resourceType)
  {
    MongoStorage.Document(
      IdFor(eff.millis, file.name), file.name, file.size, eff.savedAt,
      result.secureUrl, result.publicId,
      OrDefault(Some(result.format), "unknown"),
      Some(result.resourceType))
  }

  /** The entry reported for a file: it carries the id, name and size of the
      row saved for the file, but the second timestamp taken, not the stored one. */
  function EntryFor(file: UploadFile, eff: FileEffects): (e: UploadedEntry)
    ensures eff.reply.Uploaded? ==>
      var row := RowFor(file, eff);
      e.id == row.id && e.name == row.name && e.size == row.size
    ensures e.uploadedAt == eff.reportedAt
  {
    UploadedEntry(IdFor(eff.millis, file.name), file.name, file.size, eff.reportedAt)
  }

  /** A file's upload and save both went through. */
  predicate Succeeded(eff: FileEffects) {
    eff.reply.Uploaded? && eff.saveOk
  }

  /** Every file went through; stated file by file from the last, as the
      loop over the files accumulates it. */
  predicate AllSucceeded(effects: seq<FileEffects>) {
    effects == [] || (AllSucceeded(effects[..|effects| - 1]) && Succeeded(effects[|effects| - 1]))
  }

  /** `AllSucceeded` holds exactly when no file failed. */
  lemma {:induction false} AllSucceededIffEach(effects: seq<FileEffects>)
    ensures AllSucceeded(effects) <==> forall k :: 0 <= k < |effects| ==> Succeeded(effects[k])
  {
    if effects != [] {
      var n := |effects| - 1;
      AllSucceededIffEach(effects[..n]);
      assert forall k :: 0 <= k < n ==> effects[..n][k] == effects[k];
    }
  }

  /** The row a file adds to the store: one when it went through, none otherwise. */
  function RowsAdded(file: UploadFile, eff: FileEffects): (rows: seq<MongoStorage.StoredRecord>)
    ensures |rows| == if Succeeded(eff) then 1 else 0
  {
    if Succeeded(eff) then [RowFor(file, eff)] else []
  }

  /** The row `save` writes for a file whose upload succeeded. */
  function RowFor(file: UploadFile, eff: FileEffects): (row: MongoStorage.StoredRecord)
    requires eff.reply.Uploaded?
    ensures row.id == IdFor(eff.millis, file.name) && row.name == file.name && row.size == file.size
  {
    MongoStorage.ToStored(RecordFor(file, eff, eff.reply.result))
  }

  /** The rows the uploads add, in file order: one for each file whose upload
      succeeded and whose save was accepted. */
  function SavedRows(files: seq<UploadFile>, effects: seq<FileEffects>): (rows: seq<MongoStorage.StoredRecord>)
    requires |files| == |effects|
    ensures |rows| <= |files|
    ensures AllSucceeded(effects) ==> |rows| == |files|
  {
    if files == [] then []
    else
      var n := |files| - 1;
      SavedRows(files[..n], effects[..n]) + RowsAdded(files[n], effects[n])
  }

  /** When every file goes through, the saved rows are the files' records, in file order. */
  lemma {:induction false} AllFilesSaved(files: seq<UploadFile>, effects: seq<FileEffects>)
    requires |files| == |effects| && AllSucceeded(effects)
    ensures forall k :: 0 <= k < |files| ==>
      && effects[k].reply.Uploaded?
      && SavedRows(files, effects)[k] == RowFor(files[k], effects[k])
  {
    if files != [] {
      var n := |files| - 1;
      var before := SavedRows(files[..n], effects[..n]);
      AllFilesSaved(files[..n], effects[..n]);
      assert SavedRows(files, effects) == before + [RowFor(files[n], effects[n])];
      forall k | 0 <= k < n
        ensures effects[k].reply.Uploaded? && SavedRows(files, effects)[k] == RowFor(files[k], effects[k])
      {
        assert files[..n][k] == files[k] && effects[..n][k] == effects[k];
      }
    }
  }

  /** `SavedRows` distributes over concatenation: the rows of a later batch
      of files follow those of an earlier one. */
  lemma {:induction false} SavedRowsAppend(
    files1: seq<UploadFile>, effects1: seq<FileEffects>,
    files2: seq<UploadFile>, effects2: seq<FileEffects>)
    requires |files1| == |effects1| && |files2| == |effects2|
    ensures SavedRows(files1 + files2, effects1 + effects2)
         == SavedRows(files1, effects1) + SavedRows(files2, effects2)
    decreases |files2|
  {
    if files2 == [] {
      assert files1 + files2 == files1 && effects1 + effects2 == effects1;
    } else {
      var n := |files2| - 1;
      var files, effects := files1 + files2, effects1 + effects2;
      var m := |files| - 1;
      assert files[..m] == files1 + files2[..n];
      assert effects[..m] == effects1 + effects2[..n];
      assert files[m] == files2[n] && effects[m] == effects2[n];
      var added := RowsAdded(files2[n], effects2[n]);
      calc {
        SavedRows(files, effects);
        SavedRows(files1 + files2[..n], effects1 + effects2[..n]) + added;
        { SavedRowsAppend(files1, effects1, files2[..n], effects2[..n]); }
        SavedRows(files1, effects1) + SavedRows(files2[..n], effects2[..n]) + added;
        SavedRows(files1, effects1) + SavedRows(files2, effects2);
      }
    }
  }

  /** A single file adds its row exactly when it went through. */
  lemma SavedRowsOne(file: UploadFile, eff: FileEffects)
    ensures SavedRows([file], [eff]) == if Succeeded(eff) then [RowFor(file, eff)] else []
  {
    assert [file][..0] == [] && [eff][..0] == [];
  }

  /** Whether or not other files failed, the saved rows are exactly the records
      of the files that went through. */
  lemma {:induction false} SavedRowsAreTheSucceeded(
    files: seq<UploadFile>, effects: seq<FileEffects>, row: MongoStorage.StoredRecord)
    requires |files| == |effects|
    ensures row in SavedRows(files, effects) <==>
      exists k :: 0 <= k < |files| && Succeeded(effects[k]) && row == RowFor(files[k], effects[k])
  {
    if files != [] {
      var n := |files| - 1;
      SavedRowsAreTheSucceeded(files[..n], effects[..n], row);
      if row in SavedRows(files, effects) {
        if row in SavedRows(files[..n], effects[..n]) {
          var k :| 0 <= k < n && Succeeded(effects[..n][k]) && row == RowFor(files[..n][k], effects[..n][k]);
          assert files[..n][k] == files[k] && effects[..n][k] == effects[k];
        } else {
          assert Succeeded(effects[n]) && row == RowFor(files[n], effects[n]);
        }
      } else {
        forall k | 0 <= k < |files| && Succeeded(effects[k])
          ensures row != RowFor(files[k], effects[k])
        {
          if k < n {
            assert files[..n][k] == files[k] && effects[..n][k] == effects[k];
          }
        }
      }
    }
  }

  /** The entries reported for the files, in file order. */
  function Entries(files: seq<UploadFile>, effects: seq<FileEffects>): (entries: seq<UploadedEntry>)
    requires |files| == |effects|
    ensures |entries| == |files|
    ensures forall k :: 0 <= k < |files| ==> entries[k] == EntryFor(files[k], effects[k])
  {
    if files == [] then []
    else
      var n := |files| - 1;
      Entries(files[..n], effects[..n]) + [EntryFor(files[n], effects[n])]
  }

  /** The upload call made for a file: its name, to the `documents` folder. */
  function CallFor(file: UploadFile): Cloudinary.UploadCall {
    Cloudinary.UploadCall(file.name, Cloudinary.UploadOptionsFor(file.name, Some("documents")))
  }

  /** The upload calls made for the files, in file order. */
  function CallsFor(files: seq<UploadFile>): (calls: seq<Cloudinary.UploadCall>)
    ensures |calls| == |files|
  {
    if files == [] then []
    else
      var n := |files| - 1;
      CallsFor(files[..n]) + [CallFor(files[n])]
  }

  /** Every file gets one call, in file order, for its own name, the
      `documents` folder and the options its name calls for. */
  lemma {:induction false} CallsInFileOrder(files: seq<UploadFile>)
    ensures forall k :: 0 <= k < |files| ==>
      && CallsFor(files)[k].filename == files[k].name
      && Cloudinary.OptionsFor(CallsFor(files)[k].options, files[k].name, Some("documents"))
  {
    if files != [] {
      var n := |files| - 1;
      CallsInFileOrder(files[..n]);
      assert CallsFor(files) == CallsFor(files[..n]) + [CallFor(files[n])];
    }
  }

  /** One more file adds its rows after the rows of the files before it. */
  lemma {:induction false} RowsStep(files: seq<UploadFile>, effects: seq<FileEffects>, i: nat,
    rows0: seq<MongoStorage.StoredRecord>, rows: seq<MongoStorage.StoredRecord>)
    requires |files| == |effects| && i < |files|
    requires rows == rows0 + SavedRows(files[..i], effects[..i]) + RowsAdded(files[i], effects[i])
    ensures rows == rows0 + SavedRows(files[..i + 1], effects[..i + 1])
  {
    var before, added := SavedRows(files[..i], effects[..i]), RowsAdded(files[i], effects[i]);
    assert files[..i + 1][..i] == files[..i] && effects[..i + 1][..i] == effects[..i];
    assert SavedRows(files[..i + 1], effects[..i + 1]) == before + added;
    assert rows0 + before + added == rows0 + (before + added);
  }

  /** One more file adds its call after the calls of the files before it. */
  lemma {:induction false} CallsStep(files: seq<UploadFile>, i: nat,
    calls0: seq<Cloudinary.UploadCall>, calls: seq<Cloudinary.UploadCall>)
    requires i < |files|
    requires calls == calls0 + CallsFor(files[..i]) + [CallFor(files[i])]
    ensures calls == calls0 + CallsFor(files[..i + 1])
  {
    assert files[..i + 1][..i] == files[..i];
    assert CallsFor(files[..i + 1]) == CallsFor(files[..i]) + [CallFor(files[i])];
  }

  /** One more file adds its entry, and its outcome, after those of the files before it. */
  lemma {:induction false} EntriesStep(files: seq<UploadFile>, effects: seq<FileEffects>, i: nat)
    requires |files| == |effects| && i < |files|
    ensures Entries(files[..i + 1], effects[..i + 1]) == Entries(files[..i], effects[..i]) + [EntryFor(files[i], effects[i])]
    ensures AllSucceeded(effects[..i + 1]) <==> AllSucceeded(effects[..i]) && Succeeded(effects[i])
  {
    assert files[..i + 1][..i] == files[..i] && effects[..i + 1][..i] == effects[..i];
  }

  /** After a fully successful upload, every reported id can be looked up in
      the store: the entry and the saved row share their id. */
  lemma {:induction false} ReportedIdsAreStored(
    before: seq<MongoStorage.StoredRecord>, files: seq<UploadFile>, effects: seq<FileEffects>, k: nat)
    requires |files| == |effects| && AllSucceeded(effects) && k < |files|
    ensures MongoStorage.FindFirst(before + SavedRows(files, effects), Entries(files, effects)[k].id).Some?
  {
    AllFilesSaved(files, effects);
    var rows := before + SavedRows(files, effects);
    assert rows[|before| + k].id == Entries(files, effects)[k].id;
  }

  /** `GET`: every document, normalised, or a 500 carrying the message of the
      failure the database reported. */
  method Get(store: MongoStorage.DocumentStore, failure: Option<string>) returns (resp: Response)
    ensures failure.None? ==> resp == Response(200, DocumentsBody(store.GetAll()))
    ensures failure.Some? ==> resp == Response(500, ErrorWithDetails(FetchFailedMessage, failure.value))
  {
    if failure.Some? {
      return Response(500, ErrorWithDetails(FetchFailedMessage, failure.value));
    }
    var documentList := store.GetAll();
    resp := Response(200, DocumentsBody(documentList));
  }

  /** The callback run for each file: upload it to the `documents` folder
      and, if that succeeds, save its record. It logs exactly one upload call,
      adds a row exactly when the file goes through, and returns the entry to
      report and whether the file went through. */
  method UploadOne(file: UploadFile, eff: FileEffects,
    store: MongoStorage.DocumentStore, blobs: Cloudinary.BlobStore)
    returns (entry: UploadedEntry, ok: bool)
    modifies store, blobs
    ensures blobs.calls == old(blobs.calls) + [CallFor(file)]
    ensures store.rows == old(store.rows) + RowsAdded(file, eff)
    ensures ok == Succeeded(eff) && entry == EntryFor(file, eff)
  {
    var uploadResult := blobs.Upload(file.name, Some("documents"), eff.reply);
    ok := uploadResult.Uploaded? && eff.saveOk;
    if ok {
      store.Save(RecordFor(file, eff, uploadResult.result));
    }
    entry := EntryFor(file, eff);
  }

  /** `Promise.all` over the files, taken in file order: every file is
      uploaded (a failure does not stop the others), the rows of the files
      that went through are saved in order, and the entries are reported in
      file order. */
  method UploadAll(files: seq<UploadFile>, effects: seq<FileEffects>,
    store: MongoStorage.DocumentStore, blobs: Cloudinary.BlobStore)
    returns (results: seq<UploadedEntry>, failed: bool)
    requires |files| == |effects|
    modifies store, blobs
    ensures blobs.calls == old(blobs.calls) + CallsFor(files)
    ensures store.rows == old(store.rows) + SavedRows(files, effects)
    ensures results == Entries(files, effects)
    ensures failed <==> !AllSucceeded(effects)
  {
    failed := false;
    results := [];
    var i := 0;
    while i < |files|
      invariant 0 <= i <= |files|
      invariant blobs.calls == old(blobs.calls) + CallsFor(files[..i])
      invariant store.rows == old(store.rows) + SavedRows(files[..i], effects[..i])
      invariant failed <==> !AllSucceeded(effects[..i])
      invariant results == Entries(files[..i], effects[..i])
    {
      var entry, ok := UploadOne(files[i], effects[i], store, blobs);
      RowsStep(files, effects, i, old(store.rows), store.rows);
      CallsStep(files, i, old(blobs.calls), blobs.calls);
      EntriesStep(files, effects, i);
      failed := failed || !ok;
      results := results + [entry];
      i := i + 1;
    }
    assert files[..i] == files && effects[..i] == effects;
  }

  /** `POST`: after the admission checks, every file is uploaded to the
      `documents` folder and, when that succeeds, saved. A rejection changes
      nothing; otherwise each file gets exactly one upload call, the store
      gains the rows of the files that went through, and the response lists
      the files when all of them did, and is a 500 when any did not. */
  method Post(
    form: UploadForm, config: Config, effects: seq<FileEffects>,
    store: MongoStorage.DocumentStore, blobs: Cloudinary.BlobStore)
    returns (resp: Response)
    requires |effects| == |FilesOf(form.fileParts)|
    modifies store, blobs
    ensures Admission(form, config).Failure? ==>
      && resp == Admission(form, config).error
      && store.rows == old(store.rows) && blobs.calls == old(blobs.calls)
    ensures Admission(form, config).Success? ==>
      var files := FilesOf(form.fileParts);
      && blobs.calls == old(blobs.calls) + CallsFor(files)
      && store.rows == old(store.rows) + SavedRows(files, effects)
      && resp == if AllSucceeded(effects) then Response(200, UploadedBody(Entries(files, effects)))
                 else Response(500, ErrorBody(UploadFailedMessage))
  {
    var admitted := Admission(form, config);
    if admitted.Failure? {
      return admitted.error;
    }
    var results, failed := UploadAll(admitted.value, effects, store, blobs);
    if failed {
      resp := Response(500, ErrorBody(UploadFailedMessage));
    } else {
      resp := Response(200, UploadedBody(results));
    }
  }
}
