/** `FileProcessorService`: download a ZIP archive, extract its files and
    upload them into the Drive folder a shared link names.  The download,
    the archive reader, the Drive client and the clock are inputs. */
module FileProcessor {
  import opened Common
  import opened Text
  import opened FolderLink
  import opened MimeTypes

  // ---------------------------------------------------------------------------
  // Request validation

  /** The request body; either field may be absent. */
  datatype ProcessFileRequest = ProcessFileRequest(fileUrl: Option<string>, driveFolderLink: Option<string>)

  /** `validateRequest`.  `isUrl` says whether `new URL(s)` accepts `s`. */
  function ValidateRequest(req: ProcessFileRequest, isUrl: string -> bool): Result<(), Exception>
  {
    if !Truthy(req.fileUrl) || Trim(req.fileUrl.value) == "" then
      Failure(BadRequest("fileUrl is required"))
    else if !Truthy(req.driveFolderLink) || Trim(req.driveFolderLink.value) == "" then
      Failure(BadRequest("Drive folder link is required"))
    else if !isUrl(req.fileUrl.value) then
      Failure(BadRequest("Invalid URL format"))
    else
      Success(())
  }

  /** A field that is present and holds some character other than white space. */
  predicate Present(s: Option<string>)
  {
    s.Some? && !Blank(s.value)
  }

  /** The checks in their order: a missing or blank file URL, then a missing or
      blank folder link, then a URL that does not parse. */
  lemma ValidateRequestOrder(req: ProcessFileRequest, isUrl: string -> bool)
    ensures ValidateRequest(req, isUrl) ==
      if !Present(req.fileUrl) then Failure(BadRequest("fileUrl is required"))
      else if !Present(req.driveFolderLink) then Failure(BadRequest("Drive folder link is required"))
      else if !isUrl(req.fileUrl.value) then Failure(BadRequest("Invalid URL format"))
      else Success(())
  {
    if req.fileUrl.Some? {
      TrimEmptyIffBlank(req.fileUrl.value);
    }
    if req.driveFolderLink.Some? {
      TrimEmptyIffBlank(req.driveFolderLink.value);
    }
  }

  // ---------------------------------------------------------------------------
  // Download

  /** Five minutes. */
  const DownloadTimeoutMs: nat := 300000
  /** 500 MiB. */
  const MaxContentLength: nat := 500 * 1024 * 1024

  /** The GET request `downloadFile` makes. */
  datatype DownloadRequest = DownloadRequest(url: string, timeoutMs: nat, maxContentLength: nat)

  /** What a failed request throws: its `code`, the status of the response
      if there was one, and its message. */
  datatype DownloadError = DownloadError(code: Option<string>, status: Option<int>, message: string)

  const DownloadTimeoutMessage: string := "Download timeout - file too large or server too slow"
  const NotFoundMessage: string := "File not found at the provided URL"

  /** The exception `downloadFile` turns a failed request into. */
  function DownloadException(e: DownloadError): (x: Exception)
    ensures x.BadRequest? <==> e.code == Some("ECONNABORTED") || (e.status.Some? && e.status.value >= 400)
    ensures x.InternalServerError? <==> !x.BadRequest?
  {
    if e.code == Some("ECONNABORTED") then BadRequest(DownloadTimeoutMessage)
    else if e.status == Some(404) then BadRequest(NotFoundMessage)
    else if e.status.Some? && e.status.value >= 400 then
      BadRequest("Failed to download file: HTTP " + Decimal(e.status.value))
    else InternalServerError("Download failed: " + e.message)
  }

  /** The rejection of any error status other than 404 names that status,
      and the status can be read back from the message. */
  lemma DownloadStatusInMessage(e: DownloadError)
    requires e.code != Some("ECONNABORTED")
    requires e.status.Some? && e.status.value >= 400 && e.status.value != 404
    ensures var m := DownloadException(e).message;
      var p := "Failed to download file: HTTP ";
      && StartsWith(m, p)
      && (forall i :: |p| <= i < |m| ==> IsDigit(m[i]))
      && DecimalValue(m[|p|..]) == e.status.value
  {
    var m := DownloadException(e).message;
    var p := "Failed to download file: HTTP ";
    assert m[|p|..] == Decimal(e.status.value);
    DecimalRoundTrip(e.status.value);
  }

  /** `downloadFile`: `fetch` answers the GET request with the body or the
      error axios throws. */
  function DownloadFile(url: string, fetch: DownloadRequest -> Result<Bytes, DownloadError>): (r: Result<Bytes, Exception>)
    ensures var answer := fetch(DownloadRequest(url, 300000, 500 * 1024 * 1024));
      && (r.Success? <==> answer.Success?)
      && (r.Success? ==> r.value == answer.value)
      && (r.Failure? ==> r.error.BadRequest? || r.error.InternalServerError?)
  {
    match fetch(DownloadRequest(url, DownloadTimeoutMs, MaxContentLength))
    case Success(body) => Success(body)
    case Failure(e) => Failure(DownloadException(e))
  }

  // ---------------------------------------------------------------------------
  // Extraction

  /** An archive member; reading its data may fail. */
  datatype ZipEntry = ZipEntry(entryName: string, isDirectory: bool, data: Result<Bytes, string>)

  datatype ExtractedFile = ExtractedFile(name: string, path: string, size: nat, data: Bytes, mimeType: string)

  datatype ExtractionResult = ExtractionResult(files: seq<ExtractedFile>, totalFiles: nat, totalSize: nat)

  /** Directories, hidden files and macOS resource forks are not extracted. */
  predicate Skipped(e: ZipEntry)
  {
    e.isDirectory || StartsWith(e.entryName, ".") || Contains(e.entryName, "__MACOSX")
  }

  function FileOf(e: ZipEntry, data: Bytes): ExtractedFile
  {
    ExtractedFile(e.entryName, e.entryName, |data|, data, MimeType(e.entryName))
  }

  function TotalSize(files: seq<ExtractedFile>): nat
  {
    if files == [] then 0 else TotalSize(files[..|files| - 1]) + Last(files).size
  }

  /** The files extracted from the first `n` entries, or the message of the
      first kept entry whose data cannot be read. */
  function ExtractedUpTo(entries: seq<ZipEntry>, n: nat): Result<seq<ExtractedFile>, string>
    requires n <= |entries|
  {
    if n == 0 then Success([])
    else
      match ExtractedUpTo(entries, n - 1)
      case Failure(m) => Failure(m)
      case Success(files) =>
        var e := entries[n - 1];
        if Skipped(e) then Success(files)
        else
          match e.data
          case Failure(m) => Failure(m)
          case Success(data) => Success(files + [FileOf(e, data)])
  }

  /** Once an entry cannot be read, extraction has failed with its message. */
  lemma {:induction false} FailureSticks(entries: seq<ZipEntry>, n: nat, n': nat)
    requires n <= n' <= |entries| && ExtractedUpTo(entries, n).Failure?
    ensures ExtractedUpTo(entries, n') == ExtractedUpTo(entries, n)
    decreases n'
  {
    if n < n' {
      FailureSticks(entries, n, n' - 1);
    }
  }

  /** `extractZipFile` on the entries the archive reader lists, or on the
      message it throws. */
  function ExtractZip(archive: Result<seq<ZipEntry>, string>): Result<ExtractionResult, Exception>
  {
    match archive
    case Failure(m) => Failure(InternalServerError("Failed to extract ZIP file: " + m))
    case Success(entries) =>
      match ExtractedUpTo(entries, |entries|)
      case Failure(m) => Failure(InternalServerError("Failed to extract ZIP file: " + m))
      case Success(files) => Success(ExtractionResult(files, |files|, TotalSize(files)))
  }

  /** A kept entry whose data cannot be read. */
  predicate Unreadable(e: ZipEntry)
  {
    !Skipped(e) && e.data.Failure?
  }

  /** The positions, below `n`, of the entries that are extracted. */
  function KeptPositions(entries: seq<ZipEntry>, n: nat): (ix: seq<nat>)
    requires n <= |entries|
    ensures forall j :: 0 <= j < |ix| ==> ix[j] < n && !Skipped(entries[ix[j]])
  {
    var ok := (k: nat) => k < |entries| && !Skipped(entries[k]);
    PositionsHold(ok, n);
    Positions(ok, n)
  }

  /** Extraction fails exactly when a kept entry cannot be read, and then
      with the message of the first such entry. */
  lemma ExtractionFailsAtFirstUnreadable(entries: seq<ZipEntry>, n: nat)
    requires n <= |entries|
    ensures (exists k :: 0 <= k < n && Unreadable(entries[k])) ==> ExtractedUpTo(entries, n).Failure?
    ensures ExtractedUpTo(entries, n).Failure? ==>
      exists k :: 0 <= k < n && Unreadable(entries[k]) && ExtractedUpTo(entries, n).error == entries[k].data.error
        && forall k' :: 0 <= k' < k ==> !Unreadable(entries[k'])
  {
    UnreadableFailsExtraction(entries, n);
    FailureNamesFirstUnreadable(entries, n);
  }

  /** Any unreadable kept entry makes the extraction fail. */
  lemma {:induction false} UnreadableFailsExtraction(entries: seq<ZipEntry>, n: nat)
    requires n <= |entries|
    ensures (exists k :: 0 <= k < n && Unreadable(entries[k])) ==> ExtractedUpTo(entries, n).Failure?
  {
    if n > 0 {
      UnreadableFailsExtraction(entries, n - 1);
      if ExtractedUpTo(entries, n - 1).Success? && Unreadable(entries[n - 1]) {
        assert ExtractedUpTo(entries, n).Failure?;
      }
    }
  }

  /** A failed extraction carries the error of the first unreadable kept entry. */
  lemma {:induction false} FailureNamesFirstUnreadable(entries: seq<ZipEntry>, n: nat)
    requires n <= |entries|
    ensures ExtractedUpTo(entries, n).Failure? ==>
      exists k :: 0 <= k < n && Unreadable(entries[k]) && ExtractedUpTo(entries, n).error == entries[k].data.error
        && forall k' :: 0 <= k' < k ==> !Unreadable(entries[k'])
  {
    if n > 0 && ExtractedUpTo(entries, n).Failure? {
      if ExtractedUpTo(entries, n - 1).Success? {
        UnreadableFailsExtraction(entries, n - 1);
        FailureAtLast(entries, n);
      } else {
        FailureNamesFirstUnreadable(entries, n - 1);
        var k :| 0 <= k < n - 1 && Unreadable(entries[k]) && ExtractedUpTo(entries, n - 1).error == entries[k].data.error
          && forall k' :: 0 <= k' < k ==> !Unreadable(entries[k']);
        FailureCarries(entries, n);
      }
    }
  }

  /** When the first `n - 1` entries extract, a failure comes from entry `n - 1`. */
  lemma FailureAtLast(entries: seq<ZipEntry>, n: nat)
    requires 0 < n <= |entries| && ExtractedUpTo(entries, n - 1).Success? && ExtractedUpTo(entries, n).Failure?
    ensures Unreadable(entries[n - 1]) && ExtractedUpTo(entries, n).error == entries[n - 1].data.error
  {
  }

  /** A failure is carried on unchanged. */
  lemma FailureCarries(entries: seq<ZipEntry>, n: nat)
    requires 0 < n <= |entries| && ExtractedUpTo(entries, n - 1).Failure?
    ensures ExtractedUpTo(entries, n) == ExtractedUpTo(entries, n - 1)
  {
  }

  /** A successful extraction yields one file per kept entry, in entry
      order, named after the entry and holding its data. */
  lemma {:induction false} ExtractedAreKeptEntries(entries: seq<ZipEntry>, n: nat)
    requires n <= |entries| && ExtractedUpTo(entries, n).Success?
    ensures var files := ExtractedUpTo(entries, n).value;
      var ix := KeptPositions(entries, n);
      && |files| == |ix|
      && forall j :: 0 <= j < |ix| ==>
        entries[ix[j]].data.Success? && files[j] == FileOf(entries[ix[j]], entries[ix[j]].data.value)
  {
    if n > 0 {
      var e := entries[n - 1];
      assert ExtractedUpTo(entries, n - 1).Success?;
      ExtractedAreKeptEntries(entries, n - 1);
      var prev := ExtractedUpTo(entries, n - 1).value;
      var ix := KeptPositions(entries, n - 1);
      if Skipped(e) {
        assert KeptPositions(entries, n) == ix;
      } else {
        assert KeptPositions(entries, n) == ix + [n - 1];
        assert ExtractedUpTo(entries, n).value == prev + [FileOf(e, e.data.value)];
      }
    }
  }

  /** What a successful extraction promises of each file and of the totals:
      no directory marker, hidden file or resource fork is extracted. */
  lemma ExtractZipKeepsNoSkippedEntries(archive: Result<seq<ZipEntry>, string>)
    requires ExtractZip(archive).Success?
    ensures var x := ExtractZip(archive).value;
      && x.totalFiles == |x.files|
      && x.totalSize == TotalSize(x.files)
      && forall f :: f in x.files ==>
        && !StartsWith(f.name, ".") && !Contains(f.name, "__MACOSX")
        && f.path == f.name && f.size == |f.data| && f.mimeType == MimeType(f.name)
        && exists e :: e in archive.value && !e.isDirectory && e.entryName == f.name && e.data == Success(f.data)
  {
    var entries := archive.value;
    assert ExtractedUpTo(entries, |entries|).Success?;
    ExtractedAreKeptEntries(entries, |entries|);
    var files := ExtractZip(archive).value.files;
    var ix := KeptPositions(entries, |entries|);
    forall f | f in files
      ensures exists e :: e in entries && !e.isDirectory && e.entryName == f.name && e.data == Success(f.data)
    {
      var j :| 0 <= j < |files| && files[j] == f;
      assert entries[ix[j]] in entries;
    }
  }

  /** The sizes add up over a concatenation. */
  lemma {:induction false} TotalSizeAppend(a: seq<ExtractedFile>, b: seq<ExtractedFile>)
    ensures TotalSize(a + b) == TotalSize(a) + TotalSize(b)
    decreases |b|
  {
    if b == [] {
      assert a + b == a;
    } else {
      assert (a + b)[..|a + b| - 1] == a + b[..|b| - 1];
      TotalSizeAppend(a, b[..|b| - 1]);
    }
  }

  /** An archive holding `a.txt` and a directory `sub/` with `sub/b.png`
      yields the two files, typed `text/plain` and `image/png`. */
  lemma ExtractZipExample(a: string, dir: string, b: string, da: Bytes, db: Bytes)
    requires a == "a.txt" && dir == "sub/" && b == "sub/b.png"
    ensures ExtractZip(Success([ZipEntry(a, false, Success(da)), ZipEntry(dir, true, Success([])),
                                ZipEntry(b, false, Success(db))])) ==
      Success(ExtractionResult([ExtractedFile(a, a, |da|, da, "text/plain"),
                                ExtractedFile(b, b, |db|, db, "image/png")], 2, |da| + |db|))
  {
    ExampleTextFile(a, da);
    ExamplePngFile(b, db);
    ExtractKeptSkippedKept(ZipEntry(a, false, Success(da)), ZipEntry(dir, true, Success([])),
                           ZipEntry(b, false, Success(db)), da, db);
  }

  /** Two readable kept entries around a skipped one yield the two files, in
      order, and the sum of their sizes. */
  lemma ExtractKeptSkippedKept(ea: ZipEntry, ed: ZipEntry, eb: ZipEntry, da: Bytes, db: Bytes)
    requires !Skipped(ea) && ea.data == Success(da) && Skipped(ed) && !Skipped(eb) && eb.data == Success(db)
    ensures ExtractZip(Success([ea, ed, eb])) ==
      Success(ExtractionResult([FileOf(ea, da), FileOf(eb, db)], 2, |da| + |db|))
  {
    var entries := [ea, ed, eb];
    var fa := FileOf(ea, da);
    var fb := FileOf(eb, db);
    KeptStep(entries, 0, []);
    assert [] + [fa] == [fa];
    SkippedStep(entries, 1, [fa]);
    KeptStep(entries, 2, [fa]);
    assert [fa] + [fb] == [fa, fb];
    TotalSizeAppend([fa], [fb]);
    assert TotalSize([fa]) == |da| by {
      assert [fa][..0] == [];
    }
  }

  /** A readable kept entry adds its file. */
  lemma KeptStep(entries: seq<ZipEntry>, k: nat, files: seq<ExtractedFile>)
    requires k < |entries| && ExtractedUpTo(entries, k) == Success(files)
    requires !Skipped(entries[k]) && entries[k].data.Success?
    ensures ExtractedUpTo(entries, k + 1) == Success(files + [FileOf(entries[k], entries[k].data.value)])
  {
  }

  /** A skipped entry adds nothing. */
  lemma SkippedStep(entries: seq<ZipEntry>, k: nat, files: seq<ExtractedFile>)
    requires k < |entries| && ExtractedUpTo(entries, k) == Success(files) && Skipped(entries[k])
    ensures ExtractedUpTo(entries, k + 1) == Success(files)
  {
  }

  /** A file whose name neither starts with a dot nor holds an underscore
      is kept. */
  lemma PlainNameKept(name: string, data: Result<Bytes, string>)
    requires name != [] && name[0] != '.' && '_' !in name
    ensures !Skipped(ZipEntry(name, false, data))
  {
    NotContainsWithoutHead(name, "__MACOSX");
  }

  lemma ExampleTextFile(a: string, da: Bytes)
    requires a == "a.txt"
    ensures !Skipped(ZipEntry(a, false, Success(da)))
    ensures FileOf(ZipEntry(a, false, Success(da)), da) == ExtractedFile(a, a, |da|, da, "text/plain")
  {
    ExampleTextType(a);
    assert a[0] == 'a' && '_' !in a;
    PlainNameKept(a, Success(da));
  }

  lemma ExampleTextType(a: string)
    requires a == "a.txt"
    ensures MimeType(a) == "text/plain"
  {
    assert a == "a" + "." + "txt";
    MimeTypeOfTableExtension("a", "txt");
    TxtEntry();
  }

  lemma TxtEntry()
    ensures "txt" in MimeTable && MimeTable["txt"] == "text/plain"
  {
  }

  lemma ExamplePngFile(b: string, db: Bytes)
    requires b == "sub/b.png"
    ensures !Skipped(ZipEntry(b, false, Success(db)))
    ensures FileOf(ZipEntry(b, false, Success(db)), db) == ExtractedFile(b, b, |db|, db, "image/png")
  {
    ExamplePngType(b);
    assert b[0] == 's' && '_' !in b;
    PlainNameKept(b, Success(db));
  }

  lemma ExamplePngType(b: string)
    requires b == "sub/b.png"
    ensures MimeType(b) == "image/png"
  {
    assert b == "sub/b" + "." + "png";
    MimeTypeOfTableExtension("sub/b", "png");
    PngEntry();
  }

  lemma PngEntry()
    ensures "png" in MimeTable && MimeTable["png"] == "image/png"
  {
  }

  /** `extractZipFile`: entries are visited in order, skipped ones are
      passed over, and the sizes of the kept ones are summed. */
  method ExtractZipFile(archive: Result<seq<ZipEntry>, string>) returns (r: Result<ExtractionResult, Exception>)
    ensures r == ExtractZip(archive)
  {
    if archive.Failure? {
      return Failure(InternalServerError("Failed to extract ZIP file: " + archive.error));
    }
    var zipEntries := archive.value;
    var extractedFiles: seq<ExtractedFile> := [];
    var totalSize := 0;
    var i := 0;
    while i < |zipEntries|
      invariant 0 <= i <= |zipEntries|
      invariant ExtractedUpTo(zipEntries, i) == Success(extractedFiles)
      invariant totalSize == TotalSize(extractedFiles)
    {
      var entry := zipEntries[i];
      if entry.isDirectory || StartsWith(entry.entryName, ".") || Contains(entry.entryName, "__MACOSX") {
        assert Skipped(entry);
        assert ExtractedUpTo(zipEntries, i + 1) == Success(extractedFiles);
        i := i + 1;
        continue;
      }
      assert !Skipped(entry);
      if entry.data.Failure? {
        assert ExtractedUpTo(zipEntries, i + 1) == Failure(entry.data.error);
        FailureSticks(zipEntries, i + 1, |zipEntries|);
        return Failure(InternalServerError("Failed to extract ZIP file: " + entry.data.error));
      }
      var data := entry.data.value;
      var mimeType := MimeType(entry.entryName);
      var file := ExtractedFile(entry.entryName, entry.entryName, |data|, data, mimeType);
      assert file == FileOf(entry, data);
      assert ExtractedUpTo(zipEntries, i + 1) == Success(extractedFiles + [file]);
      TotalSizeAppend(extractedFiles, [file]);
      assert TotalSize([file]) == |data| by {
        assert [file][..0] == [];
      }
      extractedFiles := extractedFiles + [file];
      totalSize := totalSize + |data|;
      i := i + 1;
    }
    return Success(ExtractionResult(extractedFiles, |extractedFiles|, totalSize));
  }

  // ---------------------------------------------------------------------------
  // Upload

  /** The `files.create` call for one file: its name, the target folder as
      its only parent, its content type and its bytes. */
  datatype CreateRequest = CreateRequest(name: string, parents: seq<string>, mimeType: string, body: Bytes)

  /** How a `files.create` call ends: with the response's id, which may be
      absent, or by throwing. */
  datatype CreateOutcome = Replied(id: Option<string>) | Threw(message: string)

  datatype FileProcessResult =
    FileProcessResult(fileName: string, driveFileId: string, size: nat, mimeType: string, uploadedAt: string)

  /** The call returned an id (`if (response.data.id)`). */
  predicate Uploaded(o: CreateOutcome)
  {
    o.Replied? && Truthy(o.id)
  }

  function UploadRequest(f: ExtractedFile, folderId: string): CreateRequest
  {
    CreateRequest(f.name, [folderId], f.mimeType, f.data)
  }

  /** One create call per file, in order. */
  function UploadRequests(files: seq<ExtractedFile>, folderId: string): (rs: seq<CreateRequest>)
    ensures |rs| == |files|
  {
    seq(|files|, k requires 0 <= k < |files| => UploadRequest(files[k], folderId))
  }

  function UploadResult(f: ExtractedFile, id: string, at: string): FileProcessResult
  {
    FileProcessResult(f.name, id, f.size, f.mimeType, at)
  }

  /** The results of the first `n` uploads: `create(k)` is how the call for
      file `k` ends and `now(k)` the time read after it. */
  function UploadsUpTo(files: seq<ExtractedFile>, create: nat -> CreateOutcome, now: nat -> string, n: nat)
    : (rs: seq<FileProcessResult>)
    requires n <= |files|
    ensures |rs| <= n
  {
    if n == 0 then []
    else
      UploadsUpTo(files, create, now, n - 1) +
        if Uploaded(create(n - 1)) then [UploadResult(files[n - 1], create(n - 1).id.value, now(n - 1))] else []
  }

  /** `uploadFilesToDrive`: `auth` is how `getClient` ends. */
  function UploadFiles(auth: Result<(), Exception>, files: seq<ExtractedFile>, create: nat -> CreateOutcome,
                       now: nat -> string): Result<seq<FileProcessResult>, Exception>
  {
    if auth.Failure? then Failure(auth.error) else Success(UploadsUpTo(files, create, now, |files|))
  }

  /** `uploadFilesToDrive`: every file is sent, and the ones whose call
      returns an id are reported; a throwing call is passed over. */
  method UploadFilesToDrive(auth: Result<(), Exception>, files: seq<ExtractedFile>, folderId: string,
                            create: nat -> CreateOutcome, now: nat -> string)
    returns (r: Result<seq<FileProcessResult>, Exception>, requests: seq<CreateRequest>)
    ensures r == UploadFiles(auth, files, create, now)
    ensures requests == if auth.Failure? then [] else UploadRequests(files, folderId)
  {
    requests := [];
    if auth.Failure? {
      return Failure(auth.error), requests;
    }
    var uploadResults: seq<FileProcessResult> := [];
    var i := 0;
    while i < |files|
      invariant 0 <= i <= |files|
      invariant uploadResults == UploadsUpTo(files, create, now, i)
      invariant requests == UploadRequests(files[..i], folderId)
    {
      var file := files[i];
      requests := requests + [CreateRequest(file.name, [folderId], file.mimeType, file.data)];
      var response := create(i);
      if response.Replied? && response.id.Some? && response.id.value != "" {
        uploadResults := uploadResults + [FileProcessResult(file.name, response.id.value, file.size, file.mimeType, now(i))];
      }
      assert files[..i + 1] == files[..i] + [file];
      i := i + 1;
    }
    assert files[..i] == files;
    return Success(uploadResults), requests;
  }

  /** The positions, below `n`, of the files whose call returned an id. */
  function UploadedPositions(create: nat -> CreateOutcome, n: nat): (ix: seq<nat>)
    ensures forall j :: 0 <= j < |ix| ==> ix[j] < n && Uploaded(create(ix[j]))
  {
    var ok := (k: nat) => Uploaded(create(k));
    PositionsHold(ok, n);
    Positions(ok, n)
  }

  /** The uploads reported are those of the files whose call returned an id,
      in file order, each with that id and the time after its call. */
  lemma {:induction false} UploadsAreSuccessfulCalls(files: seq<ExtractedFile>, create: nat -> CreateOutcome,
                                                     now: nat -> string, n: nat)
    requires n <= |files|
    ensures var rs := UploadsUpTo(files, create, now, n);
      var ix := UploadedPositions(create, n);
      && |rs| == |ix|
      && forall j :: 0 <= j < |ix| ==> rs[j] == UploadResult(files[ix[j]], create(ix[j]).id.value, now(ix[j]))
  {
    if n > 0 {
      UploadsAreSuccessfulCalls(files, create, now, n - 1);
    }
  }

  /** When every call but the one for file `k` returns an id, all files but
      `k` are reported, in order. */
  lemma {:induction false} OneFailedUploadIsSkipped(files: seq<ExtractedFile>, create: nat -> CreateOutcome,
                                                    now: nat -> string, k: nat, n: nat)
    requires k < n <= |files|
    requires !Uploaded(create(k)) && forall j :: 0 <= j < n && j != k ==> Uploaded(create(j))
    ensures var rs := UploadsUpTo(files, create, now, n);
      && |rs| == n - 1
      && forall j :: 0 <= j < n - 1 ==> rs[j].fileName == files[if j < k then j else j + 1].name
  {
    if n - 1 > k {
      OneFailedUploadIsSkipped(files, create, now, k, n - 1);
    } else {
      AllUploaded(files, create, now, k);
    }
  }

  /** When every call returns an id, every file is reported, in order. */
  lemma {:induction false} AllUploaded(files: seq<ExtractedFile>, create: nat -> CreateOutcome,
                                       now: nat -> string, n: nat)
    requires n <= |files|
    requires forall j :: 0 <= j < n ==> Uploaded(create(j))
    ensures var rs := UploadsUpTo(files, create, now, n);
      && |rs| == n
      && forall j :: 0 <= j < n ==> rs[j].fileName == files[j].name
  {
    if n > 0 {
      AllUploaded(files, create, now, n - 1);
    }
  }

  // ---------------------------------------------------------------------------
  // processFile

  datatype ProcessFileResponse = ProcessFileResponse(
    success: bool,
    message: string,
    processedFiles: seq<FileProcessResult>,
    driveFolder: string,
    totalFiles: nat,
    totalSize: nat)

  /** What `processFile` relies on: `new URL`, the HTTP client, the archive
      reader, the OAuth client, Drive and the clock. */
  datatype Services = Services(
    isUrl: string -> bool,
    fetch: DownloadRequest -> Result<Bytes, DownloadError>,
    open: Bytes -> Result<seq<ZipEntry>, string>,
    auth: Result<(), Exception>,
    create: nat -> CreateOutcome,
    now: nat -> string)

  /** A remote call made on behalf of a request. */
  datatype Call = Download(download: DownloadRequest) | Create(create: CreateRequest)

  function CreateCalls(rs: seq<CreateRequest>): (cs: seq<Call>)
    ensures |cs| == |rs|
  {
    seq(|rs|, k requires 0 <= k < |rs| => Create(rs[k]))
  }

  /** Every failure leaves `processFile` as an internal server error
      carrying the message of the exception it caught. */
  function Wrapped(e: Exception): Exception
  {
    InternalServerError("File processing failed: " + e.message)
  }

  function SuccessMessage(uploaded: nat): string
  {
    "Successfully processed and uploaded " + Decimal(uploaded) + " files"
  }

  /** The outcome of `processFile` and the remote calls it made. */
  datatype Run = Run(outcome: Result<ProcessFileResponse, Exception>, calls: seq<Call>)

  function ProcessRun(req: ProcessFileRequest, env: Services): Run
  {
    var valid := ValidateRequest(req, env.isUrl);
    if valid.Failure? then Run(Failure(Wrapped(valid.error)), [])
    else
      var url := req.fileUrl.value;
      match FolderIdFromLink(req.driveFolderLink.value)
      case Failure(e) => Run(Failure(Wrapped(e)), [])
      case Success(folderId) =>
        var download := [Download(DownloadRequest(url, DownloadTimeoutMs, MaxContentLength))];
        match DownloadFile(url, env.fetch)
        case Failure(e) => Run(Failure(Wrapped(e)), download)
        case Success(zip) =>
          match ExtractZip(env.open(zip))
          case Failure(e) => Run(Failure(Wrapped(e)), download)
          case Success(x) =>
            match UploadFiles(env.auth, x.files, env.create, env.now)
            case Failure(e) => Run(Failure(Wrapped(e)), download)
            case Success(results) =>
              Run(Success(ProcessFileResponse(true, SuccessMessage(|results|), results, folderId, x.totalFiles, x.totalSize)),
                  download + CreateCalls(UploadRequests(x.files, folderId)))
  }

  /** `processFile`: validate, parse the folder link, download, extract and
      upload, turning any failure into an internal server error. */
  method ProcessFile(req: ProcessFileRequest, env: Services)
    returns (r: Result<ProcessFileResponse, Exception>, calls: seq<Call>)
    ensures Run(r, calls) == ProcessRun(req, env)
  {
    calls := [];
    var valid := ValidateRequest(req, env.isUrl);
    if valid.Failure? {
      return Failure(Wrapped(valid.error)), calls;
    }
    var folder := ExtractFolderIdFromLink(req.driveFolderLink.value);
    if folder.Failure? {
      return Failure(Wrapped(folder.error)), calls;
    }
    var folderId := folder.value;
    var url := req.fileUrl.value;
    calls := calls + [Download(DownloadRequest(url, DownloadTimeoutMs, MaxContentLength))];
    var zipBuffer := DownloadFile(url, env.fetch);
    if zipBuffer.Failure? {
      return Failure(Wrapped(zipBuffer.error)), calls;
    }
    var extractedFiles := ExtractZipFile(env.open(zipBuffer.value));
    if extractedFiles.Failure? {
      return Failure(Wrapped(extractedFiles.error)), calls;
    }
    var uploadResults, requests := UploadFilesToDrive(env.auth, extractedFiles.value.files, folderId, env.create, env.now);
    calls := calls + CreateCalls(requests);
    if uploadResults.Failure? {
      return Failure(Wrapped(uploadResults.error)), calls;
    }
    var results := uploadResults.value;
    var response := ProcessFileResponse(
      true,
      SuccessMessage(|results|),
      results,
      folderId,
      extractedFiles.value.totalFiles,
      extractedFiles.value.totalSize);
    return Success(response), calls;
  }

  /** A request that fails validation is refused before any remote call,
      with the reason `ValidateRequest` gives. */
  lemma InvalidRequestMakesNoCall(req: ProcessFileRequest, env: Services)
    requires ValidateRequest(req, env.isUrl).Failure?
    ensures ProcessRun(req, env) == Run(Failure(Wrapped(ValidateRequest(req, env.isUrl).error)), [])
  {
  }

  /** So is a valid request whose folder link cannot be parsed. */
  lemma InvalidFolderLinkMakesNoCall(req: ProcessFileRequest, env: Services)
    requires ValidateRequest(req, env.isUrl).Success?
    requires FolderIdFromLink(req.driveFolderLink.value).Failure?
    ensures ProcessRun(req, env) == Run(Failure(Wrapped(InvalidFolderLink)), [])
  {
  }

  /** Whatever stage fails, the caller sees an internal server error whose
      message starts with `File processing failed: `. */
  lemma ProcessFailuresAreInternal(req: ProcessFileRequest, env: Services)
    requires ProcessRun(req, env).outcome.Failure?
    ensures var e := ProcessRun(req, env).outcome.error;
      e.InternalServerError? && StartsWith(e.message, "File processing failed: ")
  {
    var e := ProcessRun(req, env).outcome.error;
    var p := "File processing failed: ";
    assert e.message[..|p|] == p;
  }

  /** A successful run had a valid request, made one download with the
      five-minute timeout and the 500 MiB cap and one create call per
      extracted file into the parsed folder, and reports the folder and the
      extraction totals, which count every extracted file whether or not its
      upload succeeded. */
  lemma ProcessSuccess(req: ProcessFileRequest, env: Services)
    requires ProcessRun(req, env).outcome.Success?
    ensures Present(req.fileUrl) && Present(req.driveFolderLink) && env.isUrl(req.fileUrl.value)
    ensures var resp := ProcessRun(req, env).outcome.value;
      var calls := ProcessRun(req, env).calls;
      && FolderIdFromLink(req.driveFolderLink.value) == Success(resp.driveFolder)
      && resp.success
      && |resp.processedFiles| <= resp.totalFiles
      && |calls| == 1 + resp.totalFiles
      && calls[0] == Download(DownloadRequest(req.fileUrl.value, 300000, 524288000))
      && forall k :: 1 <= k < |calls| ==> calls[k].Create? && calls[k].create.parents == [resp.driveFolder]
  {
    ValidateRequestOrder(req, env.isUrl);
  }

  /** An archive at a folder link of the form `.../drive/folders/ABCDEFG123`
      holding `a.txt` and `sub/b.png`, both uploaded, is reported as two files
      of types `text/plain` and `image/png` in folder `ABCDEFG123`. */
  lemma ProcessFileExample(url: string, link: string, host: string, folderId: string,
                           zip: Bytes, a: string, dir: string, b: string, da: Bytes, db: Bytes, env: Services)
    requires host == "https://drive.example.com/drive" && folderId == "ABCDEFG123"
    requires link == host + "/folders/" + folderId
    requires a == "a.txt" && dir == "sub/" && b == "sub/b.png"
    requires url != [] && !Blank(url) && env.isUrl(url)
    requires env.fetch(DownloadRequest(url, DownloadTimeoutMs, MaxContentLength)) == Success(zip)
    requires env.open(zip) == Success([ZipEntry(a, false, Success(da)), ZipEntry(dir, true, Success([])),
                                       ZipEntry(b, false, Success(db))])
    requires env.auth.Success? && Uploaded(env.create(0)) && Uploaded(env.create(1))
    ensures ProcessRun(ProcessFileRequest(Some(url), Some(link)), env).outcome.Success?
    ensures var resp := ProcessRun(ProcessFileRequest(Some(url), Some(link)), env).outcome.value;
      && resp.driveFolder == "ABCDEFG123"
      && resp.totalFiles == 2
      && |resp.processedFiles| == 2
      && resp.processedFiles[0].mimeType == "text/plain"
      && resp.processedFiles[1].mimeType == "image/png"
  {
    var req := ProcessFileRequest(Some(url), Some(link));
    ExampleLink(link, host, folderId);
    ValidateRequestOrder(req, env.isUrl);
    ExtractZipExample(a, dir, b, da, db);
    var files := [ExtractedFile(a, a, |da|, da, "text/plain"), ExtractedFile(b, b, |db|, db, "image/png")];
    TwoUploads(files, env.create, env.now);
    StagesSucceed(req, env, folderId, zip, ExtractionResult(files, 2, |da| + |db|),
                  UploadsUpTo(files, env.create, env.now, 2));
  }

  /** The example's folder link is not blank and names folder `ABCDEFG123`. */
  lemma ExampleLink(link: string, host: string, folderId: string)
    requires host == "https://drive.example.com/drive" && folderId == "ABCDEFG123"
    requires link == host + "/folders/" + folderId
    ensures !Blank(link) && FolderIdFromLink(link) == Success(folderId)
  {
    assert 'f' !in host;
    FoldersLinkGivesId(host, folderId, "");
    assert link == host + "/folders/" + folderId + "";
    assert !IsSpace(link[0]);
  }

  /** Two files whose uploads both return an id are both reported. */
  lemma TwoUploads(files: seq<ExtractedFile>, create: nat -> CreateOutcome, now: nat -> string)
    requires |files| == 2 && Uploaded(create(0)) && Uploaded(create(1))
    ensures |UploadsUpTo(files, create, now, 2)| == 2
    ensures UploadsUpTo(files, create, now, 2)[0].mimeType == files[0].mimeType
    ensures UploadsUpTo(files, create, now, 2)[1].mimeType == files[1].mimeType
  {
    assert UploadsUpTo(files, create, now, 1) == [UploadResult(files[0], create(0).id.value, now(0))];
  }

  /** When every stage succeeds, `processFile` reports the folder, the
      extraction totals and the upload results. */
  lemma StagesSucceed(req: ProcessFileRequest, env: Services, folderId: string, zip: Bytes,
                      x: ExtractionResult, results: seq<FileProcessResult>)
    requires ValidateRequest(req, env.isUrl).Success?
    requires FolderIdFromLink(req.driveFolderLink.value) == Success(folderId)
    requires env.fetch(DownloadRequest(req.fileUrl.value, DownloadTimeoutMs, MaxContentLength)) == Success(zip)
    requires ExtractZip(env.open(zip)) == Success(x)
    requires env.auth.Success? && UploadsUpTo(x.files, env.create, env.now, |x.files|) == results
    ensures ProcessRun(req, env).outcome ==
      Success(ProcessFileResponse(true, SuccessMessage(|results|), results, folderId, x.totalFiles, x.totalSize))
  {
  }
}
