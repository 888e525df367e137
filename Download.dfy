/** The batch download handler (`POST /download`), the file server
    (`GET /files/:filename`) and the listing (`GET /files`). As in the stream
    handler, the environment is given as inputs: the bound JSON body (absent
    when binding failed), the URL validator, the folder reads, whether the
    downloader's combined-output run succeeded, and `os.Stat` / `os.Open` as
    oracles over paths. */
module Download {
  import opened Wrappers
  import opened GoPath
  import opened Files
  import opened Http
  import opened DownloadProgress

  /** The JSON body of a batch request. */
  datatype DownloadRequest = DownloadRequest(url: string, format: string, resolution: string, videoFormat: string)

  /** The downloader's argument vector for a batch request: the stream
      vector without the progress template. */
  function BatchArgs(req: DownloadRequest, folder: string): seq<string>
  {
    var outputPath := Join(folder, OutputTemplate);
    if req.format == "audio" then
      ["-f", "bestaudio/best",
       "--extract-audio", "--audio-format", "mp3", "--audio-quality", "192K",
       "--no-playlist", "--prefer-free-formats",
       "-o", outputPath, req.url]
    else
      ["-f", BuildVideoFormat(req.resolution, req.videoFormat),
       "--no-playlist", "--prefer-free-formats",
       "-o", outputPath, req.url]
  }

  /** The stream handler's vector for the same parameters is the batch vector
      with "--progress-template" and its template inserted before the URL. */
  lemma BatchArgsAreStreamArgsWithoutProgress(req: DownloadRequest, folder: string)
    ensures var b := BatchArgs(req, folder);
      && |b| > 0
      && StreamArgs(Query(req.url, req.format, req.resolution, req.videoFormat), folder) ==
         b[..|b| - 1] + ["--progress-template", ProgressTemplate] + [b[|b| - 1]]
  {
  }

  /** How a batch request ends. */
  datatype BatchOutcome =
    | InvalidRequest
    | InvalidFormat
    | DownloadFailed
    | CompletedWithoutFile
    | CompletedWithFile(name: string, size: nat)

  /** The request passed both checks, so the downloader is run. */
  predicate BatchValidated(bound: Option<DownloadRequest>, isValidURL: string -> bool)
  {
    bound.Some? && isValidURL(bound.value.url) && IsKnownFormat(bound.value.format)
  }

  /** The outcome of a batch request, decided in the handler's order: binding
      and URL, format, the run, the after-read, the difference, the stat. */
  function BatchOutcomeOf(bound: Option<DownloadRequest>, isValidURL: string -> bool, folder: string,
                          beforeDir: Option<seq<DirEntry>>, runOk: bool, afterDir: Option<seq<DirEntry>>,
                          stat: string -> StatResult): BatchOutcome
  {
    if bound.None? || !isValidURL(bound.value.url) then InvalidRequest
    else if !IsKnownFormat(bound.value.format) then InvalidFormat
    else if !runOk then DownloadFailed
    else CompletionOf(BeforeSnapshot(beforeDir), folder, afterDir, stat)
  }

  /** After a successful run: the first new name of the after-read, when the
      read succeeded, there is one, and its stat succeeded. */
  function CompletionOf(before: seq<string>, folder: string, afterDir: Option<seq<DirEntry>>,
                        stat: string -> StatResult): (o: BatchOutcome)
    ensures o.CompletedWithoutFile? || o.CompletedWithFile?
  {
    if afterDir.None? then CompletedWithoutFile
    else
      var newFiles := NewFiles(before, NonDirNames(afterDir.value));
      if newFiles == [] then CompletedWithoutFile
      else match stat(Join(folder, newFiles[0]))
        case Found(info) => CompletedWithFile(newFiles[0], info.size)
        case _ => CompletedWithoutFile
  }

  /** `{"message": "Download completed"}` */
  function CompletedBody(): (p: Payload)
    ensures p.Keys == {"message"}
  {
    map["message" := JStr("Download completed")]
  }

  /** The status and JSON body the handler sends for each outcome. */
  function ResponseFor(o: BatchOutcome): (r: Response)
    ensures r.status == StatusBadRequest <==> o.InvalidRequest? || o.InvalidFormat?
    ensures r.status == StatusInternalServerError <==> o.DownloadFailed?
    ensures r.status == StatusOK <==> o.CompletedWithoutFile? || o.CompletedWithFile?
    ensures r.status == StatusOK ==> "message" in r.body && "error" !in r.body
    ensures r.status != StatusOK ==> r.body.Keys == {"error"}
  {
    match o
    case InvalidRequest => Response(StatusBadRequest, ErrorBody("Invalid request or URL"))
    case InvalidFormat => Response(StatusBadRequest, ErrorBody("Invalid format. Choose 'video' or 'audio'"))
    case DownloadFailed => Response(StatusInternalServerError, ErrorBody("Download failed"))
    case CompletedWithoutFile => Response(StatusOK, CompletedBody())
    case CompletedWithFile(name, size) =>
      Response(StatusOK, map["message" := JStr("Download completed"), "filename" := JStr(name),
                             "size" := JInt(size), "downloadUrl" := JStr("/files/" + name)])
  }

  /** `DownloadVideo`: checks the request, snapshots the folder, runs the
      downloader to completion, and reports the first new file. The captured
      `output` is only logged: nothing returned depends on it. */
  method DownloadVideo(bound: Option<DownloadRequest>, isValidURL: string -> bool, folder: string,
                       beforeDir: Option<seq<DirEntry>>, runOk: bool, output: string,
                       afterDir: Option<seq<DirEntry>>, stat: string -> StatResult)
    returns (resp: Response, process: Process)
    ensures resp == ResponseFor(BatchOutcomeOf(bound, isValidURL, folder, beforeDir, runOk, afterDir, stat))
    ensures process == if BatchValidated(bound, isValidURL) then Launched(BatchArgs(bound.value, folder)) else NoProcess
  {
    if bound.None? || !isValidURL(bound.value.url) {
      return ResponseFor(InvalidRequest), NoProcess;
    }
    var req := bound.value;
    if req.format != "video" && req.format != "audio" {
      return ResponseFor(InvalidFormat), NoProcess;
    }

    // a failed read is logged and leaves a nil snapshot
    var beforeFiles := GetFileList(beforeDir);
    var before := if beforeFiles.Some? then beforeFiles.value else [];
    assert before == BeforeSnapshot(beforeDir);
    process := Launched(BatchArgs(req, folder));
    if !runOk {
      return ResponseFor(DownloadFailed), process;
    }

    resp := ReportCompletion(before, folder, afterDir, stat);
  }

  /** The part of `DownloadVideo` after a successful run: re-read the folder,
      take the first new name and stat it. */
  method ReportCompletion(before: seq<string>, folder: string, afterDir: Option<seq<DirEntry>>,
                          stat: string -> StatResult) returns (resp: Response)
    ensures resp == ResponseFor(CompletionOf(before, folder, afterDir, stat))
  {
    var afterFiles := GetFileList(afterDir);
    if afterFiles.None? {
      return ResponseFor(CompletedWithoutFile);
    }
    var newFiles := FindNewFiles(before, afterFiles.value);
    if |newFiles| == 0 {
      return ResponseFor(CompletedWithoutFile);
    }
    var downloaded := newFiles[0];
    var info := stat(Join(folder, downloaded));
    if !info.Found? {
      return ResponseFor(CompletedWithoutFile);
    }
    resp := ResponseFor(CompletedWithFile(downloaded, info.info.size));
  }

  /** A bind failure or an invalid URL is reported first, whatever the
      format; only a bound request with a valid URL has its format checked. */
  lemma ValidationOrder(bound: Option<DownloadRequest>, isValidURL: string -> bool, folder: string,
                        beforeDir: Option<seq<DirEntry>>, runOk: bool, afterDir: Option<seq<DirEntry>>,
                        stat: string -> StatResult)
    ensures bound.None? || !isValidURL(bound.value.url) ==>
      ResponseFor(BatchOutcomeOf(bound, isValidURL, folder, beforeDir, runOk, afterDir, stat)) ==
      Response(StatusBadRequest, ErrorBody("Invalid request or URL"))
    ensures bound.Some? && isValidURL(bound.value.url) && !IsKnownFormat(bound.value.format) ==>
      ResponseFor(BatchOutcomeOf(bound, isValidURL, folder, beforeDir, runOk, afterDir, stat)) ==
      Response(StatusBadRequest, ErrorBody("Invalid format. Choose 'video' or 'audio'"))
  {
  }

  /** Any failure of the run gives 500 `{"error":"Download failed"}`. */
  lemma RunFailureResponse(bound: Option<DownloadRequest>, isValidURL: string -> bool, folder: string,
                           beforeDir: Option<seq<DirEntry>>, afterDir: Option<seq<DirEntry>>,
                           stat: string -> StatResult)
    requires BatchValidated(bound, isValidURL)
    ensures ResponseFor(BatchOutcomeOf(bound, isValidURL, folder, beforeDir, false, afterDir, stat)) ==
            Response(StatusInternalServerError, ErrorBody("Download failed"))
  {
  }

  /** After a successful run, a failed after-read, an empty difference or a
      failed stat of the first new file all give a bare 200 message. */
  lemma DegradedCompletion(bound: Option<DownloadRequest>, isValidURL: string -> bool, folder: string,
                           beforeDir: Option<seq<DirEntry>>, afterDir: Option<seq<DirEntry>>,
                           stat: string -> StatResult)
    requires BatchValidated(bound, isValidURL)
    requires afterDir.None?
          || NewFiles(BeforeSnapshot(beforeDir), NonDirNames(afterDir.value)) == []
          || !stat(Join(folder, NewFiles(BeforeSnapshot(beforeDir), NonDirNames(afterDir.value))[0])).Found?
    ensures ResponseFor(BatchOutcomeOf(bound, isValidURL, folder, beforeDir, true, afterDir, stat)) ==
            Response(StatusOK, map["message" := JStr("Download completed")])
  {
  }

  /** Full success reports the first new file, its size and its retrieval
      path; the file is the earliest entry of the after-read that is new. */
  lemma FullSuccess(bound: Option<DownloadRequest>, isValidURL: string -> bool, folder: string,
                    beforeDir: Option<seq<DirEntry>>, entries: seq<DirEntry>, stat: string -> StatResult)
    requires BatchValidated(bound, isValidURL)
    requires NewFiles(BeforeSnapshot(beforeDir), NonDirNames(entries)) != []
    requires stat(Join(folder, NewFiles(BeforeSnapshot(beforeDir), NonDirNames(entries))[0])).Found?
    ensures var name := NewFiles(BeforeSnapshot(beforeDir), NonDirNames(entries))[0];
      var r := ResponseFor(BatchOutcomeOf(bound, isValidURL, folder, beforeDir, true, Some(entries), stat));
      && r.status == StatusOK
      && r.body == map["message" := JStr("Download completed"), "filename" := JStr(name),
                       "size" := JInt(stat(Join(folder, name)).info.size), "downloadUrl" := JStr("/files/" + name)]
      && name in NonDirNames(entries) && name !in BeforeSnapshot(beforeDir)
  {
    var name := NewFiles(BeforeSnapshot(beforeDir), NonDirNames(entries))[0];
    NewFilesMembers(BeforeSnapshot(beforeDir), NonDirNames(entries), name);
  }

  /** An empty JSON object binds to an all-empty request, which the
      validator rejects: 400. A valid URL with format "invalid": 400 on the
      format. */
  lemma RequestTests(isValidURL: string -> bool, folder: string, beforeDir: Option<seq<DirEntry>>,
                     runOk: bool, afterDir: Option<seq<DirEntry>>, stat: string -> StatResult)
    requires !isValidURL("") && isValidURL("https://example.com")
    ensures ResponseFor(BatchOutcomeOf(Some(DownloadRequest("", "", "", "")), isValidURL, folder,
                                       beforeDir, runOk, afterDir, stat)).status == StatusBadRequest
    ensures ResponseFor(BatchOutcomeOf(Some(DownloadRequest("https://example.com", "invalid", "", "")), isValidURL,
                                       folder, beforeDir, runOk, afterDir, stat)) ==
            Response(StatusBadRequest, ErrorBody("Invalid format. Choose 'video' or 'audio'"))
  {
  }

  // ---------------------------------------------------------------------------
  // Serving one file

  /** The outcome of `os.Open` followed by the open file's `Stat`. */
  datatype OpenResult = OpenFailed | FstatFailed | Opened(info: StatInfo)

  /** A JSON error, or the file sent as an attachment under its base name
      with its MIME type and length. */
  datatype ServeResponse =
    | ServeError(response: Response)
    | Attachment(filename: string, path: string, contentType: string, size: nat)

  /** `ServeFile`: 400 for an empty name; otherwise the name is cut to its
      base element, which is then served from the folder. */
  function ServeFile(param: string, folder: string, stat: string -> StatResult,
                     open: string -> OpenResult): (r: ServeResponse)
    ensures param == "" ==> r == ServeError(Response(StatusBadRequest, ErrorBody("Filename is required")))
    ensures r.Attachment? ==> r.filename == Base(param) && (r.filename == "/" || Separator !in r.filename)
    ensures param != "" ==> r == ServeName(Base(param), folder, stat, open)
  {
    if param == "" then ServeError(Response(StatusBadRequest, ErrorBody("Filename is required")))
    else ServeName(Base(param), folder, stat, open)
  }

  /** Serving a sanitised name: 404 only when the stat says the file does
      not exist (any other stat error goes on to the open); 500 when opening
      or the open file's stat fails; otherwise the attachment. */
  function ServeName(filename: string, folder: string, stat: string -> StatResult,
                     open: string -> OpenResult): (r: ServeResponse)
    ensures stat(Join(folder, filename)).NotExist? ==>
            r == ServeError(Response(StatusNotFound, ErrorBody("File not found")))
    ensures r.ServeError? && r.response.status == StatusInternalServerError <==>
            !stat(Join(folder, filename)).NotExist? && !open(Join(folder, filename)).Opened?
    ensures r.Attachment? <==> !stat(Join(folder, filename)).NotExist? && open(Join(folder, filename)).Opened?
    ensures r.Attachment? ==>
            && r.filename == filename
            && r.path == Join(folder, filename)
            && r.contentType == GetContentType(filename)
            && r.size == open(r.path).info.size
  {
    var filePath := Join(folder, filename);
    if stat(filePath).NotExist? then ServeError(Response(StatusNotFound, ErrorBody("File not found")))
    else match open(filePath)
      case OpenFailed => ServeError(Response(StatusInternalServerError, ErrorBody("Failed to open file")))
      case FstatFailed => ServeError(Response(StatusInternalServerError, ErrorBody("Failed to get file info")))
      case Opened(info) => Attachment(filename, filePath, GetContentType(filename), info.size)
  }

  /** The base of `dir/name` is `name`. */
  lemma BaseAfterSeparator(dir: string, name: string)
    requires name != "" && Separator !in name
    ensures Base(dir + [Separator] + name) == name
  {
    var p := dir + [Separator] + name;
    assert name[|name| - 1] in name;
    assert p[|p| - 1] == name[|name| - 1];
    assert TrimTrailingSeparators(p) == p;
    LastElementAfterSeparator(dir, name);
  }

  /** `Base` and `Parent` take apart what `Join` put together: joining a
      plain element onto a clean folder, the base is the element and the
      parent is the folder. */
  lemma JoinRoundTrip(dir: string, name: string)
    requires dir != "" && dir[|dir| - 1] != Separator && IsPlainElement(name)
    ensures Base(Join(dir, name)) == name && Parent(Join(dir, name)) == dir
  {
    if dir == "." {
      BaseOfElement(name);
    } else {
      BaseAfterSeparator(dir, name);
    }
    ParentOfJoin(dir, name);
  }

  /** A request for ".." is not kept inside the folder: `Join` cleans
      `folder/..` to the folder's parent, which is then opened and announced
      as an attachment. The parent is a directory, so the copy of its
      contents (not modelled) fails on the first read and only the headers
      reach the client. */
  lemma ServeDotDotLeavesFolder(parent: string, name: string, stat: string -> StatResult,
                                open: string -> OpenResult)
    requires parent != "" && parent[|parent| - 1] != Separator && IsPlainElement(name)
    requires !stat(parent).NotExist? && open(parent).Opened?
    ensures ServeFile("..", Join(parent, name), stat, open) ==
            Attachment("..", parent, GetContentType(".."), open(parent).info.size)
  {
    BaseOfDotDot();
    ParentOfJoin(parent, name);
  }

  /** A request for "." serves the folder itself. */
  lemma ServeDotServesFolder(folder: string, stat: string -> StatResult, open: string -> OpenResult)
    requires folder != "" && !stat(folder).NotExist? && open(folder).Opened?
    ensures ServeFile(".", folder, stat, open) == Attachment(".", folder, GetContentType("."), open(folder).info.size)
  {
    BaseOfElement(".");
  }

  /** Directory components in the requested name are dropped: asking for
      `dir/name` serves exactly what asking for `name` serves. */
  lemma ServeFileDropsDirectories(dir: string, name: string, folder: string, stat: string -> StatResult,
                                  open: string -> OpenResult)
    requires name != "" && Separator !in name
    ensures ServeFile(dir + [Separator] + name, folder, stat, open) == ServeFile(name, folder, stat, open)
  {
    BaseAfterSeparator(dir, name);
    BaseOfElement(name);
  }

  // ---------------------------------------------------------------------------
  // Listing the folder

  /** The records of the non-directory entries whose record could be built,
      in read order. */
  function ListedFiles(entries: seq<DirEntry>, folder: string, stat: string -> StatResult): seq<FileInfo>
  {
    Collect(entries, Contribution(folder, stat))
  }

  /** The contributions of `entries`, concatenated in read order. */
  function Collect(entries: seq<DirEntry>, contribution: DirEntry -> seq<FileInfo>): seq<FileInfo>
  {
    if entries == [] then []
    else Collect(entries[..|entries| - 1], contribution) + contribution(entries[|entries| - 1])
  }

  /** `EntryRecord` for one folder and one stat. */
  function Contribution(folder: string, stat: string -> StatResult): DirEntry -> seq<FileInfo>
  {
    e => EntryRecord(e, folder, stat)
  }

  /** What one entry contributes to the listing: nothing for a directory or a
      failed stat, otherwise its record. */
  function EntryRecord(e: DirEntry, folder: string, stat: string -> StatResult): (r: seq<FileInfo>)
    ensures |r| <= 1
    ensures r == [] <==> e.isDir || !stat(Join(folder, e.name)).Found?
    ensures r != [] ==> RecordOf(e, folder, stat, r[0])
  {
    if e.isDir then []
    else match CreateFileInfo(e.name, folder, stat)
      case Some(info) => [info]
      case None => []
  }

  /** A slice that was never appended to is nil, which JSON writes as null. */
  function FilesJson(files: seq<FileInfo>): (v: JsonValue)
    ensures files == [] <==> v == JNull
  {
    if files == [] then JNull else JFiles(files)
  }

  /** The body of a successful listing: the records and their count. */
  function ListingBody(files: seq<FileInfo>): (p: Payload)
    ensures p.Keys == {"files", "count"}
    ensures p["count"] == JInt(|files|) && p["files"] == FilesJson(files)
  {
    map["files" := FilesJson(files), "count" := JInt(|files|)]
  }

  /** `ListFiles`: 500 when the folder cannot be read; otherwise 200 with the
      records of the usable files and their count. */
  method ListFiles(listing: Option<seq<DirEntry>>, folder: string, stat: string -> StatResult)
    returns (resp: Response)
    ensures listing.None? ==> resp == Response(StatusInternalServerError, ErrorBody("Failed to read download folder"))
    ensures listing.Some? ==>
      var files := ListedFiles(listing.value, folder, stat);
      resp == Response(StatusOK, ListingBody(files))
  {
    if listing.None? {
      return Response(StatusInternalServerError, ErrorBody("Failed to read download folder"));
    }
    var entries := listing.value;
    var files: seq<FileInfo> := [];
    var i := 0;
    while i < |entries|
      invariant 0 <= i <= |entries|
      invariant files == ListedFiles(entries[..i], folder, stat)
    {
      var entry := entries[i];
      ListedFilesPrefixStep(entries, i, folder, stat);
      if entry.isDir {
        i := i + 1;
        continue;
      }
      var info := CreateFileInfo(entry.name, folder, stat);
      if info.None? {
        i := i + 1;
        continue;
      }
      assert EntryRecord(entry, folder, stat) == [info.value];
      files := files + [info.value];
      i := i + 1;
    }
    assert entries[..i] == entries;
    resp := Response(StatusOK, ListingBody(files));
  }

  /** `fi` is the record built for the non-directory entry `e`. */
  predicate RecordOf(e: DirEntry, folder: string, stat: string -> StatResult, fi: FileInfo)
  {
    !e.isDir && CreateFileInfo(e.name, folder, stat) == Some(fi)
  }

  /** Every listed record was built for some non-directory entry. */
  lemma ListedFilesSound(entries: seq<DirEntry>, folder: string, stat: string -> StatResult, fi: FileInfo)
    requires fi in ListedFiles(entries, folder, stat)
    ensures exists i :: 0 <= i < |entries| && RecordOf(entries[i], folder, stat, fi)
  {
    var i := ListedFileSource(entries, folder, stat, fi);
  }

  /** The position of the entry a listed record was built for. */
  lemma ListedFileSource(entries: seq<DirEntry>, folder: string, stat: string -> StatResult,
                             fi: FileInfo)
    returns (i: nat)
    requires fi in ListedFiles(entries, folder, stat)
    ensures i < |entries| && RecordOf(entries[i], folder, stat, fi)
  {
    i := CollectSource(entries, Contribution(folder, stat), fi);
    EntryRecordSource(entries[i], folder, stat, fi);
  }

  /** A record in one entry's contribution is that entry's record. */
  lemma EntryRecordSource(e: DirEntry, folder: string, stat: string -> StatResult, fi: FileInfo)
    requires fi in EntryRecord(e, folder, stat)
    ensures RecordOf(e, folder, stat, fi)
  {
    var info := CreateFileInfo(e.name, folder, stat);
    assert !e.isDir && info.Some?;
    assert EntryRecord(e, folder, stat) == [info.value];
  }

  /** Every non-directory entry whose stat succeeded has its record listed. */
  lemma ListedFilesComplete(entries: seq<DirEntry>, folder: string, stat: string -> StatResult,
                              i: nat, fi: FileInfo)
    requires i < |entries| && RecordOf(entries[i], folder, stat, fi)
    ensures fi in ListedFiles(entries, folder, stat)
  {
    assert EntryRecord(entries[i], folder, stat) == [fi];
    CollectComplete(entries, Contribution(folder, stat), i, fi);
  }

  /** A record is listed exactly when it is the record of some non-directory
      entry whose stat succeeded. */
  lemma ListedFilesMembers(entries: seq<DirEntry>, folder: string, stat: string -> StatResult, fi: FileInfo)
    ensures fi in ListedFiles(entries, folder, stat) <==>
            exists i :: 0 <= i < |entries| && RecordOf(entries[i], folder, stat, fi)
  {
    if fi in ListedFiles(entries, folder, stat) {
      ListedFilesSound(entries, folder, stat, fi);
    }
    if exists i :: 0 <= i < |entries| && RecordOf(entries[i], folder, stat, fi) {
      var i :| 0 <= i < |entries| && RecordOf(entries[i], folder, stat, fi);
      ListedFilesComplete(entries, folder, stat, i, fi);
    }
  }

  /** The names of a list of records. */
  function Names(files: seq<FileInfo>): (names: seq<string>)
    ensures |names| == |files| && forall k :: 0 <= k < |files| ==> names[k] == files[k].name
  {
    seq(|files|, k requires 0 <= k < |files| => files[k].name)
  }

  /** The listing never holds more records than there are non-directory
      entries. */
  lemma {:induction false} ListedFilesBound(entries: seq<DirEntry>, folder: string, stat: string -> StatResult)
    ensures |ListedFiles(entries, folder, stat)| <= |NonDirNames(entries)|
  {
    if entries != [] {
      ListedFilesBound(entries[..|entries| - 1], folder, stat);
    }
  }

  /** When every stat succeeds, the listing names exactly the non-directory
      entries, in read order. */
  lemma ListedFilesNameAllFiles(entries: seq<DirEntry>, folder: string, stat: string -> StatResult)
    requires forall i :: 0 <= i < |entries| && !entries[i].isDir ==> stat(Join(folder, entries[i].name)).Found?
    ensures Names(ListedFiles(entries, folder, stat)) == NonDirNames(entries)
  {
    forall i | 0 <= i < |entries|
      ensures Names(Contribution(folder, stat)(entries[i])) == EntryName(entries[i])
    {
      EntryRecordName(entries[i], folder, stat);
    }
    CollectNames(entries, Contribution(folder, stat));
  }

  /** An entry whose stat succeeds adds its own name to the listing. */
  lemma EntryRecordName(e: DirEntry, folder: string, stat: string -> StatResult)
    requires !e.isDir ==> stat(Join(folder, e.name)).Found?
    ensures Names(EntryRecord(e, folder, stat)) == EntryName(e)
  {
    var r := EntryRecord(e, folder, stat);
    if !e.isDir {
      assert r == [r[0]] && r[0].name == e.name;
    }
  }

  lemma NamesAppend(a: seq<FileInfo>, b: seq<FileInfo>)
    ensures Names(a + b) == Names(a) + Names(b)
  {
  }

  /** Listing one more entry appends that entry's contribution. */
  lemma ListedFilesSnoc(entries: seq<DirEntry>, e: DirEntry, folder: string, stat: string -> StatResult)
    ensures ListedFiles(entries + [e], folder, stat) == ListedFiles(entries, folder, stat) + EntryRecord(e, folder, stat)
  {
    CollectSnoc(entries, e, Contribution(folder, stat));
  }

  /** The name one entry adds to `NonDirNames`. */
  function EntryName(e: DirEntry): seq<string>
  {
    if e.isDir then [] else [e.name]
  }

  /** Collecting one more entry appends its contribution. */
  lemma CollectSnoc(entries: seq<DirEntry>, e: DirEntry, contribution: DirEntry -> seq<FileInfo>)
    ensures Collect(entries + [e], contribution) == Collect(entries, contribution) + contribution(e)
  {
    assert (entries + [e])[..|entries|] == entries;
  }

  /** The position whose contribution holds a collected item. */
  lemma {:induction false} CollectSource(entries: seq<DirEntry>, contribution: DirEntry -> seq<FileInfo>, x: FileInfo)
    returns (i: nat)
    requires x in Collect(entries, contribution)
    ensures i < |entries| && x in contribution(entries[i])
  {
    var p := entries[..|entries| - 1];
    if x in Collect(p, contribution) {
      i := CollectSource(p, contribution, x);
      assert entries[i] == p[i];
    } else {
      i := |entries| - 1;
    }
  }

  /** Every item of every contribution is collected. */
  lemma {:induction false} CollectComplete(entries: seq<DirEntry>, contribution: DirEntry -> seq<FileInfo>,
                                           i: nat, x: FileInfo)
    requires i < |entries| && x in contribution(entries[i])
    ensures x in Collect(entries, contribution)
  {
    var p := entries[..|entries| - 1];
    if i < |p| {
      assert p[i] == entries[i];
      CollectComplete(p, contribution, i, x);
    }
  }

  /** When each entry contributes records named as `NonDirNames` names it,
      the collected records name exactly the non-directory entries. */
  lemma {:induction false} CollectNames(entries: seq<DirEntry>, contribution: DirEntry -> seq<FileInfo>)
    requires forall i :: 0 <= i < |entries| ==> Names(contribution(entries[i])) == EntryName(entries[i])
    ensures Names(Collect(entries, contribution)) == NonDirNames(entries)
  {
    if entries != [] {
      var p := entries[..|entries| - 1];
      assert forall i :: 0 <= i < |p| ==> p[i] == entries[i];
      CollectNames(p, contribution);
      NamesAppend(Collect(p, contribution), contribution(entries[|entries| - 1]));
    }
  }

  /** Listing a prefix one entry longer appends that entry's contribution. */
  lemma ListedFilesPrefixStep(entries: seq<DirEntry>, i: nat, folder: string, stat: string -> StatResult)
    requires i < |entries|
    ensures ListedFiles(entries[..i + 1], folder, stat) ==
            ListedFiles(entries[..i], folder, stat) + EntryRecord(entries[i], folder, stat)
  {
    assert entries[..i + 1] == entries[..i] + [entries[i]];
    ListedFilesSnoc(entries[..i], entries[i], folder, stat);
  }

  /** A listing of three entries is their contributions in order. */
  lemma ThreeEntryListing(e0: DirEntry, e1: DirEntry, e2: DirEntry, folder: string, stat: string -> StatResult)
    ensures ListedFiles([e0, e1, e2], folder, stat) ==
            EntryRecord(e0, folder, stat) + EntryRecord(e1, folder, stat) + EntryRecord(e2, folder, stat)
  {
    var r0, r1, r2 := EntryRecord(e0, folder, stat), EntryRecord(e1, folder, stat), EntryRecord(e2, folder, stat);
    calc {
      ListedFiles([e0, e1, e2], folder, stat);
    == { assert [e0, e1, e2] == [e0, e1] + [e2]; ListedFilesSnoc([e0, e1], e2, folder, stat); }
      ListedFiles([e0, e1], folder, stat) + r2;
    == { assert [e0, e1] == [e0] + [e1]; ListedFilesSnoc([e0], e1, folder, stat); }
      ListedFiles([e0], folder, stat) + r1 + r2;
    == { assert [e0] == [] + [e0]; ListedFilesSnoc([], e0, folder, stat); }
      ListedFiles([], folder, stat) + r0 + r1 + r2;
    }
    assert ListedFiles([], folder, stat) + r0 == r0;
  }

  /** A folder holding a `.mp4` file, a `.txt` file and a sub-directory lists
      the two files, in read order, as video and unknown, with count 2. */
  lemma ListingScenario(video: string, text: string, sub: string, folder: string, stat: string -> StatResult)
    requires stat(Join(folder, video + ".mp4")).Found? && stat(Join(folder, text + ".txt")).Found?
    ensures var files := ListedFiles([DirEntry(video + ".mp4", false), DirEntry(text + ".txt", false), DirEntry(sub, true)],
                                     folder, stat);
      && |files| == 2
      && files[0].name == video + ".mp4" && files[0].fileType == "video" && files[0].downloadUrl == "/files/" + files[0].name
      && files[1].name == text + ".txt" && files[1].fileType == "unknown"
  {
    var e0, e1, e2 := DirEntry(video + ".mp4", false), DirEntry(text + ".txt", false), DirEntry(sub, true);
    ThreeEntryListing(e0, e1, e2, folder, stat);
    var r0, r1 := EntryRecord(e0, folder, stat), EntryRecord(e1, folder, stat);
    assert r0 == [r0[0]] && r1 == [r1[0]] && EntryRecord(e2, folder, stat) == [];
    Mp4NameIsVideo(video);
    TxtNameIsUnknown(text);
  }
}
