/** The streaming download handler (`GET /download/stream`). It validates the
    query, snapshots the download folder, starts the external downloader,
    relays each non-empty stderr line as a server-sent `data:` event, then
    announces the first new file (if any) and always ends with a `done` event.

    The environment is given as inputs: `isValidURL` is the URL validator;
    `beforeDir` and `afterDir` are the results of reading the folder before
    and after the run; `pipeOk` and `startOk` say whether attaching to stderr
    and starting the process succeeded; `stderr` is the sequence of lines the
    scanner produced; `accepts(i)` says whether the client accepted the write
    of line `i`; `exitOk` is the process's exit status. */
module DownloadProgress {
  import opened Wrappers
  import opened GoPath
  import opened Files
  import opened Http

  /** The query parameters of a stream request. */
  datatype Query = Query(url: string, format: string, resolution: string, videoFormat: string)

  /** Whether the external downloader was launched, and with which arguments.
      For the batch handler `Launched` means that a run was attempted: its
      failure to start is not told apart from a failed run. */
  datatype Process = NoProcess | Launched(args: seq<string>)

  /** The output file name template handed to the downloader. */
  const OutputTemplate: string := "%(title)s.%(ext)s"

  /** The per-line progress template handed to the downloader. */
  const ProgressTemplate: string := "download:%(progress._percent_str)s (%(progress.eta)s remaining)"

  predicate IsKnownFormat(format: string)
  {
    format == "video" || format == "audio"
  }

  /** The validation gate: a non-empty valid URL and a known format. */
  predicate StreamRequestAccepted(q: Query, isValidURL: string -> bool)
  {
    q.url != "" && isValidURL(q.url) && IsKnownFormat(q.format)
  }

  /** A flag immediately followed by its value somewhere in `args`. */
  predicate HasOption(args: seq<string>, flag: string, value: string)
  {
    exists i :: 0 <= i < |args| - 1 && args[i] == flag && args[i + 1] == value
  }

  /** The downloader's argument vector for a stream request: the fixed audio
      vector, or the video vector with the computed format selector. */
  function StreamArgs(q: Query, folder: string): seq<string>
  {
    var outputPath := Join(folder, OutputTemplate);
    if q.format == "audio" then
      ["-f", "bestaudio/best",
       "--extract-audio", "--audio-format", "mp3", "--audio-quality", "192K",
       "--no-playlist", "--prefer-free-formats",
       "-o", outputPath,
       "--progress-template", ProgressTemplate,
       q.url]
    else
      ["-f", BuildVideoFormat(q.resolution, q.videoFormat),
       "--no-playlist", "--prefer-free-formats",
       "-o", outputPath,
       "--progress-template", ProgressTemplate,
       q.url]
  }

  /** What both vectors share: a single item, free formats, the output
      template and the progress template, and the URL last. */
  predicate CommonStreamOptions(args: seq<string>, q: Query, folder: string)
  {
    && |args| > 0 && args[|args| - 1] == q.url
    && "--no-playlist" in args && "--prefer-free-formats" in args
    && HasOption(args, "-o", Join(folder, OutputTemplate))
    && HasOption(args, "--progress-template", ProgressTemplate)
  }

  /** Both vectors share the common options; they differ in the format
      selection and in the audio extraction options. */
  lemma StreamArgsShape(q: Query, folder: string)
    ensures CommonStreamOptions(StreamArgs(q, folder), q, folder)
    ensures q.format == "audio" ==>
      var args := StreamArgs(q, folder);
      && args[..2] == ["-f", "bestaudio/best"] && "--extract-audio" in args
      && HasOption(args, "--audio-format", "mp3") && HasOption(args, "--audio-quality", "192K")
    ensures q.format != "audio" ==>
      var args := StreamArgs(q, folder);
      && args[..2] == ["-f", BuildVideoFormat(q.resolution, q.videoFormat)] && |args| == 9
  {
    if q.format == "audio" {
      AudioStreamArgs(q, folder);
    } else {
      VideoStreamArgs(q, folder);
    }
  }

  lemma AudioStreamArgs(q: Query, folder: string)
    requires q.format == "audio"
    ensures var args := StreamArgs(q, folder);
      && CommonStreamOptions(args, q, folder)
      && args[..2] == ["-f", "bestaudio/best"] && "--extract-audio" in args
      && HasOption(args, "--audio-format", "mp3") && HasOption(args, "--audio-quality", "192K")
  {
    var args := StreamArgs(q, folder);
    assert args[9] == "-o" && args[10] == Join(folder, OutputTemplate);
    assert args[11] == "--progress-template" && args[12] == ProgressTemplate;
    assert args[3] == "--audio-format" && args[4] == "mp3";
    assert args[5] == "--audio-quality" && args[6] == "192K";
  }

  lemma VideoStreamArgs(q: Query, folder: string)
    requires q.format != "audio"
    ensures var args := StreamArgs(q, folder);
      && CommonStreamOptions(args, q, folder)
      && args[..2] == ["-f", BuildVideoFormat(q.resolution, q.videoFormat)] && |args| == 9
  {
    var args := StreamArgs(q, folder);
    assert args[4] == "-o" && args[5] == Join(folder, OutputTemplate);
    assert args[6] == "--progress-template" && args[7] == ProgressTemplate;
  }

  // ---------------------------------------------------------------------------
  // The event stream

  /** A progress event carrying one stderr line. */
  function DataChunk(line: string): string
  {
    "data: " + line + "\n\n"
  }

  /** The event announcing the downloaded file; the name is inserted raw. */
  function FileChunk(name: string): string
  {
    "event: file\ndata: {\"filename\":\"" + name + "\",\"downloadUrl\":\"/files/" + name + "\"}\n\n"
  }

  /** The event that ends every started stream. */
  const DoneChunk: string := "event: done\ndata: completed\n\n"

  /** The non-empty lines, in arrival order. */
  function NonEmptyLines(lines: seq<string>): (kept: seq<string>)
    ensures |kept| <= |lines|
    ensures forall k :: 0 <= k < |kept| ==> kept[k] != ""
  {
    if lines == [] then []
    else
      var last := lines[|lines| - 1];
      NonEmptyLines(lines[..|lines| - 1]) + (if |last| > 0 then [last] else [])
  }

  /** The writer calls of the scanner loop: each non-empty line is written,
      and flushed only when the write was accepted. */
  function RelayCalls(lines: seq<string>, accepts: nat -> bool): seq<WriterCall>
  {
    if lines == [] then []
    else
      var i := |lines| - 1;
      RelayCalls(lines[..i], accepts) +
        (if |lines[i]| > 0 then [Wrote(DataChunk(lines[i]))] + (if accepts(i) then [Flushed] else []) else [])
  }

  /** The folder snapshot taken before the run: a failed read gives nil, which
      holds no names. */
  function BeforeSnapshot(beforeDir: Option<seq<DirEntry>>): seq<string>
  {
    if beforeDir.Some? then NonDirNames(beforeDir.value) else []
  }

  /** The writer calls after the loop: the `file` event when the after-read
      succeeded and found a new name, then the `done` event. */
  function FinalCalls(before: seq<string>, afterDir: Option<seq<DirEntry>>): seq<WriterCall>
  {
    var fileCalls :=
      if afterDir.Some? && NewFiles(before, NonDirNames(afterDir.value)) != [] then
        [Wrote(FileChunk(NewFiles(before, NonDirNames(afterDir.value))[0])), Flushed]
      else [];
    fileCalls + [Wrote(DoneChunk), Flushed]
  }

  /** Everything the handler does to the response writer. */
  function StreamCalls(q: Query, isValidURL: string -> bool, beforeDir: Option<seq<DirEntry>>,
                       pipeOk: bool, startOk: bool, stderr: seq<string>, accepts: nat -> bool,
                       afterDir: Option<seq<DirEntry>>): seq<WriterCall>
  {
    if !StreamRequestAccepted(q, isValidURL) then
      [Json(Response(StatusBadRequest, ErrorBody("Missing or invalid url/format")))]
    else if !pipeOk then
      [Json(Response(StatusInternalServerError, ErrorBody("Failed to start process")))]
    else if !startOk then
      [Json(Response(StatusInternalServerError, ErrorBody("Failed to start download")))]
    else
      RelayCalls(stderr, accepts) + FinalCalls(BeforeSnapshot(beforeDir), afterDir)
  }

  /** `DownloadWithProgress`. The exit status `exitOk` is awaited and
      discarded: nothing in the output depends on it. */
  method DownloadWithProgress(w: Writer, q: Query, isValidURL: string -> bool, folder: string,
                              beforeDir: Option<seq<DirEntry>>, pipeOk: bool, startOk: bool,
                              stderr: seq<string>, accepts: nat -> bool, exitOk: bool,
                              afterDir: Option<seq<DirEntry>>)
    returns (process: Process)
    modifies w
    ensures w.calls == old(w.calls) + StreamCalls(q, isValidURL, beforeDir, pipeOk, startOk, stderr, accepts, afterDir)
    ensures process == if StreamRequestAccepted(q, isValidURL) && pipeOk && startOk
                       then Launched(StreamArgs(q, folder)) else NoProcess
  {
    if q.url == "" || !isValidURL(q.url) || (q.format != "video" && q.format != "audio") {
      w.JSON(StatusBadRequest, ErrorBody("Missing or invalid url/format"));
      return NoProcess;
    }
    assert StreamRequestAccepted(q, isValidURL);

    var beforeFiles := GetFileList(beforeDir);
    var before := if beforeFiles.Some? then beforeFiles.value else [];
    var args := StreamArgs(q, folder);

    if !pipeOk {
      w.JSON(StatusInternalServerError, ErrorBody("Failed to start process"));
      return NoProcess;
    }
    if !startOk {
      w.JSON(StatusInternalServerError, ErrorBody("Failed to start download"));
      return NoProcess;
    }
    process := Launched(args);

    ghost var start := w.calls;
    RelayLines(w, stderr, accepts);
    // cmd.Wait(): the exit status is not looked at
    AnnounceResult(w, before, afterDir);
    AppendAssoc(start, RelayCalls(stderr, accepts), FinalCalls(before, afterDir));
  }

  /** The scanner loop: each non-empty line is written as a data event and
      flushed when the write succeeded; a failed write does not stop the loop. */
  method RelayLines(w: Writer, stderr: seq<string>, accepts: nat -> bool)
    modifies w
    ensures w.calls == old(w.calls) + RelayCalls(stderr, accepts)
  {
    var i := 0;
    while i < |stderr|
      invariant 0 <= i <= |stderr|
      invariant w.calls == old(w.calls) + RelayCalls(stderr[..i], accepts)
    {
      assert stderr[..i + 1][..i] == stderr[..i];
      var line := stderr[i];
      if |line| > 0 {
        w.WriteString(DataChunk(line));
        if accepts(i) {
          w.Flush();
        }
      }
      i := i + 1;
    }
    assert stderr[..i] == stderr;
  }

  /** After the run: read the folder again, announce the first new file if
      the read succeeded and found one, and end with `done`. */
  method AnnounceResult(w: Writer, before: seq<string>, afterDir: Option<seq<DirEntry>>)
    modifies w
    ensures w.calls == old(w.calls) + FinalCalls(before, afterDir)
  {
    var afterFiles := GetFileList(afterDir);
    ghost var fileCalls: seq<WriterCall> := [];
    if afterFiles.Some? {
      var newFiles := FindNewFiles(before, afterFiles.value);
      if |newFiles| > 0 {
        w.WriteString(FileChunk(newFiles[0]));
        w.Flush();
        fileCalls := [Wrote(FileChunk(newFiles[0])), Flushed];
      }
    }
    assert w.calls == old(w.calls) + fileCalls;
    w.WriteString(DoneChunk);
    w.Flush();
    AppendAssoc(old(w.calls), fileCalls, [Wrote(DoneChunk), Flushed]);
  }

  lemma AppendAssoc<T>(a: seq<T>, b: seq<T>, c: seq<T>)
    ensures (a + b) + c == a + (b + c)
  {
  }

  // ---------------------------------------------------------------------------
  // What the stream promises

  /** The data chunks for `lines`: one per non-empty line, in order. */
  function DataChunks(lines: seq<string>): (chunks: seq<string>)
    ensures |chunks| == |NonEmptyLines(lines)|
    ensures forall k :: 0 <= k < |chunks| ==> chunks[k] == DataChunk(NonEmptyLines(lines)[k])
  {
    var ne := NonEmptyLines(lines);
    seq(|ne|, k requires 0 <= k < |ne| => DataChunk(ne[k]))
  }

  /** The file event, if any: it names the first new file, and is present
      only when the after-read succeeded and the difference is non-empty. */
  function FileEvents(before: seq<string>, afterDir: Option<seq<DirEntry>>): (events: seq<string>)
    ensures |events| <= 1
  {
    if afterDir.Some? && NewFiles(before, NonDirNames(afterDir.value)) != [] then
      [FileChunk(NewFiles(before, NonDirNames(afterDir.value))[0])]
    else []
  }

  /** The loop writes exactly the data chunks, whatever writes the client
      refused: a refused write only skips its flush. */
  lemma {:induction false} RelayChunks(lines: seq<string>, accepts: nat -> bool)
    ensures Chunks(RelayCalls(lines, accepts)) == DataChunks(lines)
  {
    if lines != [] {
      var i := |lines| - 1;
      var p := lines[..i];
      RelayChunks(p, accepts);
      var step: seq<WriterCall> :=
        if |lines[i]| > 0 then [Wrote(DataChunk(lines[i]))] + (if accepts(i) then [Flushed] else []) else [];
      ChunksAppend(RelayCalls(p, accepts), step);
      RelayStepChunks(lines[i], accepts(i));
      DataChunksSnoc(lines);
    }
  }

  /** One line of the loop writes its data chunk, if any, whether or not it
      is flushed. */
  lemma RelayStepChunks(line: string, accepted: bool)
    ensures Chunks(if |line| > 0 then [Wrote(DataChunk(line))] + (if accepted then [Flushed] else []) else []) ==
            if |line| > 0 then [DataChunk(line)] else []
  {
    if |line| > 0 {
      ChunksAppend([Wrote(DataChunk(line))], if accepted then [Flushed] else []);
      ChunksOfCall(Wrote(DataChunk(line)));
      if accepted {
        ChunksOfCall(Flushed);
      }
    }
  }

  /** One more line adds its data chunk, if it is non-empty. */
  lemma DataChunksSnoc(lines: seq<string>)
    requires lines != []
    ensures DataChunks(lines) ==
            DataChunks(lines[..|lines| - 1]) + (if |lines[|lines| - 1]| > 0 then [DataChunk(lines[|lines| - 1])] else [])
  {
  }

  lemma FinalChunks(before: seq<string>, afterDir: Option<seq<DirEntry>>)
    ensures Chunks(FinalCalls(before, afterDir)) == FileEvents(before, afterDir) + [DoneChunk]
  {
    var tail := [Wrote(DoneChunk), Flushed];
    assert Chunks(tail) == [DoneChunk] by {
      assert tail[..1] == [Wrote(DoneChunk)];
      ChunksOfCall(Wrote(DoneChunk));
    }
    if afterDir.Some? && NewFiles(before, NonDirNames(afterDir.value)) != [] {
      var name := NewFiles(before, NonDirNames(afterDir.value))[0];
      var fileCalls := [Wrote(FileChunk(name)), Flushed];
      assert Chunks(fileCalls) == [FileChunk(name)] by {
        assert fileCalls[..1] == [Wrote(FileChunk(name))];
        ChunksOfCall(Wrote(FileChunk(name)));
      }
      ChunksAppend(fileCalls, tail);
    } else {
      assert FinalCalls(before, afterDir) == tail;
    }
  }

  /** A started stream writes the data chunks, then at most one file event,
      then `done`, and nothing else. */
  lemma StreamedChunks(q: Query, isValidURL: string -> bool, beforeDir: Option<seq<DirEntry>>,
                         stderr: seq<string>, accepts: nat -> bool, afterDir: Option<seq<DirEntry>>)
    requires StreamRequestAccepted(q, isValidURL)
    ensures Chunks(StreamCalls(q, isValidURL, beforeDir, true, true, stderr, accepts, afterDir)) ==
            DataChunks(stderr) + FileEvents(BeforeSnapshot(beforeDir), afterDir) + [DoneChunk]
  {
    var before := BeforeSnapshot(beforeDir);
    ChunksAppend(RelayCalls(stderr, accepts), FinalCalls(before, afterDir));
    RelayChunks(stderr, accepts);
    FinalChunks(before, afterDir);
  }

  /** An invalid query is answered with 400 before anything else: no event is
      written (and, by DownloadWithProgress, no process is launched). */
  lemma RejectedRequestWritesNoEvent(q: Query, isValidURL: string -> bool, beforeDir: Option<seq<DirEntry>>,
                                     pipeOk: bool, startOk: bool, stderr: seq<string>, accepts: nat -> bool,
                                     afterDir: Option<seq<DirEntry>>)
    requires q.url == "" || !isValidURL(q.url) || (q.format != "video" && q.format != "audio")
    ensures StreamCalls(q, isValidURL, beforeDir, pipeOk, startOk, stderr, accepts, afterDir) ==
            [Json(Response(StatusBadRequest, ErrorBody("Missing or invalid url/format")))]
    ensures Chunks(StreamCalls(q, isValidURL, beforeDir, pipeOk, startOk, stderr, accepts, afterDir)) == []
  {
    ChunksOfCall(Json(Response(StatusBadRequest, ErrorBody("Missing or invalid url/format"))));
  }

  /** When the stderr pipe or the start fails the answer is a single 500 JSON
      error, and no data, file or done event is written. */
  lemma StartFailureWritesNoEvent(q: Query, isValidURL: string -> bool, beforeDir: Option<seq<DirEntry>>,
                                  pipeOk: bool, startOk: bool, stderr: seq<string>, accepts: nat -> bool,
                                  afterDir: Option<seq<DirEntry>>)
    requires StreamRequestAccepted(q, isValidURL)
    requires !pipeOk || !startOk
    ensures var calls := StreamCalls(q, isValidURL, beforeDir, pipeOk, startOk, stderr, accepts, afterDir);
      |calls| == 1 && calls[0].Json? && calls[0].response.status == StatusInternalServerError &&
      Chunks(calls) == []
    ensures !pipeOk ==> StreamCalls(q, isValidURL, beforeDir, pipeOk, startOk, stderr, accepts, afterDir) ==
                        [Json(Response(StatusInternalServerError, ErrorBody("Failed to start process")))]
    ensures pipeOk && !startOk ==>
              StreamCalls(q, isValidURL, beforeDir, pipeOk, startOk, stderr, accepts, afterDir) ==
              [Json(Response(StatusInternalServerError, ErrorBody("Failed to start download")))]
  {
    var calls := StreamCalls(q, isValidURL, beforeDir, pipeOk, startOk, stderr, accepts, afterDir);
    ChunksOfCall(calls[0]);
  }

  /** The non-empty lines are exactly the lines that are not "", kept in
      order: filtering a concatenation filters each part. */
  lemma {:induction false} NonEmptyLinesAppend(a: seq<string>, b: seq<string>)
    ensures NonEmptyLines(a + b) == NonEmptyLines(a) + NonEmptyLines(b)
  {
    if b == [] {
      assert a + b == a;
    } else {
      var b' := b[..|b| - 1];
      var last := b[|b| - 1];
      var tail: seq<string> := if |last| > 0 then [last] else [];
      assert (a + b)[..|a + b| - 1] == a + b';
      assert (a + b)[|a + b| - 1] == last;
      NonEmptyLinesAppend(a, b');
      calc {
        NonEmptyLines(a + b);
        NonEmptyLines(a + b') + tail;
        NonEmptyLines(a) + NonEmptyLines(b') + tail;
        NonEmptyLines(a) + (NonEmptyLines(b') + tail);
        NonEmptyLines(a) + NonEmptyLines(b);
      }
    }
  }

  lemma {:induction false} NonEmptyLinesMembers(lines: seq<string>, x: string)
    ensures x in NonEmptyLines(lines) <==> x in lines && x != ""
  {
    if lines != [] {
      var p := lines[..|lines| - 1];
      assert lines == p + [lines[|lines| - 1]];
      NonEmptyLinesMembers(p, x);
    }
  }

  /** The data events do not depend on which writes the client accepted. */
  lemma RefusedWritesKeepEvents(q: Query, isValidURL: string -> bool, beforeDir: Option<seq<DirEntry>>,
                                stderr: seq<string>, accepts: nat -> bool, accepts': nat -> bool,
                                afterDir: Option<seq<DirEntry>>)
    requires StreamRequestAccepted(q, isValidURL)
    ensures Chunks(StreamCalls(q, isValidURL, beforeDir, true, true, stderr, accepts, afterDir)) ==
            Chunks(StreamCalls(q, isValidURL, beforeDir, true, true, stderr, accepts', afterDir))
  {
    StreamedChunks(q, isValidURL, beforeDir, stderr, accepts, afterDir);
    StreamedChunks(q, isValidURL, beforeDir, stderr, accepts', afterDir);
  }

  /** A started stream is never empty and its last chunk is always `done`. */
  lemma StreamEndsWithDone(q: Query, isValidURL: string -> bool, beforeDir: Option<seq<DirEntry>>,
                           stderr: seq<string>, accepts: nat -> bool, afterDir: Option<seq<DirEntry>>)
    requires StreamRequestAccepted(q, isValidURL)
    ensures var chunks := Chunks(StreamCalls(q, isValidURL, beforeDir, true, true, stderr, accepts, afterDir));
      |chunks| > 0 && chunks[|chunks| - 1] == DoneChunk
  {
    StreamedChunks(q, isValidURL, beforeDir, stderr, accepts, afterDir);
  }

  /** A written chunk that is a `file` event. */
  predicate IsFileEvent(chunk: string)
  {
    |chunk| >= 12 && chunk[..12] == "event: file\n"
  }

  function CountFileEvents(chunks: seq<string>): nat
  {
    if chunks == [] then 0
    else CountFileEvents(chunks[..|chunks| - 1]) + (if IsFileEvent(chunks[|chunks| - 1]) then 1 else 0)
  }

  lemma {:induction false} CountFileEventsAppend(a: seq<string>, b: seq<string>)
    ensures CountFileEvents(a + b) == CountFileEvents(a) + CountFileEvents(b)
  {
    if b == [] {
      assert a + b == a;
    } else {
      var b' := b[..|b| - 1];
      assert (a + b)[..|a + b| - 1] == a + b';
      assert (a + b)[|a + b| - 1] == b[|b| - 1];
      CountFileEventsAppend(a, b');
    }
  }

  lemma {:induction false} NoFileEvents(chunks: seq<string>)
    requires forall k :: 0 <= k < |chunks| ==> !IsFileEvent(chunks[k])
    ensures CountFileEvents(chunks) == 0
  {
    if chunks != [] {
      NoFileEvents(chunks[..|chunks| - 1]);
    }
  }

  lemma ChunkKinds(line: string, name: string)
    ensures !IsFileEvent(DataChunk(line))
    ensures IsFileEvent(FileChunk(name))
    ensures !IsFileEvent(DoneChunk)
  {
    assert DataChunk(line)[0] == 'd';
    assert FileChunk(name)[..12] == "event: file\n";
    assert DoneChunk[..12] == "event: done\n";
  }

  /** At most one `file` event is written, and exactly one when the after-read
      succeeded and the difference is non-empty. The count is over the
      chunks written: the name goes into the event raw, so a name holding a
      blank line would be parsed by a client as more than one event. */
  lemma AtMostOneFileEvent(q: Query, isValidURL: string -> bool, beforeDir: Option<seq<DirEntry>>,
                           stderr: seq<string>, accepts: nat -> bool, afterDir: Option<seq<DirEntry>>)
    requires StreamRequestAccepted(q, isValidURL)
    ensures var chunks := Chunks(StreamCalls(q, isValidURL, beforeDir, true, true, stderr, accepts, afterDir));
      CountFileEvents(chunks) == |FileEvents(BeforeSnapshot(beforeDir), afterDir)| &&
      CountFileEvents(chunks) <= 1
  {
    var before := BeforeSnapshot(beforeDir);
    StreamedChunks(q, isValidURL, beforeDir, stderr, accepts, afterDir);
    var data, file := DataChunks(stderr), FileEvents(before, afterDir);
    forall k | 0 <= k < |data| ensures !IsFileEvent(data[k]) {
      ChunkKinds(NonEmptyLines(stderr)[k], "");
    }
    NoFileEvents(data);
    CountFileEventsAppend(data + file, [DoneChunk]);
    CountFileEventsAppend(data, file);
    ChunkKinds("", "");
    assert CountFileEvents([DoneChunk]) == 0 by { NoFileEvents([DoneChunk]); }
    if file != [] {
      ChunkKinds("", NewFiles(before, NonDirNames(afterDir.value))[0]);
      assert [file[0]][..0] == [];
    }
  }

  /** The file event names the earliest entry of the after-read that the
      before-read lacked, with retrieval path "/files/<name>". */
  lemma FileEventNamesFirstNewFile(before: seq<string>, entries: seq<DirEntry>)
    requires NewFiles(before, NonDirNames(entries)) != []
    ensures var after := NonDirNames(entries);
      exists k :: 0 <= k < |after| && FileEvents(before, Some(entries)) == [FileChunk(after[k])] &&
                  after[k] !in before && forall j :: 0 <= j < k ==> after[j] in before
  {
    FirstNewFile(before, NonDirNames(entries));
  }

  /** No file event without a successful after-read that shows a new name. */
  lemma NoFileEventWithoutNewFile(before: seq<string>, afterDir: Option<seq<DirEntry>>)
    requires afterDir.None? || forall x :: x in NonDirNames(afterDir.value) ==> x in before
    ensures FileEvents(before, afterDir) == []
  {
    if afterDir.Some? {
      NewFilesEmptyIffCovered(before, NonDirNames(afterDir.value));
    }
  }

  /** A failed before-read leaves a nil snapshot, so the first file of the
      after-read is announced, whether or not it is new. */
  lemma FailedBeforeReadAnnouncesFirstFile(entries: seq<DirEntry>)
    requires NonDirNames(entries) != []
    ensures FileEvents(BeforeSnapshot(None), Some(entries)) == [FileChunk(NonDirNames(entries)[0])]
  {
    NewFilesFromNothing(NonDirNames(entries));
  }

  /** The lines "50%", "" and "100%" give two data chunks. */
  lemma ScenarioLines()
    ensures DataChunks(["50%", "", "100%"]) == [DataChunk("50%"), DataChunk("100%")]
  {
    var lines := ["50%", "", "100%"];
    assert NonEmptyLines(lines) == ["50%", "100%"] by {
      assert lines[..2][..1] == ["50%"];
      assert ["50%"][..0] == [];
      assert lines[..2] == ["50%", ""];
    }
  }

  /** A folder that gained `video.mp4` announces it. */
  lemma ScenarioNewFile(existing: seq<DirEntry>)
    requires forall e :: e in existing ==> e.name != "video.mp4"
    ensures FileEvents(BeforeSnapshot(Some(existing)), Some(existing + [DirEntry("video.mp4", false)])) ==
            [FileChunk("video.mp4")]
  {
    var snapshot := NonDirNames(existing);
    NonDirNamesAppend(existing, [DirEntry("video.mp4", false)]);
    assert NonDirNames([DirEntry("video.mp4", false)]) == ["video.mp4"] by {
      assert [DirEntry("video.mp4", false)][..0] == [];
    }
    NonDirNamesMembers(existing, "video.mp4");
    NewFilesOneAdded(snapshot, "video.mp4");
  }

  /** Two progress lines and one new file `video.mp4` give exactly the two
      data events, the file event and `done`, in that order. */
  lemma TwoLinesOneFileScenario(q: Query, isValidURL: string -> bool, existing: seq<DirEntry>, accepts: nat -> bool)
    requires StreamRequestAccepted(q, isValidURL)
    requires forall e :: e in existing ==> e.name != "video.mp4"
    ensures Chunks(StreamCalls(q, isValidURL, Some(existing), true, true, ["50%", "", "100%"], accepts,
                               Some(existing + [DirEntry("video.mp4", false)]))) ==
            [DataChunk("50%"), DataChunk("100%"), FileChunk("video.mp4"), DoneChunk]
  {
    StreamedChunks(q, isValidURL, Some(existing), ["50%", "", "100%"], accepts,
                   Some(existing + [DirEntry("video.mp4", false)]));
    ScenarioLines();
    ScenarioNewFile(existing);
  }
}
