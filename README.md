# Downloader backend core, modelled in Dafny

The backend of Downloader is a small HTTP service. It fetches a video or
its audio track from a URL by running the external `yt-dlp` downloader into
the user's download folder. It then reports which file appeared.

This project models the service's core:

- **File utilities** (`backend/utils/files.go`):
  - directory snapshots (`GetFileList`);
  - the "new files" difference between two snapshots (`FindNewFiles`);
  - classifying files by extension into a media type (`GetFileType`) and a MIME type (`GetContentType`);
  - building the per-file record of the listing (`CreateFileInfo`);
  - building the downloader's format selector (`BuildVideoFormat`).
- **The streaming handler** `DownloadWithProgress` (`GET /download/stream`,
  `backend/handlers/download_progress.go`). It validates the query and
  snapshots the folder. It then starts the downloader and relays each
  non-empty stderr line as a server-sent `data:` event. At most one `file`
  event follows, naming the first new file, and the stream always ends with
  a `done` event.
- **The batch handler** `DownloadVideo` (`POST /download`,
  `backend/handlers/download.go`), in the same file as the file server
  `ServeFile` (`GET /files/:filename`) and the listing `ListFiles`
  (`GET /files`).

Modules:

- `Wrappers`: `Option`.
- `GoPath`: the parts of Go's `path/filepath` and `strings` used by the core:
  - `Ext`, `Base` and `Join` for the `/` separator;
  - ASCII `ToLower`.
- `Files`: `files.go`.
- `Http`: JSON responses as maps, and a `Writer` class that records every
  call made on the response writer.
- `DownloadProgress`: the streaming handler.
- `Download`: the batch handler, `ServeFile` and `ListFiles`.

The environment is passed in as inputs:

- each directory read is an `Option<seq<DirEntry>>` (absent when the read fails). `os.ReadDir` returns the entries sorted by name, so "read order" is name order and the announced first new file is the new name that sorts first; the model accepts entries in any order, which covers that case;
- `os.Stat` and `os.Open` are functions from a path to an outcome;
- the URL validator is a parameter;
- the downloader run is described by whether its stages succeeded and by its stderr lines;
- the client's acceptance of each write is a function of the line index.

Each handler's output is tied to a specification function of these inputs.
The streaming handler's output is the writer's call log. The other handlers
return a `Response`.

Imperative code stays imperative:

- `GetFileList`, `FindNewFiles` and `ListFiles` are methods with loops,
  proved equal to recursive specification functions. `FindNewFiles` builds
  the same `map[string]bool` as the source.
- `DownloadWithProgress` is a method that takes the `Writer`. Its postcondition
  gives the writer's whole new call log.

## Model

| member | source | states |
|---|---|---|
| GoPath.LastElement | backend/utils/files.go:54 | the final path element is a separator-free suffix of the path, preceded by a separator when shorter than the path |
| GoPath.LastElementSnoc | backend/utils/files.go:54 | appending an ordinary character extends the final element by it |
| GoPath.LastElementAfterSeparator | backend/handlers/download.go:115 | the final element of `dir/name` is `name` |
| GoPath.Ext | backend/utils/files.go:54 | `filepath.Ext` is a suffix of the path that is empty or starts with '.' |
| GoPath.ExtSnoc | backend/utils/files.go:54 | appending an ordinary character extends a non-empty extension and leaves an empty one empty |
| GoPath.ExtOfSpecialLast | backend/utils/files.go:54 | a path ending in '.' has extension "."; one ending in a separator has none |
| GoPath.ExtInLastElement | backend/utils/files.go:54 | the extension is no longer than the final element and holds no separator |
| GoPath.ExtHasOneDot | backend/utils/files.go:54 | a non-empty extension holds no '.' after its first character |
| GoPath.ExtEmptyIffNoDot | backend/utils/files.go:54 | the extension is empty exactly when the final element holds no '.' |
| GoPath.ExtOfFinalSuffix | backend/utils/files.go:54 | a name ending in `.x` (no further '.' or '/') has extension `.x`, whatever precedes it |
| GoPath.ToLower | backend/utils/files.go:54 | lower-casing keeps the length and maps each character through ASCII lower-casing |
| GoPath.LowerChar | backend/utils/files.go:54 | ASCII 'A'-'Z' map to 'a'-'z'; every other character is unchanged |
| GoPath.ToLowerSnoc | backend/utils/files.go:54 | lower-casing one more character appends its lower-case form |
| GoPath.ExtOfLower | backend/utils/files.go:54 | taking the extension commutes with lower-casing |
| GoPath.ExtOfLowerSnoc | backend/utils/files.go:54 | an ordinary final character keeps extension and lower-casing commuting |
| GoPath.ExtOfLowerSpecial | backend/utils/files.go:54 | after a final '.' or separator both orders give the same extension |
| GoPath.Base | backend/handlers/download.go:115 | `filepath.Base` is never empty and is "/" or a single separator-free element |
| GoPath.TrimTrailingSeparators | backend/handlers/download.go:115 | the trimmed path is a prefix of the path with no trailing separator, and only separators were removed |
| GoPath.BaseOfElement | backend/handlers/download.go:115 | a non-empty separator-free name is its own base |
| GoPath.BaseIdempotent | backend/handlers/download.go:115 | applying `Base` twice equals applying it once |
| GoPath.Join | backend/handlers/download.go:116 | for a clean folder: a plain element is appended after exactly one '/' (none added after a trailing one), and onto "." it is the element alone; an empty name, "." and "/" leave the folder; ".." gives the folder's parent; an empty folder gives the name |
| GoPath.Parent | backend/handlers/download.go:116 | `Clean(dir + "/..")` for a clean folder: the last element dropped, the root kept, "." and ".." climbing |
| GoPath.ParentOfJoin | backend/handlers/download.go:116 | joining ".." onto the join of a clean folder and a plain element gives back the folder |
| GoPath.BaseOfDotDot | backend/handlers/download.go:115 | the base of ".." is ".." itself, so it reaches `Join` |
| Files.NonDirNames | backend/utils/files.go:27-33 | the names of the non-directory entries, in read order |
| Files.GetFileList | backend/utils/files.go:21-34 | a failed read gives no list; a successful one gives the non-directory names in read order |
| Files.NonDirNamesAppend | backend/utils/files.go:27-33 | listing two reads in sequence lists each one in turn |
| Files.NonDirNamesMembers | backend/utils/files.go:28-32 | a name is listed exactly when some non-directory entry carries it |
| Files.NewFiles | backend/utils/files.go:37-50 | the names of `after` absent from `before`, in `after`'s order, duplicates kept |
| Files.FindNewFiles | backend/utils/files.go:37-50 | the set-then-filter loops compute exactly the names of `after` absent from `before`, in `after`'s order |
| Files.NewFilesAppend | backend/utils/files.go:43-48 | the difference distributes over concatenation of `after` |
| Files.NewFilesSingle | backend/utils/files.go:45-47 | one name is kept exactly when `before` lacks it |
| Files.NewFilesMembers | backend/utils/files.go:37-50 | a name is new if and only if it is in `after` and not in `before` |
| Files.NewFilesMultiplicity | backend/utils/files.go:37-50 | a new name keeps all its duplicates from `after`; an old name has none |
| Files.NewFilesEmptyIffCovered | backend/utils/files.go:37-50 | no new names exactly when every name of `after` is in `before` |
| Files.NewFilesOfSelf | backend/utils/files.go:37-50 | a snapshot against itself yields nothing |
| Files.NewFilesFromNothing | backend/utils/files.go:37-50 | against an empty or nil snapshot every name is new, in order |
| Files.NewFilesOneAdded | backend/utils/files.go:37-50 | adding one unseen name yields exactly that name |
| Files.FirstNewFile | backend/utils/files.go:43-48 | the first new name is the earliest entry of `after` absent from `before` |
| Files.TypeOfExtension | backend/utils/files.go:55-62 | the switch as a table: the ten video and seven audio extensions, "unknown" otherwise |
| Files.ContentTypeOfExtension | backend/utils/files.go:67-101 | the switch as a table of seventeen MIME types, `application/octet-stream` otherwise |
| Files.GetFileType | backend/utils/files.go:53-63 | the result is always "video", "audio" or "unknown" |
| Files.GetContentType | backend/utils/files.go:66-102 | the MIME type is always at least six characters long |
| Files.SameExtensions | backend/utils/files.go:53-102 | the two switches list exactly the same seventeen extensions |
| Files.ExtensionClassesAgree | backend/utils/files.go:53-102 | per extension, "video" goes with a `video/` MIME type, "audio" with `audio/`, and "unknown" with `application/octet-stream`, both ways |
| Files.TableEntriesAgree | backend/utils/files.go:53-102 | every listed extension is video or audio, and its MIME type begins with that media type and a slash |
| Files.MediaTypesAreVideoOrAudio | backend/utils/files.go:55-59 | the media switch names only "video" and "audio" |
| Files.MimeTypePrefixes | backend/utils/files.go:66-102 | every listed MIME type begins with the extension's media type and a slash |
| Files.TypeAgreesWithContentType | backend/utils/files.go:53-102 | the same agreement for every file name |
| Files.FileTypeOfFinalExtension | backend/utils/files.go:54 | only the final extension decides both classifications |
| Files.FileTypeIgnoresCase | backend/utils/files.go:54 | classification is unchanged by ASCII lower-casing of the name |
| Files.NoExtensionIsUnknown | backend/utils/files.go:60-61 | a name whose final element has no '.' is "unknown" / `application/octet-stream` |
| Files.EmptyExtensionIsUnknown | backend/utils/files.go:60-61 | the empty extension falls to the default cases |
| Files.TextExtensionIsUnknown | backend/utils/files.go:60-61 | ".txt" is in neither media set |
| Files.UpperCaseMp4IsVideo | backend/utils/files.go:54-57 | any name ending in ".MP4" is classified as its ".mp4" twin: video, MIME type `video/mp4` |
| Files.Mp4NameIsVideo | backend/utils/files.go:54-57 | any name ending in ".mp4" is a video |
| Files.TxtNameIsUnknown | backend/utils/files.go:54-61 | any name ending in ".txt" is unknown |
| Files.FileTypeDoubleExtensionExample | backend/utils/files.go:54-61 | "a.mp4.txt" is unknown: only the last extension counts |
| Files.DotInDirectoryIgnored | backend/utils/files.go:54-61 | a '.' in a directory component is not an extension: `dir/name` with no '.' in `name` is unknown |
| Files.CreateFileInfo | backend/utils/files.go:105-119 | no record exactly when the stat fails; otherwise the record carries the name, size, time, "/files/"+name and the name's media type |
| Files.DownloadUrlNamesFile | backend/utils/files.go:116 | the retrieval path is "/files/" followed by exactly the record's name |
| Files.ExtFilter | backend/utils/files.go:156-174 | the seven recognised containers give `[ext=C]`; anything else gives no filter |
| Files.HeightFilter | backend/utils/files.go:177-180 | a resolution R gives `[height<=R]` verbatim; none gives no filter |
| Files.FormatSelectors | backend/utils/files.go:183-202 | the candidate list of each of the four branches, most preferred first |
| Files.FirstSelector | backend/utils/files.go:183-202 | every branch's first selector is `bestvideo`+H+E+`+bestaudio/best`+H+E |
| Files.BuildVideoFormat | backend/utils/files.go:151-209 | the selector is always `bestvideo`+H+E+`+bestaudio/best`+H+E for the height and container filters |
| Files.FallbackNeverReturned | backend/utils/files.go:185-188 | the candidate list is never empty, so the trailing default is dead code and the second candidate of the first branch is never returned |
| Files.UnconstrainedSelector | backend/utils/files.go:199-202 | without a resolution, "", "best" and unknown containers all give `bestvideo+bestaudio/best` |
| Files.SelectorExampleHeightAndContainer | backend/utils/files.go:183-188 | ("720", "mp4") gives the exact-match selector: the capped mp4 pair, then the capped mp4 single file |
| Files.SelectorExampleHeightOnly | backend/utils/files.go:189-193 | ("1080", "best") gives the height-capped selector |
| Files.SelectorExampleContainerOnly | backend/utils/files.go:194-198 | ("", "webm") gives the container-filtered selector |
| Http.ErrorBody | backend/handlers/download.go:28 | an error body has the single key "error" carrying the message |
| Http.Writer.constructor | backend/handlers/download_progress.go:16 | a new response writer has recorded nothing |
| Http.Writer.JSON | backend/handlers/download_progress.go:23 | a JSON response is appended to the call log, nothing else changes |
| Http.Writer.WriteString | backend/handlers/download_progress.go:77 | a raw chunk is appended to the call log |
| Http.Writer.Flush | backend/handlers/download_progress.go:78 | a flush is appended to the call log |
| Http.ChunksAppend | backend/handlers/download_progress.go:73-98 | the body written by two call sequences is the concatenation of their bodies |
| Http.ChunksOfCall | backend/handlers/download_progress.go:77-78 | only `WriteString` contributes to the body |
| DownloadProgress.IsKnownFormat | backend/handlers/download_progress.go:22 | the only formats accepted are "video" and "audio", the same test as download.go:32 |
| DownloadProgress.StreamRequestAccepted | backend/handlers/download_progress.go:22 | the gate: non-empty valid URL and format "video" or "audio" |
| DownloadProgress.StreamArgs | backend/handlers/download_progress.go:35-56 | the two literal argument vectors, the video one with the computed selector |
| DownloadProgress.StreamArgsShape | backend/handlers/download_progress.go:35-56 | both vectors end with the URL and carry `--no-playlist`, `--prefer-free-formats`, `-o` with the output template and `--progress-template` with its template; audio adds the mp3/192K extraction options, video the computed selector |
| DownloadProgress.AudioStreamArgs | backend/handlers/download_progress.go:35-46 | the audio vector asks for `bestaudio/best`, extracts mp3 at 192K, and carries the common options |
| DownloadProgress.VideoStreamArgs | backend/handlers/download_progress.go:47-56 | the video vector has nine arguments, starts with the computed selector, and carries the common options |
| DownloadProgress.DataChunk | backend/handlers/download_progress.go:77 | `data: <line>` followed by a blank line |
| DownloadProgress.FileChunk | backend/handlers/download_progress.go:92 | the `file` event with the name inserted raw in both fields; the `done` event of line 97 is the constant `DoneChunk` |
| DownloadProgress.BeforeSnapshot | backend/handlers/download_progress.go:33 | a failed before-read leaves a nil, empty snapshot |
| DownloadProgress.RelayCalls | backend/handlers/download_progress.go:73-81 | one write per non-empty line, a flush after each accepted write |
| DownloadProgress.FinalCalls | backend/handlers/download_progress.go:85-98 | the file event and its flush when the after-read found a new name, then `done` and its flush |
| DownloadProgress.StreamCalls | backend/handlers/download_progress.go:22-98 | the whole output: the 400, either 500, or the relay calls followed by the final calls |
| DownloadProgress.DownloadWithProgress | backend/handlers/download_progress.go:16-99 | the writer's log grows by exactly the specified calls; the downloader is launched, with the stream vector, exactly when the query passes the gate and the pipe and start succeed |
| DownloadProgress.RelayLines | backend/handlers/download_progress.go:73-81 | the scanner loop appends one write per non-empty line, and a flush only when that write was accepted |
| DownloadProgress.AnnounceResult | backend/handlers/download_progress.go:85-98 | after the run: a file event for the first new name when the after-read succeeded, then `done` |
| DownloadProgress.DataChunks | backend/handlers/download_progress.go:76-77 | one `data:` chunk per non-empty line, in order |
| DownloadProgress.FileEvents | backend/handlers/download_progress.go:86-95 | at most one file event |
| DownloadProgress.RelayChunks | backend/handlers/download_progress.go:73-81 | the loop writes exactly the data chunks of the non-empty lines, whatever writes the client refuses |
| DownloadProgress.RelayStepChunks | backend/handlers/download_progress.go:76-79 | one line writes its data chunk when non-empty, whether or not it is flushed |
| DownloadProgress.DataChunksSnoc | backend/handlers/download_progress.go:74-76 | one more line adds its data chunk when non-empty |
| DownloadProgress.FinalChunks | backend/handlers/download_progress.go:85-98 | after the loop the body grows by the file event, if any, then `done` |
| DownloadProgress.StreamedChunks | backend/handlers/download_progress.go:73-98 | a started stream's body is the data chunks, then at most one file event, then `done` |
| DownloadProgress.RejectedRequestWritesNoEvent | backend/handlers/download_progress.go:22-25 | an empty or invalid URL or an unknown format gives a single 400 JSON response and no event |
| DownloadProgress.StartFailureWritesNoEvent | backend/handlers/download_progress.go:62-71 | a failed pipe gives 500 "Failed to start process", a failed start 500 "Failed to start download", and no event |
| DownloadProgress.NonEmptyLines | backend/handlers/download_progress.go:76 | the lines that pass the `len(line) > 0` test, in arrival order: no more lines than arrived, and none of them empty |
| DownloadProgress.NonEmptyLinesAppend | backend/handlers/download_progress.go:74-76 | filtering empty lines distributes over concatenation |
| DownloadProgress.NonEmptyLinesMembers | backend/handlers/download_progress.go:76 | a line is relayed exactly when it arrived and is not empty |
| DownloadProgress.RefusedWritesKeepEvents | backend/handlers/download_progress.go:77-79 | the body does not depend on which writes the client accepted |
| DownloadProgress.StreamEndsWithDone | backend/handlers/download_progress.go:97-98 | a started stream is never empty and its last chunk is `done` |
| DownloadProgress.CountFileEventsAppend | backend/handlers/download_progress.go:73-98 | counting file events distributes over concatenation |
| DownloadProgress.NoFileEvents | backend/handlers/download_progress.go:73-98 | a body without file-event chunks counts none |
| DownloadProgress.ChunkKinds | backend/handlers/download_progress.go:77-97 | a data chunk and `done` are not file events; the file chunk is one |
| DownloadProgress.AtMostOneFileEvent | backend/handlers/download_progress.go:86-95 | counted over written chunks, a started stream carries at most one file event, and exactly one when the after-read succeeded and found a new name |
| DownloadProgress.FileEventNamesFirstNewFile | backend/handlers/download_progress.go:89-92 | the file event names the earliest entry of the after-read absent from the before-snapshot |
| DownloadProgress.NoFileEventWithoutNewFile | backend/handlers/download_progress.go:86-90 | no file event when the after-read fails or shows no new name |
| DownloadProgress.FailedBeforeReadAnnouncesFirstFile | backend/handlers/download_progress.go:33 | a failed before-read leaves a nil snapshot, so the first file of the folder is announced |
| DownloadProgress.ScenarioLines | backend/handlers/download_progress.go:74-80 | the lines "50%", "", "100%" give exactly two data chunks, the empty line dropped |
| DownloadProgress.ScenarioNewFile | backend/handlers/download_progress.go:86-95 | a folder that gained `video.mp4` announces exactly that file |
| DownloadProgress.TwoLinesOneFileScenario | backend/handlers/download_progress.go:73-98 | lines "50%", "", "100%" and one new `video.mp4` give two data events, the file event and `done` |
| Download.BatchValidated | backend/handlers/download.go:27-35 | the downloader runs only for a request that binds, has a valid URL and a known format |
| Download.BatchArgs | backend/handlers/download.go:44-61 | the two literal argument vectors of the batch handler |
| Download.BatchOutcomeOf | backend/handlers/download.go:27-96 | the outcome decided in the handler's order: binding and URL, format, the run, the after-read, the difference, the stat |
| Download.BatchArgsAreStreamArgsWithoutProgress | backend/handlers/download.go:44-61 | the batch vector is the stream vector without the `--progress-template` pair |
| Download.CompletionOf | backend/handlers/download.go:74-96 | after a successful run the outcome is always a 200 completion |
| Download.CompletedBody | backend/handlers/download.go:78 | the bare completion body has the single key "message" |
| Download.ResponseFor | backend/handlers/download.go:25-103 | 400 exactly for the two validation failures, 500 exactly for a failed run, 200 otherwise; errors carry only "error", successes carry "message" |
| Download.DownloadVideo | backend/handlers/download.go:25-103 | the response is the one for the outcome decided in the handler's order; the downloader is launched, with the batch vector, exactly when the request binds, its URL is valid and its format is known; `Launched` means a run was attempted, since a start failure reads as a failed run |
| Download.ReportCompletion | backend/handlers/download.go:74-103 | re-reading the folder, taking the first new name and stat-ing it gives the completion response |
| Download.ValidationOrder | backend/handlers/download.go:27-35 | a bind failure or invalid URL gives "Invalid request or URL" whatever the format; otherwise an unknown format gives the format error |
| Download.RunFailureResponse | backend/handlers/download.go:67-72 | any failure of the run gives 500 "Download failed", whatever its output |
| Download.DegradedCompletion | backend/handlers/download.go:75-96 | a failed after-read, no new name, or a failed stat gives a bare 200 "Download completed" |
| Download.FullSuccess | backend/handlers/download.go:90-103 | full success reports the first new name, its size and "/files/"+name; the name was in the after-read and not in the before-snapshot |
| Download.RequestTests | backend/handlers/download_test.go:19-49 | an empty JSON object is rejected with 400; a valid URL with format "invalid" gets the format error |
| Download.ServeFile | backend/handlers/download.go:107-116 | 400 "Filename is required" for an empty name; otherwise the result is that of serving the name's base element, so the attachment name is a single element or "/" (which may still be "." or "..": see `ServeDotDotLeavesFolder`) |
| Download.ServeName | backend/handlers/download.go:116-156 | the path is the cleaned join of the folder and the name; 404 only when the stat says not-exist (other stat errors go on); 500 exactly when opening or the open file's stat fails; otherwise the attachment of that name in the folder, with its MIME type and size |
| Download.BaseAfterSeparator | backend/handlers/download.go:115 | the base of `dir/name` is `name` |
| Download.JoinRoundTrip | backend/handlers/download.go:115-116 | for a clean folder and a plain element, `Base` of the join gives the element back and `Parent` of it gives the folder back |
| Download.ServeFileDropsDirectories | backend/handlers/download.go:114-116 | asking for `dir/name` serves exactly what asking for `name` serves |
| Download.ServeDotDotLeavesFolder | backend/handlers/download.go:115-116 | a request for ".." opens the folder's parent, outside the folder, and announces it as an attachment; that parent is a directory, so the copy at line 151 (not modelled) fails on the read and only the headers are sent, never file contents |
| Download.ServeDotServesFolder | backend/handlers/download.go:115-116 | a request for "." serves the folder itself |
| Download.ListedFiles | backend/handlers/download.go:170-184 | the records of the non-directory entries whose record was built, in read order |
| Download.EntryRecord | backend/handlers/download.go:172-183 | an entry contributes nothing exactly when it is a directory or its stat fails, and otherwise its own record |
| Download.FilesJson | backend/handlers/download.go:170-187 | the file list is JSON null exactly when no record was kept |
| Download.ListingBody | backend/handlers/download.go:186-189 | the success body has exactly the keys "files" and "count", the count being the number of records |
| Download.ListFiles | backend/handlers/download.go:159-190 | 500 "Failed to read download folder" on a read error; otherwise 200 with the kept records and their count |
| Download.Collect | backend/handlers/download.go:171-184 | the loop's result shape: each entry's contribution appended in read order |
| Download.Contribution | backend/handlers/download.go:172-183 | one entry's contribution, for one folder and one stat |
| Download.CollectSnoc | backend/handlers/download.go:171-184 | collecting one more entry appends its contribution |
| Download.CollectSource | backend/handlers/download.go:171-184 | every collected record lies in the contribution of some position |
| Download.CollectComplete | backend/handlers/download.go:171-184 | every record of every contribution is collected |
| Download.CollectNames | backend/handlers/download.go:171-184 | when each entry's records carry the entry's own name, the names collected are the non-directory names in read order |
| Download.EntryRecordName | backend/handlers/download.go:172-183 | a non-directory entry whose stat succeeds contributes one record carrying its own name; a directory contributes none |
| Download.ListedFilesSound | backend/handlers/download.go:171-184 | every listed record was built for a non-directory entry |
| Download.ListedFileSource | backend/handlers/download.go:171-184 | a listed record comes from a position of the listing holding a non-directory entry |
| Download.EntryRecordSource | backend/handlers/download.go:172-183 | a record in one entry's contribution is that entry's record |
| Download.ListedFilesComplete | backend/handlers/download.go:171-184 | every non-directory entry whose stat succeeds has its record listed |
| Download.ListedFilesMembers | backend/handlers/download.go:171-184 | a record is listed if and only if it is the record of a non-directory entry |
| Download.Names | backend/handlers/download.go:187 | the names of the records, one per record |
| Download.ListedFilesBound | backend/handlers/download.go:171-184 | never more records than non-directory entries |
| Download.ListedFilesNameAllFiles | backend/handlers/download.go:171-184 | when every stat succeeds, the records name exactly the non-directory entries, in read order |
| Download.ListedFilesSnoc | backend/handlers/download.go:171-184 | one more entry appends that entry's contribution |
| Download.ListedFilesPrefixStep | backend/handlers/download.go:171-184 | listing one more entry of the directory appends that entry's contribution |
| Download.ThreeEntryListing | backend/handlers/download.go:171-184 | a listing of three entries is their contributions in read order |
| Download.ListingScenario | backend/handlers/download.go:171-189 | a `.mp4` file, a `.txt` file and a sub-directory give two records, typed video and unknown |

## Left out

- `CleanupOldFiles` (`backend/utils/files.go:122-148`): it is not called by any of the modelled handlers and depends on the clock; it is not part of this model.
- `GetDownloadFolder` (`backend/utils/helper.go`): the folder is a parameter.
- `IsValidURL` (`backend/utils/url.go`): the validator is a parameter. Go's `url.ParseRequestURI` is not modelled.
- The downloader process itself, its 300-second timeout and context cancellation. The model takes the stages' success and the stderr lines as inputs.
- DownloadWithProgress: `cmd.Wait`'s exit status is awaited and ignored. `exitOk` is accepted and unused, so a failed download still ends with `done`.
- DownloadVideo: the captured combined output is only logged. `output` is accepted and unused.
- Log messages (`log.Printf`) are not modelled.
- Response headers (event-stream headers, `Content-Disposition`, `Content-Length`, `Content-Type`) are not modelled. `ServeFile`'s attachment carries the header values as fields instead.
- The `io.Copy` of the file body, and its error, are not modelled.
- `bufio.Scanner`'s 64 KiB token limit is not modelled: every line is taken as scanned.
- JSON escaping is not modelled. The `file` event inserts the name raw, as the source does.
- `Files.CreateFileInfo`: the modification time is an opaque string, not an RFC 3339 rendering of a clock value.
- GoPath.Join: `filepath.Clean` is modelled only for what the handlers pass: a clean folder (including ".") joined with an empty name, a plain element, ".", ".." or "/". Names with several elements, and folders that are not clean, are not cleaned.
- Only the Unix separator `/` is modelled. On Windows `filepath.Base`, `Ext` and `Join` also treat `\` and volume names as path syntax (`backend/utils/helper.go:11-12` picks the Windows folder); that is not modelled.
- `GoPath.ToLower`: only ASCII letters are lower-cased; Unicode case mapping is not modelled.
- `ShouldBindJSON` is modelled only by its outcome: a bound request or a failure. Type errors in the body and JSON decoding are not modelled.
- Concurrency between requests sharing the folder is not modelled. A file written by another request between the two reads would be reported as this request's.
- The router, the HTTP server, CORS, the health and thumbnail handlers, and the frontend are not part of this model.
- `ServeFile` and `ListFiles` are not registered in `backend/router/router.go`. They are modelled as handlers on their own.
