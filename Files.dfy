/** The file utilities shared by the handlers: directory snapshots and their
    difference, media classification by extension, the file record, and the
    format selector handed to the external downloader. The operating system is
    a parameter: a directory read is the `Option<seq<DirEntry>>` that
    `os.ReadDir` produced, and `os.Stat` is an oracle from paths to
    `StatResult`. */
module Files {
  import opened Wrappers
  import opened GoPath

  /** One entry returned by a directory read, in directory-read order. */
  datatype DirEntry = DirEntry(name: string, isDir: bool)

  /** What a successful stat reports: the size, and the modification time
      already formatted as RFC 3339 text. */
  datatype StatInfo = StatInfo(size: nat, modTime: string)

  /** The outcome of `os.Stat`: found, "does not exist", or any other error. */
  datatype StatResult = Found(info: StatInfo) | NotExist | StatFailed

  /** The record the listing endpoint returns for one file. */
  datatype FileInfo = FileInfo(name: string, size: nat, modTime: string, downloadUrl: string, fileType: string)

  // ---------------------------------------------------------------------------
  // Directory snapshots

  /** The names of the non-directory entries, in the order they were read. */
  function NonDirNames(entries: seq<DirEntry>): seq<string>
  {
    if entries == [] then []
    else
      var last := entries[|entries| - 1];
      NonDirNames(entries[..|entries| - 1]) + (if last.isDir then [] else [last.name])
  }

  /** `GetFileList`: on a read error the result is absent (nil plus the error);
      otherwise it lists the non-directory names in read order. */
  method GetFileList(listing: Option<seq<DirEntry>>) returns (files: Option<seq<string>>)
    ensures listing.None? <==> files.None?
    ensures listing.Some? ==> files == Some(NonDirNames(listing.value))
  {
    if listing.None? {
      return None;
    }
    var entries := listing.value;
    var names: seq<string> := [];
    var i := 0;
    while i < |entries|
      invariant 0 <= i <= |entries|
      invariant names == NonDirNames(entries[..i])
    {
      assert entries[..i + 1][..i] == entries[..i];
      if !entries[i].isDir {
        names := names + [entries[i].name];
      }
      i := i + 1;
    }
    assert entries[..i] == entries;
    return Some(names);
  }

  /** Listing a concatenation of reads lists each read in turn. */
  lemma {:induction false} NonDirNamesAppend(a: seq<DirEntry>, b: seq<DirEntry>)
    ensures NonDirNames(a + b) == NonDirNames(a) + NonDirNames(b)
  {
    if b != [] {
      var b' := b[..|b| - 1];
      var last := b[|b| - 1];
      var tail: seq<string> := if last.isDir then [] else [last.name];
      assert (a + b)[..|a + b| - 1] == a + b';
      assert (a + b)[|a + b| - 1] == last;
      NonDirNamesAppend(a, b');
      calc {
        NonDirNames(a + b);
        NonDirNames(a + b') + tail;
        NonDirNames(a) + NonDirNames(b') + tail;
        NonDirNames(a) + (NonDirNames(b') + tail);
        NonDirNames(a) + NonDirNames(b);
      }
    } else {
      assert a + b == a;
    }
  }

  /** A name is listed exactly when some non-directory entry carries it. */
  lemma {:induction false} NonDirNamesMembers(entries: seq<DirEntry>, x: string)
    ensures x in NonDirNames(entries) <==>
            exists i :: 0 <= i < |entries| && !entries[i].isDir && entries[i].name == x
  {
    if entries != [] {
      var p := entries[..|entries| - 1];
      NonDirNamesMembers(p, x);
      if x in NonDirNames(p) {
        var i :| 0 <= i < |p| && !p[i].isDir && p[i].name == x;
        assert entries[i] == p[i];
      }
      if exists i :: 0 <= i < |entries| && !entries[i].isDir && entries[i].name == x {
        var i :| 0 <= i < |entries| && !entries[i].isDir && entries[i].name == x;
        if i < |p| {
          assert p[i] == entries[i];
        }
      }
    }
  }

  /** The names in `after` that are not in `before`, in `after`'s order and
      with `after`'s duplicates. */
  function NewFiles(before: seq<string>, after: seq<string>): seq<string>
  {
    if after == [] then []
    else
      var last := after[|after| - 1];
      NewFiles(before, after[..|after| - 1]) + (if last in before then [] else [last])
  }

  /** `FindNewFiles`: first records every name of `before` in a set (a map to
      `true`), then keeps each name of `after` that the set does not hold. */
  method FindNewFiles(before: seq<string>, after: seq<string>) returns (newFiles: seq<string>)
    ensures newFiles == NewFiles(before, after)
  {
    var beforeSet: map<string, bool> := map[];
    var i := 0;
    while i < |before|
      invariant 0 <= i <= |before|
      invariant forall f :: f in beforeSet <==> f in before[..i]
      invariant forall f :: f in beforeSet ==> beforeSet[f]
    {
      assert before[..i + 1] == before[..i] + [before[i]];
      beforeSet := beforeSet[before[i] := true];
      i := i + 1;
    }
    assert before[..i] == before;
    newFiles := [];
    var j := 0;
    while j < |after|
      invariant 0 <= j <= |after|
      invariant newFiles == NewFiles(before, after[..j])
    {
      assert after[..j + 1][..j] == after[..j];
      var file := after[j];
      // a name missing from the map reads as false
      var seen := file in beforeSet && beforeSet[file];
      if !seen {
        newFiles := newFiles + [file];
      }
      j := j + 1;
    }
    assert after[..j] == after;
  }

  /** The difference of a concatenation is the concatenation of differences:
      together with NewFilesSingle this fixes the order of the result. */
  lemma {:induction false} NewFilesAppend(before: seq<string>, a: seq<string>, b: seq<string>)
    ensures NewFiles(before, a + b) == NewFiles(before, a) + NewFiles(before, b)
  {
    if b != [] {
      var b' := b[..|b| - 1];
      var last := b[|b| - 1];
      var tail: seq<string> := if last in before then [] else [last];
      assert (a + b)[..|a + b| - 1] == a + b';
      assert (a + b)[|a + b| - 1] == last;
      NewFilesAppend(before, a, b');
      calc {
        NewFiles(before, a + b);
        NewFiles(before, a + b') + tail;
        NewFiles(before, a) + NewFiles(before, b') + tail;
        NewFiles(before, a) + (NewFiles(before, b') + tail);
        NewFiles(before, a) + NewFiles(before, b);
      }
    } else {
      assert a + b == a;
    }
  }

  lemma NewFilesSingle(before: seq<string>, x: string)
    ensures NewFiles(before, [x]) == if x in before then [] else [x]
  {
    assert [x][..0] == [];
  }

  /** A name is new exactly when it is in `after` and not in `before`. */
  lemma {:induction false} NewFilesMembers(before: seq<string>, after: seq<string>, x: string)
    ensures x in NewFiles(before, after) <==> x in after && x !in before
  {
    if after != [] {
      var p := after[..|after| - 1];
      assert after == p + [after[|after| - 1]];
      NewFilesMembers(before, p, x);
    }
  }

  /** Each new name occurs as often as in `after`; each old one not at all. */
  lemma {:induction false} NewFilesMultiplicity(before: seq<string>, after: seq<string>, x: string)
    ensures multiset(NewFiles(before, after))[x] == if x in before then 0 else multiset(after)[x]
  {
    if after != [] {
      var p := after[..|after| - 1];
      assert after == p + [after[|after| - 1]];
      NewFilesMultiplicity(before, p, x);
    }
  }

  /** The difference is empty exactly when every name of `after` was already
      in `before`; in particular a snapshot compared with itself. */
  lemma NewFilesEmptyIffCovered(before: seq<string>, after: seq<string>)
    ensures NewFiles(before, after) == [] <==> forall x :: x in after ==> x in before
  {
    if NewFiles(before, after) != [] {
      NewFilesMembers(before, after, NewFiles(before, after)[0]);
    }
    forall x | x in after && x !in before
      ensures x in NewFiles(before, after)
    {
      NewFilesMembers(before, after, x);
    }
  }

  lemma NewFilesOfSelf(snapshot: seq<string>)
    ensures NewFiles(snapshot, snapshot) == []
  {
    NewFilesEmptyIffCovered(snapshot, snapshot);
  }

  /** Against an empty (or failed, hence nil) snapshot every name is new. */
  lemma {:induction false} NewFilesFromNothing(after: seq<string>)
    ensures NewFiles([], after) == after
  {
    if after != [] {
      NewFilesFromNothing(after[..|after| - 1]);
    }
  }

  /** Adding one unseen name to a snapshot yields exactly that name. */
  lemma NewFilesOneAdded(before: seq<string>, x: string)
    requires x !in before
    ensures NewFiles(before, before + [x]) == [x]
  {
    NewFilesOfSelf(before);
  }

  /** The first new name is the earliest entry of `after` absent from
      `before`. */
  lemma {:induction false} FirstNewFile(before: seq<string>, after: seq<string>)
    requires NewFiles(before, after) != []
    ensures exists k :: 0 <= k < |after| && after[k] == NewFiles(before, after)[0] &&
                        after[k] !in before && forall j :: 0 <= j < k ==> after[j] in before
  {
    var p := after[..|after| - 1];
    var last := after[|after| - 1];
    if NewFiles(before, p) == [] {
      NewFilesEmptyIffCovered(before, p);
      var k := |after| - 1;
      assert forall j :: 0 <= j < k ==> after[j] == p[j];
    } else {
      FirstNewFile(before, p);
      var k :| 0 <= k < |p| && p[k] == NewFiles(before, p)[0] &&
               p[k] !in before && forall j :: 0 <= j < k ==> p[j] in before;
      assert after[k] == p[k];
      assert forall j :: 0 <= j < k ==> after[j] == p[j];
    }
  }

  // ---------------------------------------------------------------------------
  // Classification by extension

  /** The cases of `GetFileType`'s switch, as a table from lower-cased
      extension to media type. */
  const MediaTypes: map<string, string> := map[
    ".mp4" := "video", ".avi" := "video", ".mkv" := "video", ".mov" := "video", ".wmv" := "video",
    ".flv" := "video", ".webm" := "video", ".m4v" := "video", ".3gp" := "video", ".ogv" := "video",
    ".mp3" := "audio", ".wav" := "audio", ".flac" := "audio", ".aac" := "audio", ".ogg" := "audio",
    ".m4a" := "audio", ".wma" := "audio"]

  /** The media type of a lower-cased extension; the default case is "unknown". */
  function TypeOfExtension(ext: string): string
  {
    if ext in MediaTypes then MediaTypes[ext] else "unknown"
  }

  /** `GetFileType`: classifies the lower-cased final extension. */
  function GetFileType(filename: string): (t: string)
    ensures t == "video" || t == "audio" || t == "unknown"
  {
    TypeOfExtension(ToLower(Ext(filename)))
  }

  /** The cases of `GetContentType`'s switch, as a table from lower-cased
      extension to MIME type. */
  const MimeTypes: map<string, string> := map[
    ".mp4" := "video/mp4", ".m4v" := "video/mp4", ".avi" := "video/x-msvideo", ".mkv" := "video/x-matroska",
    ".mov" := "video/quicktime", ".wmv" := "video/x-ms-wmv", ".flv" := "video/x-flv", ".webm" := "video/webm",
    ".3gp" := "video/3gpp", ".ogv" := "video/ogg", ".mp3" := "audio/mpeg", ".wav" := "audio/wav",
    ".flac" := "audio/flac", ".aac" := "audio/aac", ".m4a" := "audio/aac", ".ogg" := "audio/ogg",
    ".wma" := "audio/x-ms-wma"]

  /** The MIME type of a lower-cased extension; the default case is the
      generic binary type. */
  function ContentTypeOfExtension(ext: string): string
  {
    if ext in MimeTypes then MimeTypes[ext] else "application/octet-stream"
  }

  /** `GetContentType`: the MIME type of the lower-cased final extension. */
  function GetContentType(filename: string): (ct: string)
    ensures |ct| >= 6
  {
    ContentTypeOfExtension(ToLower(Ext(filename)))
  }

  /** Both switches list the same extensions. */
  lemma SameExtensions()
    ensures MediaTypes.Keys == MimeTypes.Keys
  {
  }

  /** Per extension, the media type and the MIME type agree. */
  lemma ExtensionClassesAgree(ext: string)
    ensures TypeOfExtension(ext) == "video" <==> ContentTypeOfExtension(ext)[..6] == "video/"
    ensures TypeOfExtension(ext) == "audio" <==> ContentTypeOfExtension(ext)[..6] == "audio/"
    ensures TypeOfExtension(ext) == "unknown" <==> ContentTypeOfExtension(ext) == "application/octet-stream"
  {
    SameExtensions();
    if ext in MimeTypes {
      TableEntriesAgree(ext);
      assert "video/"[0] != "audio/"[0];
    } else {
      assert "application/octet-stream"[..6] == "applic";
    }
  }

  /** Each listed extension is video or audio, and its MIME type starts with
      that media type and a slash. */
  lemma TableEntriesAgree(ext: string)
    requires ext in MimeTypes
    ensures ext in MediaTypes && (MediaTypes[ext] == "video" || MediaTypes[ext] == "audio")
    ensures |MimeTypes[ext]| >= 6
    ensures MediaTypes[ext] == "video" ==> MimeTypes[ext][..6] == "video/"
    ensures MediaTypes[ext] == "audio" ==> MimeTypes[ext][..6] == "audio/"
  {
    SameExtensions();
    MediaTypesAreVideoOrAudio(ext);
    MimeTypePrefixes(ext);
  }

  lemma MediaTypesAreVideoOrAudio(ext: string)
    requires ext in MediaTypes
    ensures MediaTypes[ext] == "video" || MediaTypes[ext] == "audio"
  {
  }

  lemma MimeTypePrefixes(ext: string)
    requires ext in MimeTypes && ext in MediaTypes
    ensures |MimeTypes[ext]| >= 6
    ensures MimeTypes[ext][..6] == MediaTypes[ext] + "/"
  {
  }

  /** The two classifications agree: a video type has a "video/" MIME type, an
      audio type an "audio/" one, and "unknown" the generic binary type. */
  lemma TypeAgreesWithContentType(filename: string)
    ensures GetFileType(filename) == "video" <==> GetContentType(filename)[..6] == "video/"
    ensures GetFileType(filename) == "audio" <==> GetContentType(filename)[..6] == "audio/"
    ensures GetFileType(filename) == "unknown" <==> GetContentType(filename) == "application/octet-stream"
  {
    ExtensionClassesAgree(ToLower(Ext(filename)));
  }

  /** Only the final extension counts: whatever precedes it, including other
      extensions, is ignored. */
  lemma FileTypeOfFinalExtension(stem: string, ext: string)
    requires |ext| > 0 && ext[0] == '.' && '.' !in ext[1..] && Separator !in ext
    ensures GetFileType(stem + ext) == TypeOfExtension(ToLower(ext))
    ensures GetContentType(stem + ext) == ContentTypeOfExtension(ToLower(ext))
  {
    ExtOfFinalSuffix(stem, ext);
  }

  /** Classification ignores ASCII case. */
  lemma FileTypeIgnoresCase(filename: string)
    ensures GetFileType(ToLower(filename)) == GetFileType(filename)
    ensures GetContentType(ToLower(filename)) == GetContentType(filename)
  {
    ExtOfLower(filename);
    var e := Ext(filename);
    assert ToLower(ToLower(e)) == ToLower(e);
  }

  /** A name whose final element has no '.' has no type. */
  lemma NoExtensionIsUnknown(filename: string)
    requires '.' !in LastElement(filename)
    ensures GetFileType(filename) == "unknown"
    ensures GetContentType(filename) == "application/octet-stream"
  {
    ExtEmptyIffNoDot(filename);
    assert ToLower("") == "";
    EmptyExtensionIsUnknown();
  }

  lemma EmptyExtensionIsUnknown()
    ensures TypeOfExtension("") == "unknown"
    ensures ContentTypeOfExtension("") == "application/octet-stream"
  {
  }

  /** Any name ending in ".MP4" is a video: the extension is lower-cased
      before the lookup. */
  lemma UpperCaseMp4IsVideo(stem: string)
    ensures GetFileType(stem + ".MP4") == GetFileType(stem + ".mp4") == "video"
    ensures GetContentType(stem + ".MP4") == "video/mp4"
  {
    FileTypeOfFinalExtension(stem, ".MP4");
    assert ToLower(".MP4") == ".mp4";
    Mp4NameIsVideo(stem);
  }

  /** Any name ending in ".mp4" is a video. */
  lemma Mp4NameIsVideo(stem: string)
    ensures GetFileType(stem + ".mp4") == "video"
  {
    FileTypeOfFinalExtension(stem, ".mp4");
    assert ToLower(".mp4") == ".mp4";
  }

  /** Any name ending in ".txt" is unknown. */
  lemma TxtNameIsUnknown(stem: string)
    ensures GetFileType(stem + ".txt") == "unknown"
  {
    FileTypeOfFinalExtension(stem, ".txt");
    assert ToLower(".txt") == ".txt";
    TextExtensionIsUnknown();
  }

  lemma FileTypeDoubleExtensionExample()
    ensures GetFileType("a.mp4.txt") == "unknown"
  {
    TxtNameIsUnknown("a.mp4");
    assert "a.mp4" + ".txt" == "a.mp4.txt";
  }

  lemma TextExtensionIsUnknown()
    ensures TypeOfExtension(".txt") == "unknown"
  {
  }

  /** A '.' in a directory component is not an extension: below a
      directory, a name without '.' is unknown, whatever the directory. */
  lemma DotInDirectoryIgnored(dir: string, name: string)
    requires '.' !in name && Separator !in name
    ensures GetFileType(dir + [Separator] + name) == "unknown"
  {
    LastElementAfterSeparator(dir, name);
    NoExtensionIsUnknown(dir + [Separator] + name);
  }


  // ---------------------------------------------------------------------------
  // File records

  /** `CreateFileInfo`: stats `folder/filename`; a failed stat gives no record,
      otherwise the record names the file, carries its size and time, and
      points at its retrieval path. */
  function CreateFileInfo(filename: string, folder: string, stat: string -> StatResult): (r: Option<FileInfo>)
    ensures r.None? <==> !stat(Join(folder, filename)).Found?
    ensures r.Some? ==> r.value.name == filename && r.value.downloadUrl == "/files/" + filename
    ensures r.Some? ==> r.value.fileType == GetFileType(filename)
    ensures r.Some? ==> r.value.size == stat(Join(folder, filename)).info.size
    ensures r.Some? ==> r.value.modTime == stat(Join(folder, filename)).info.modTime
  {
    match stat(Join(folder, filename))
    case Found(info) =>
      Some(FileInfo(filename, info.size, info.modTime, "/files/" + filename, GetFileType(filename)))
    case _ => None
  }

  /** The retrieval path holds the file name after the fixed "/files/" prefix. */
  lemma DownloadUrlNamesFile(filename: string, folder: string, stat: string -> StatResult)
    requires CreateFileInfo(filename, folder, stat).Some?
    ensures var fi := CreateFileInfo(filename, folder, stat).value;
            fi.downloadUrl[..7] == "/files/" && fi.downloadUrl[7..] == fi.name
  {
  }

  // ---------------------------------------------------------------------------
  // Format selector

  /** The container filter for a recognised container, else none. */
  function ExtFilter(videoFormat: string): (f: string)
    ensures videoFormat in {"mp4", "webm", "mkv", "avi", "mov", "flv", "3gp"} ==> f == "[ext=" + videoFormat + "]"
    ensures videoFormat !in {"mp4", "webm", "mkv", "avi", "mov", "flv", "3gp"} ==> f == ""
  {
    if videoFormat == "mp4" then "[ext=mp4]"
    else if videoFormat == "webm" then "[ext=webm]"
    else if videoFormat == "mkv" then "[ext=mkv]"
    else if videoFormat == "avi" then "[ext=avi]"
    else if videoFormat == "mov" then "[ext=mov]"
    else if videoFormat == "flv" then "[ext=flv]"
    else if videoFormat == "3gp" then "[ext=3gp]"
    else ""
  }

  /** The height cap, written as `[height<=R]` with R inserted verbatim. */
  function HeightFilter(resolution: string): (h: string)
    ensures resolution == "" ==> h == ""
    ensures resolution != "" ==> h == "[height<=" + resolution + "]"
  {
    if resolution != "" then "[height<=" + resolution + "]" else ""
  }

  /** The local list of candidate selectors, most preferred first. */
  function FormatSelectors(resolution: string, videoFormat: string): seq<string>
  {
    var h, e := HeightFilter(resolution), ExtFilter(videoFormat);
    if resolution != "" && videoFormat != "" && videoFormat != "best" then
      ["bestvideo" + h + e + "+bestaudio/best" + h + e, "bestvideo" + h + "+bestaudio/best" + h]
    else if resolution != "" then
      ["bestvideo" + h + "+bestaudio/best" + h]
    else if videoFormat != "" && videoFormat != "best" then
      ["bestvideo" + e + "+bestaudio/best" + e]
    else
      ["bestvideo+bestaudio/best"]
  }

  /** `BuildVideoFormat`: the first candidate selector, which in every case
      is the height cap (if any) and the container filter (if any) applied to
      both the video-plus-audio pair and the single-file fallback. */
  function BuildVideoFormat(resolution: string, videoFormat: string): (sel: string)
    ensures sel == "bestvideo" + HeightFilter(resolution) + ExtFilter(videoFormat) +
                   "+bestaudio/best" + HeightFilter(resolution) + ExtFilter(videoFormat)
  {
    var selectors := FormatSelectors(resolution, videoFormat);
    FirstSelector(resolution, videoFormat);
    if |selectors| > 0 then selectors[0] else "bestvideo+bestaudio/best"
  }

  lemma FirstSelector(resolution: string, videoFormat: string)
    ensures |FormatSelectors(resolution, videoFormat)| > 0
    ensures FormatSelectors(resolution, videoFormat)[0] ==
            "bestvideo" + HeightFilter(resolution) + ExtFilter(videoFormat) +
            "+bestaudio/best" + HeightFilter(resolution) + ExtFilter(videoFormat)
  {
    var h, e := HeightFilter(resolution), ExtFilter(videoFormat);
    if resolution != "" && videoFormat != "" && videoFormat != "best" {
    } else if resolution != "" {
      assert e == "";
    } else if videoFormat != "" && videoFormat != "best" {
      assert h == "";
    } else {
      assert h == "" && e == "";
      assert "bestvideo" + h + e + "+bestaudio/best" + h + e == "bestvideo" + "+bestaudio/best";
    }
  }

  /** The candidate list is never empty, so the trailing default is dead code,
      and when a container filter applies the looser second candidate is never
      the answer. */
  lemma FallbackNeverReturned(resolution: string, videoFormat: string)
    ensures |FormatSelectors(resolution, videoFormat)| > 0
    ensures BuildVideoFormat(resolution, videoFormat) == FormatSelectors(resolution, videoFormat)[0]
    ensures |FormatSelectors(resolution, videoFormat)| == 2 && ExtFilter(videoFormat) != "" ==>
            BuildVideoFormat(resolution, videoFormat) != FormatSelectors(resolution, videoFormat)[1]
  {
    var s := FormatSelectors(resolution, videoFormat);
    if |s| == 2 && ExtFilter(videoFormat) != "" {
      assert |s[0]| == |s[1]| + 2 * |ExtFilter(videoFormat)|;
    }
  }

  /** Without a resolution, "", "best" and unrecognised containers all give the
      unconstrained selector. */
  lemma UnconstrainedSelector(videoFormat: string)
    requires videoFormat !in {"mp4", "webm", "mkv", "avi", "mov", "flv", "3gp"}
    ensures BuildVideoFormat("", videoFormat) == "bestvideo+bestaudio/best"
  {
  }

  lemma SelectorExampleHeightAndContainer()
    ensures BuildVideoFormat("720", "mp4") == "bestvideo[height<=720][ext=mp4]" + "+bestaudio/best[height<=720][ext=mp4]"
  {
    var h, e := HeightFilter("720"), ExtFilter("mp4");
    HeightAndContainerFilters();
    SelectorHalves(h, e);
    assert "bestvideo" + h + e == "bestvideo[height<=720][ext=mp4]";
    assert "+bestaudio/best" + h + e == "+bestaudio/best[height<=720][ext=mp4]";
  }

  /** The selector is the video-plus-audio pair followed by the fallback. */
  lemma SelectorHalves(h: string, e: string)
    ensures "bestvideo" + h + e + "+bestaudio/best" + h + e == ("bestvideo" + h + e) + ("+bestaudio/best" + h + e)
  {
  }

  lemma HeightAndContainerFilters()
    ensures HeightFilter("720") == "[height<=720]" && ExtFilter("mp4") == "[ext=mp4]"
  {
    assert "[height<=" + "720" == "[height<=720";
  }

  lemma SelectorExampleHeightOnly()
    ensures BuildVideoFormat("1080", "best") == "bestvideo[height<=1080]+bestaudio/best[height<=1080]"
  {
    var h, e := HeightFilter("1080"), ExtFilter("best");
    assert h == "[height<=1080]" by { assert "[height<=" + "1080" == "[height<=1080"; }
    assert e == "";
    assert "bestvideo" + h == "bestvideo[height<=1080]";
    assert "bestvideo[height<=1080]" + "+bestaudio/best" == "bestvideo[height<=1080]+bestaudio/best";
    assert "bestvideo[height<=1080]+bestaudio/best" + h == "bestvideo[height<=1080]+bestaudio/best[height<=1080]";
  }

  lemma SelectorExampleContainerOnly()
    ensures BuildVideoFormat("", "webm") == "bestvideo[ext=webm]+bestaudio/best[ext=webm]"
  {
    var e := ExtFilter("webm");
    assert e == "[ext=webm]";
    assert "bestvideo" + e == "bestvideo[ext=webm]";
    assert "bestvideo[ext=webm]" + "+bestaudio/best" == "bestvideo[ext=webm]+bestaudio/best";
    assert "bestvideo[ext=webm]+bestaudio/best" + e == "bestvideo[ext=webm]+bestaudio/best[ext=webm]";
  }
}
