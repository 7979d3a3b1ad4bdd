/** Classification of the files inside a shared torrent: the extension rule and
    video whitelist of `isVideoFile`, the MIME table of `getVideoMimeType`, and
    the two suffix regular expressions that pick subtitle files and the file
    the ten-minute streamer plays. */
module FileTypes {
  import opened Strings

  /** A file inside a torrent, by name and length in bytes. */
  datatype TorrentFile = TorrentFile(name: string, length: nat)

  /** A torrent as the players see it: its info hash and its files, in order. */
  datatype Torrent = Torrent(infoHash: string, files: seq<TorrentFile>)

  /** The text after the last `.` of `s`, or all of `s` when it has no dot:
      what `s.split('.').pop()` returns. */
  function AfterLastDot(s: string): string {
    if s == [] || s[|s| - 1] == '.' then []
    else AfterLastDot(s[..|s| - 1]) + [s[|s| - 1]]
  }

  /** It is a dot-free suffix of `s`, preceded by a dot when shorter than `s`. */
  lemma {:induction false} AfterLastDotShape(s: string)
    ensures var r := AfterLastDot(s);
      |r| <= |s| && r == s[|s| - |r|..] && '.' !in r && (|r| < |s| ==> s[|s| - |r| - 1] == '.')
    decreases |s|
  {
    if s != [] && s[|s| - 1] != '.' {
      var init := s[..|s| - 1];
      AfterLastDotShape(init);
      var r' := AfterLastDot(init);
      assert init[|init| - |r'|..] + [s[|s| - 1]] == s[|s| - 1 - |r'|..];
    }
  }

  /** The lower-cased extension used by `isVideoFile` and `getVideoMimeType`. */
  function Extension(name: string): (e: string)
    ensures |e| <= |name| && '.' !in e
  {
    AfterLastDotShape(Lower(name));
    AfterLastDot(Lower(name))
  }

  const VideoExtensions: seq<string> :=
    ["mp4", "mkv", "avi", "mov", "webm", "m4v", "wmv", "flv",
     "3gp", "ogv", "mpg", "mpeg", "ts", "divx", "xvid"]

  /** `isVideoFile`: the extension is one of the fifteen listed. */
  predicate IsVideoFile(name: string) {
    Extension(name) in VideoExtensions
  }

  const MimeTypes: map<string, string> := map[
    "mp4" := "video/mp4",
    "mkv" := "video/x-matroska",
    "avi" := "video/x-msvideo",
    "mov" := "video/quicktime",
    "webm" := "video/webm",
    "m4v" := "video/x-m4v",
    "wmv" := "video/x-ms-wmv",
    "flv" := "video/x-flv",
    "3gp" := "video/3gpp",
    "ogv" := "video/ogg",
    "mpg" := "video/mpeg",
    "mpeg" := "video/mpeg"
  ]

  const DefaultMimeType: string := "video/mp4"

  /** `getVideoMimeType`: the table entry for the extension, `video/mp4`
      otherwise. The code looks the extension up in an object literal, so an
      extension naming an inherited property (`constructor`, `__proto__`)
      yields that property instead; its only caller passes names that pass
      `isVideoFile`, for which the two agree. */
  function MimeType(name: string): (m: string)
    ensures m in MimeTypes.Values
  {
    var ext := Extension(name);
    if ext in MimeTypes then MimeTypes[ext]
    else assert MimeTypes["mp4"] == DefaultMimeType; DefaultMimeType
  }

  const SubtitleExtensions: seq<string> := ["vtt", "srt", "ass", "ssa", "sub"]

  /** Extensions of `/\.(mp4|mkv|avi|mov|webm|m4v|wmv|flv|3gp|ogg|ogv)$/i`. */
  const StreamableExtensions: seq<string> :=
    ["mp4", "mkv", "avi", "mov", "webm", "m4v", "wmv", "flv", "3gp", "ogg", "ogv"]

  predicate EndsWith(s: string, suffix: string) {
    |suffix| <= |s| && s[|s| - |suffix|..] == suffix
  }

  /** A case-insensitive regular expression `/\.(e1|e2|...)$/i`. */
  predicate HasDottedSuffix(name: string, exts: seq<string>) {
    exists i :: 0 <= i < |exts| && EndsWith(Lower(name), "." + exts[i])
  }

  /** `/\.(vtt|srt|ass|ssa|sub)$/i`, the subtitle filter of `handleSubtitles`. */
  predicate IsSubtitleFile(name: string) {
    HasDottedSuffix(name, SubtitleExtensions)
  }

  /** The video filter of `streamFirst10Minutes`. */
  predicate IsStreamableVideo(name: string) {
    HasDottedSuffix(name, StreamableExtensions)
  }

  lemma LowerAppend(a: string, b: string)
    ensures Lower(a + b) == Lower(a) + Lower(b)
  {
    var l, r := Lower(a + b), Lower(a) + Lower(b);
    forall i | 0 <= i < |l|
      ensures l[i] == r[i]
    {
      if i < |a| {
        assert (a + b)[i] == a[i];
      } else {
        assert (a + b)[i] == b[i - |a|];
      }
    }
  }

  lemma LowerKeepsDots(s: string)
    ensures '.' in s <==> '.' in Lower(s)
  {
    if '.' in s {
      var i :| 0 <= i < |s| && s[i] == '.';
      assert Lower(s)[i] == '.';
    }
    if '.' in Lower(s) {
      var i :| 0 <= i < |s| && Lower(s)[i] == '.';
      assert s[i] == '.';
    }
  }

  lemma LowerOfLower(s: string)
    ensures Lower(Lower(s)) == Lower(s)
  {
  }

  /** The dot-free suffix after a dot is what `split('.').pop()` returns. */
  lemma {:induction false} AfterLastDotOfDotted(stem: string, ext: string)
    requires '.' !in ext
    ensures AfterLastDot(stem + "." + ext) == ext
    decreases |ext|
  {
    var s := stem + "." + ext;
    if ext != [] {
      var init := ext[..|ext| - 1];
      assert ext[|ext| - 1] in ext;
      assert s[..|s| - 1] == stem + "." + init;
      AfterLastDotOfDotted(stem, init);
      assert init + [ext[|ext| - 1]] == ext;
    }
  }

  /** The extension of `stem.ext` is `ext` in lower case, whatever `stem` holds. */
  lemma ExtensionOfDotted(stem: string, ext: string)
    requires '.' !in ext
    ensures Extension(stem + "." + ext) == Lower(ext)
  {
    LowerAppend(stem + ".", ext);
    LowerAppend(stem, ".");
    assert Lower(".") == ".";
    assert Lower(stem + "." + ext) == Lower(stem) + "." + Lower(ext);
    LowerKeepsDots(ext);
    AfterLastDotOfDotted(Lower(stem), Lower(ext));
  }

  /** A name without any dot is its own (lower-cased) extension: a file named
      `MP4` passes `isVideoFile`. */
  lemma ExtensionWithoutDot(name: string)
    requires '.' !in name
    ensures Extension(name) == Lower(name)
  {
    var l := Lower(name);
    LowerKeepsDots(name);
    AfterLastDotShape(l);
    var r := AfterLastDot(l);
    assert forall k :: 0 <= k < |l| ==> l[k] != '.';
    assert |r| == |l|;
  }

  /** `isVideoFile` accepts `stem.ext` exactly when `ext`, lower-cased, is one
      of the fifteen video extensions; upper-case extensions count. */
  lemma VideoFileByExtension(stem: string, ext: string)
    requires '.' !in ext
    ensures IsVideoFile(stem + "." + ext) <==> Lower(ext) in VideoExtensions
  {
    ExtensionOfDotted(stem, ext);
  }

  /** Every extension with its own MIME entry is a video extension; the three
      video extensions without one (`ts`, `divx`, `xvid`) fall back to
      `video/mp4`, so a video file is served as `video/mp4` exactly when it
      is an `mp4`, `ts`, `divx` or `xvid` file. */
  lemma MimeTableCoversVideoExtensions(name: string)
    ensures MimeTypes.Keys <= set e | e in VideoExtensions
    ensures (set e | e in VideoExtensions) - MimeTypes.Keys == {"ts", "divx", "xvid"}
    ensures IsVideoFile(name) ==>
      (MimeType(name) == DefaultMimeType <==> Extension(name) in {"mp4", "ts", "divx", "xvid"})
    ensures Extension(name) in MimeTypes ==> MimeType(name) == MimeTypes[Extension(name)]
    ensures IsVideoFile(name) ==> MimeType(name) in MimeTypes.Values
  {
    MimeTableShape();
    MimeDefaultOnlyForMp4();
    var e := Extension(name);
    if e in VideoExtensions && e !in MimeTypes {
      assert e in (set x | x in VideoExtensions) - MimeTypes.Keys;
    }
  }

  /** The table's keys against the video extensions. */
  lemma MimeTableShape()
    ensures MimeTypes.Keys <= set e | e in VideoExtensions
    ensures (set e | e in VideoExtensions) - MimeTypes.Keys == {"ts", "divx", "xvid"}
  {
    forall e | e in VideoExtensions && e !in MimeTypes
      ensures e in {"ts", "divx", "xvid"}
    {
    }
    forall e | e in {"ts", "divx", "xvid"}
      ensures e in VideoExtensions && e !in MimeTypes
    {
    }
  }

  /** `mp4` is the one key whose entry is the `video/mp4` default. */
  lemma MimeDefaultOnlyForMp4()
    ensures "mp4" in MimeTypes && DefaultMimeType in MimeTypes.Values
    ensures forall k :: k in MimeTypes ==> (MimeTypes[k] == DefaultMimeType <==> k == "mp4")
  {
    assert MimeTypes["mp4"] == DefaultMimeType;
  }

  /** A suffix regular expression `/\.(e1|...)$/i` over dot-free, lower-case
      extensions accepts a name exactly when the name has a dot and its
      `split('.').pop()` extension is in the list. */
  lemma DottedSuffixIsExtension(name: string, exts: seq<string>)
    requires forall i :: 0 <= i < |exts| ==> '.' !in exts[i]
    ensures HasDottedSuffix(name, exts) <==> '.' in name && Extension(name) in exts
  {
    LowerKeepsDots(name);
    if HasDottedSuffix(name, exts) {
      var i :| 0 <= i < |exts| && EndsWith(Lower(name), "." + exts[i]);
      DottedSuffixGivesExtension(Lower(name), exts[i]);
    }
    if '.' in name && Extension(name) in exts {
      ExtensionGivesDottedSuffix(Lower(name));
    }
  }

  lemma DottedSuffixGivesExtension(l: string, e: string)
    requires '.' !in e && EndsWith(l, "." + e)
    ensures '.' in l && AfterLastDot(l) == e
  {
    var stem := l[..|l| - |e| - 1];
    assert l == stem + "." + e;
    AfterLastDotOfDotted(stem, e);
    assert l[|l| - |e| - 1] == '.';
  }

  lemma ExtensionGivesDottedSuffix(l: string)
    requires '.' in l
    ensures EndsWith(l, "." + AfterLastDot(l))
  {
    var r := AfterLastDot(l);
    AfterLastDotShape(l);
    var d :| 0 <= d < |l| && l[d] == '.';
    forall j | |l| - |r| <= j < |l| ensures l[j] != '.' {
      assert l[j] == r[j - (|l| - |r|)];
    }
    assert d < |l| - |r|;
    assert l[|l| - |r| - 1..] == "." + r;
  }

  /** The subtitle filter accepts exactly the names with a dot whose extension
      is `vtt`, `srt`, `ass`, `ssa` or `sub`, in any case. */
  lemma SubtitleByExtension(name: string)
    ensures IsSubtitleFile(name) <==> '.' in name && Extension(name) in SubtitleExtensions
  {
    assert forall i :: 0 <= i < |SubtitleExtensions| ==> '.' !in SubtitleExtensions[i];
    DottedSuffixIsExtension(name, SubtitleExtensions);
  }

  /** The streamer's video filter is the extension rule of `isVideoFile` with
      another list and a dot required. */
  lemma StreamableByExtension(name: string)
    ensures IsStreamableVideo(name) <==> '.' in name && Extension(name) in StreamableExtensions
    ensures IsStreamableVideo(name) && Extension(name) != "ogg" ==> IsVideoFile(name)
  {
    assert forall i :: 0 <= i < |StreamableExtensions| ==> '.' !in StreamableExtensions[i];
    DottedSuffixIsExtension(name, StreamableExtensions);
  }

  /** The three filters the players apply to a torrent's files. */
  datatype FileKind = AnyVideo | Subtitle | StreamableVideo

  predicate Matches(f: TorrentFile, kind: FileKind) {
    match kind
    case AnyVideo => IsVideoFile(f.name)
    case Subtitle => IsSubtitleFile(f.name)
    case StreamableVideo => IsStreamableVideo(f.name)
  }

  /** `xs.find(p)`, as an index, looking from position `from` on. */
  function FirstFrom<T>(xs: seq<T>, p: T -> bool, from: nat): (r: Option<nat>)
    ensures r.Some? ==> from <= r.value < |xs|
    decreases |xs| - from
  {
    if from >= |xs| then None
    else if p(xs[from]) then Some(from)
    else FirstFrom(xs, p, from + 1)
  }

  /** The search finds the first element that satisfies `p`, and finds none
      only when no element does. */
  lemma {:induction false} FirstFromIsFirst<T>(xs: seq<T>, p: T -> bool, from: nat)
    ensures var r := FirstFrom(xs, p, from);
      (r.Some? ==> p(xs[r.value]) && forall j :: from <= j < r.value ==> !p(xs[j])) &&
      (r.None? ==> forall j :: from <= j < |xs| ==> !p(xs[j]))
    decreases |xs| - from
  {
    if from < |xs| && !p(xs[from]) {
      FirstFromIsFirst(xs, p, from + 1);
    }
  }

  /** `files.find(...)` with one of the filters, as an index. */
  function FirstOfKind(files: seq<TorrentFile>, kind: FileKind): (r: Option<nat>)
    ensures r.Some? ==> r.value < |files|
  {
    FirstFrom(files, f => Matches(f, kind), 0)
  }

  /** The file found is the first that matches, and none is found only when
      no file matches. */
  lemma FirstOfKindIsFirst(files: seq<TorrentFile>, kind: FileKind)
    ensures var r := FirstOfKind(files, kind);
      (r.Some? ==> Matches(files[r.value], kind) && forall j :: 0 <= j < r.value ==> !Matches(files[j], kind)) &&
      (r.None? ==> forall j :: 0 <= j < |files| ==> !Matches(files[j], kind))
  {
    FirstFromIsFirst(files, f => Matches(f, kind), 0);
  }

  /** The two video filters of the two player drafts disagree: the streamer's
      regular expression accepts `ogg`, which `isVideoFile` rejects ... */
  lemma OggOnlyStreamable()
    ensures IsStreamableVideo("clip.ogg") && !IsVideoFile("clip.ogg")
  {
    assert "clip.ogg" == "clip" + "." + "ogg";
    ExtensionOfDotted("clip", "ogg");
    LowerWithoutCapitals("ogg");
    StreamableByExtension("clip.ogg");
    OggIsNoVideoExtension();
  }

  lemma OggIsNoVideoExtension()
    ensures "ogg" !in VideoExtensions
  {
    assert forall i :: 0 <= i < |VideoExtensions| ==> VideoExtensions[i] != "ogg";
  }

  /** ... and `isVideoFile` accepts `ts` (as well as `mpg`, `mpeg`, `divx`,
      `xvid`), which the streamer's expression rejects ... */
  lemma TsOnlyVideoFile()
    ensures IsVideoFile("clip.ts") && !IsStreamableVideo("clip.ts")
  {
    assert "clip.ts" == "clip" + "." + "ts";
    ExtensionOfDotted("clip", "ts");
    LowerWithoutCapitals("ts");
    StreamableByExtension("clip.ts");
    TsIsNoStreamableExtension();
  }

  lemma TsIsNoStreamableExtension()
    ensures "ts" !in StreamableExtensions
  {
    assert forall i :: 0 <= i < |StreamableExtensions| ==> StreamableExtensions[i] != "ts";
  }

  /** ... and names with no dot at all. */
  lemma DotlessOnlyVideoFile()
    ensures IsVideoFile("MP4") && !IsStreamableVideo("MP4")
  {
    ExtensionWithoutDot("MP4");
    assert Lower("MP4") == "mp4";
    StreamableByExtension("MP4");
  }
}
