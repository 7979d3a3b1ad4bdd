/** The WebTorrent player of `js/movie-party-webtorrent.js`: the host seeds a
    file and announces its magnet URI, participants add (or reuse) the
    torrent, and both read the first video file as ranges, first the
    "ten-minute" first chunk in 1 MiB steps, then the rest in 5 MiB steps,
    then switch the video element to the full blob.

    Each `setTimeout` between two range reads is collapsed: a download runs
    to its end inside one method. The chunks pushed onto `streamingChunks`
    are modelled as the ranges they hold. */
module TenMinutePlayer {
  import opened Strings
  import opened FileTypes
  import opened RangePlan

  // ----- the info hash of a magnet URI -----

  const BtihPrefix: string := "xt=urn:btih:"

  predicate IsHexDigit(c: char) {
    '0' <= c <= '9' || 'a' <= c <= 'f' || 'A' <= c <= 'F'
  }

  /** `/xt=urn:btih:([a-fA-F0-9]{40})/` matches at position `i`. */
  predicate BtihAt(s: string, i: nat) {
    i + 52 <= |s| && s[i..i + 12] == BtihPrefix &&
    forall k :: i + 12 <= k < i + 52 ==> IsHexDigit(s[k])
  }

  /** The leftmost match at or after `from`. */
  function BtihFrom(s: string, from: nat): (r: Option<nat>)
    ensures r.Some? ==> from <= r.value && r.value + 52 <= |s|
    decreases |s| - from
  {
    if from + 52 > |s| then None
    else if BtihAt(s, from) then Some(from)
    else BtihFrom(s, from + 1)
  }

  /** `magnetURI.match(...)?.[1]`: the 40 digits after the first match. */
  function InfoHashOf(magnet: string): (r: Option<string>)
    ensures r.Some? ==> |r.value| == 40
  {
    match BtihFrom(magnet, 0)
    case None => None
    case Some(i) => Some(magnet[i + 12 .. i + 52])
  }

  lemma {:induction false} BtihFromIsLeftmost(s: string, from: nat)
    ensures var r := BtihFrom(s, from);
      (r.Some? ==> BtihAt(s, r.value) && forall j :: from <= j < r.value ==> !BtihAt(s, j)) &&
      (r.None? ==> forall j :: from <= j ==> !BtihAt(s, j))
    decreases |s| - from
  {
    if from + 52 <= |s| && !BtihAt(s, from) {
      BtihFromIsLeftmost(s, from + 1);
    }
  }

  /** The info hash is 40 hexadecimal digits taken from the leftmost match,
      and there is none exactly when nothing matches. */
  lemma InfoHashShape(magnet: string)
    ensures InfoHashOf(magnet).Some? ==>
      var h := InfoHashOf(magnet).value;
      |h| == 40 && (forall k :: 0 <= k < 40 ==> IsHexDigit(h[k])) &&
      exists i :: BtihAt(magnet, i) && magnet[i + 12 .. i + 52] == h
    ensures InfoHashOf(magnet).None? <==> forall i :: !BtihAt(magnet, i)
  {
    BtihFromIsLeftmost(magnet, 0);
    if InfoHashOf(magnet).Some? {
      var i := BtihFrom(magnet, 0).value;
      assert BtihAt(magnet, i);
    }
  }

  /** A magnet URI as WebTorrent writes it yields the hash it carries. */
  lemma MagnetInfoHash(h: string, rest: string)
    requires |h| == 40 && forall k :: 0 <= k < 40 ==> IsHexDigit(h[k])
    ensures InfoHashOf("magnet:?" + BtihPrefix + h + rest) == Some(h)
  {
    var s := "magnet:?" + BtihPrefix + h + rest;
    assert s[8..20] == BtihPrefix;
    assert forall k :: 20 <= k < 60 ==> s[k] == h[k - 20];
    assert BtihAt(s, 8);
    forall j | 0 <= j < 8
      ensures !BtihAt(s, j)
    {
      assert s[j] != 'x';
    }
    BtihFromIsLeftmost(s, 0);
    assert s[20..60] == h;
  }

  // ----- reusing a torrent -----

  /** `client.torrents.find(t => t.infoHash === infoHash)`, as an index. */
  function FindTorrent(ts: seq<Torrent>, h: string): (r: Option<nat>)
    ensures r.Some? ==> (r.value < |ts| && ts[r.value].infoHash == h &&
      forall j :: 0 <= j < r.value ==> ts[j].infoHash != h)
    ensures r.None? ==> forall j :: 0 <= j < |ts| ==> ts[j].infoHash != h
  {
    if ts == [] then None
    else if ts[0].infoHash == h then Some(0)
    else match FindTorrent(ts[1..], h)
      case None => None
      case Some(k) => Some(k + 1)
  }

  /** The torrent `connectToFirst10Minutes` streams again instead of adding
      the magnet URI. */
  function ReusedTorrent(ts: seq<Torrent>, magnet: string): (r: Option<Torrent>)
    ensures r.Some? ==> r.value in ts && InfoHashOf(magnet) == Some(r.value.infoHash)
  {
    match InfoHashOf(magnet)
    case None => None
    case Some(h) =>
      match FindTorrent(ts, h)
      case None => None
      case Some(i) => Some(ts[i])
  }

  /** A torrent is reused exactly when the magnet URI has an info hash and a
      torrent with that hash is present; the reused torrent has that hash. */
  lemma ReuseIffSameHash(ts: seq<Torrent>, magnet: string)
    ensures ReusedTorrent(ts, magnet).Some? <==>
      InfoHashOf(magnet).Some? && exists j :: 0 <= j < |ts| && ts[j].infoHash == InfoHashOf(magnet).value
    ensures ReusedTorrent(ts, magnet).Some? ==>
      ReusedTorrent(ts, magnet).value in ts && ReusedTorrent(ts, magnet).value.infoHash == InfoHashOf(magnet).value
  {
    if InfoHashOf(magnet).Some? && FindTorrent(ts, InfoHashOf(magnet).value).Some? {
      assert ts[FindTorrent(ts, InfoHashOf(magnet).value).value] in ts;
    }
  }

  // ----- peer status -----

  datatype StatusReport = StatusReport(user: string, status: string)

  /** `peersStatus` after `handlePeerStatus` has run on each report in turn. */
  function Statuses(m: map<string, string>, rs: seq<StatusReport>): (r: map<string, string>)
    ensures m.Keys <= r.Keys
    ensures forall i :: 0 <= i < |rs| ==> rs[i].user in r
  {
    if rs == [] then m
    else Statuses(m, rs[..|rs| - 1])[rs[|rs| - 1].user := rs[|rs| - 1].status]
  }

  /** The position of the last report by `u`. */
  function LastReportBy(rs: seq<StatusReport>, u: string): (r: Option<nat>)
    ensures r.Some? ==> (r.value < |rs| && rs[r.value].user == u &&
      forall j :: r.value < j < |rs| ==> rs[j].user != u)
    ensures r.None? ==> forall j :: 0 <= j < |rs| ==> rs[j].user != u
  {
    if rs == [] then None
    else if rs[|rs| - 1].user == u then Some(|rs| - 1)
    else LastReportBy(rs[..|rs| - 1], u)
  }

  /** Only the latest status per user is kept; users who never reported keep
      their old entry. */
  lemma {:induction false} StatusesKeepLatest(m: map<string, string>, rs: seq<StatusReport>, u: string)
    ensures u in Statuses(m, rs) <==> u in m || LastReportBy(rs, u).Some?
    ensures LastReportBy(rs, u).Some? ==> Statuses(m, rs)[u] == rs[LastReportBy(rs, u).value].status
    ensures LastReportBy(rs, u).None? && u in m ==> Statuses(m, rs)[u] == m[u]
  {
    if rs != [] && rs[|rs| - 1].user != u {
      var init := rs[..|rs| - 1];
      StatusesKeepLatest(m, init, u);
      if LastReportBy(init, u).Some? {
        assert rs[LastReportBy(init, u).value] == init[LastReportBy(init, u).value];
      }
    }
  }

  // ----- the player -----

  /** Messages passed to `window.sendMovieSignal`. */
  datatype Message =
    | VideoUploaded(host: string, magnetURI: string, fileName: string, fileSize: nat)
    | StopMovieParty(host: string)

  /** A value of the video element's `src`: empty, or an object URL of a blob
      made of the first `chunks` entries of `streamingChunks`. */
  datatype Source = NoSource | InstantBlob(chunks: nat) | FullBlob(chunks: nat)

  /** The instant-playback blob built while the chunks `cs` arrive, if any,
      with the playback threshold `threshold`. */
  function PlaybackSources(cs: seq<Range>, threshold: nat): seq<Source> {
    match BlobChunks(cs, threshold)
    case None => []
    case Some(k) => [InstantBlob(k)]
  }

  /** Appending one chunk adds a blob only the first time the chunks reach
      the threshold. */
  lemma PlaybackSourcesStep(cs: seq<Range>, c: Range, threshold: nat)
    ensures TotalSize(cs + [c]) == TotalSize(cs) + Size(c)
    ensures BlobChunks(cs + [c], threshold).Some? <==>
      BlobChunks(cs, threshold).Some? || TotalSize(cs) + Size(c) >= threshold
    ensures PlaybackSources(cs + [c], threshold) ==
      if BlobChunks(cs, threshold).None? && TotalSize(cs) + Size(c) >= threshold
      then PlaybackSources(cs, threshold) + [InstantBlob(|cs| + 1)]
      else PlaybackSources(cs, threshold)
  {
    BlobChunksStep(cs, c, threshold);
  }

  /** The instant-playback blob phase one builds, if any. */
  function InstantBlobs(f: nat, threshold: nat): seq<Source> {
    PlaybackSources(PhaseOne(f), threshold)
  }

  /** With the 5 MiB threshold, a first chunk of at least 5 MiB makes phase
      one set exactly one instant-playback source. */
  lemma InstantBlobBuilt(f: nat)
    requires f >= MinPlaybackSize
    ensures |InstantBlobs(f, MinPlaybackSize)| == 1 && InstantBlobs(f, MinPlaybackSize)[0].InstantBlob?
  {
    InstantPlayback(f);
  }

  class Player {
    const isHost: bool
    const userName: string
    /** `client.torrents`. */
    var torrents: seq<Torrent>
    var isVideoStreaming: bool
    var currentTorrent: Option<Torrent>
    var streamingChunks: seq<Range>
    var isBuffering: bool
    var peersStatus: map<string, string>
    /** Every value assigned to the video element's `src`, in order. */
    var sources: seq<Source>
    var sent: seq<Message>

    /** Streaming goes with a current torrent and, the download running to
        completion at once, with `src` holding the blob of all chunks; when
        not streaming there are no chunks, no buffering and no `src`. */
    ghost predicate Valid()
      reads this
    {
      (isVideoStreaming ==> currentTorrent.Some? && Src() == FullBlob(|streamingChunks|)) &&
      (!isVideoStreaming ==> streamingChunks == [] && !isBuffering && Src() == NoSource)
    }

    function Src(): Source
      reads this
    {
      if sources == [] then NoSource else sources[|sources| - 1]
    }

    constructor (isHost: bool, userName: string)
      ensures Valid()
      ensures this.isHost == isHost && this.userName == userName
      ensures torrents == [] && !isVideoStreaming && currentTorrent == None && streamingChunks == []
      ensures !isBuffering && peersStatus == map[] && sources == [] && sent == []
    {
      this.isHost := isHost;
      this.userName := userName;
      torrents := [];
      isVideoStreaming := false;
      currentTorrent := None;
      streamingChunks := [];
      isBuffering := false;
      peersStatus := map[];
      sources := [];
      sent := [];
    }

    /** `cleanupVideoElement`: empty a non-empty `src`, stop streaming and
        drop the chunks. */
    method CleanupVideoElement()
      modifies this
      ensures !isVideoStreaming && streamingChunks == [] && !isBuffering
      ensures sources == if old(Src()) != NoSource then old(sources) + [NoSource] else old(sources)
      ensures Src() == NoSource
      ensures torrents == old(torrents) && currentTorrent == old(currentTorrent)
      ensures peersStatus == old(peersStatus) && sent == old(sent)
    {
      if Src() != NoSource {
        sources := sources + [NoSource];
      }
      isVideoStreaming := false;
      streamingChunks := [];
      isBuffering := false;
    }

    /** `createInstantPlaybackBlob`: play the chunks received so far. */
    method CreateInstantPlaybackBlob()
      modifies this`sources
      ensures sources == old(sources) + [InstantBlob(|streamingChunks|)]
    {
      sources := sources + [InstantBlob(|streamingChunks|)];
    }

    /** `transitionToFullVideo`: play the blob of all chunks. */
    method TransitionToFullVideo()
      modifies this`sources, this`isBuffering
      ensures sources == old(sources) + [FullBlob(|streamingChunks|)]
      ensures !isBuffering
    {
      sources := sources + [FullBlob(|streamingChunks|)];
      isBuffering := false;
    }

    /** `startBackgroundDownload`: read `[start, start + 5 MiB]`, capped at the
        file length, until `start` reaches the length, then switch to the
        full video. */
    method StartBackgroundDownload(file: TorrentFile, startFrom: nat)
      modifies this`streamingChunks, this`sources, this`isBuffering
      ensures streamingChunks ==
        old(streamingChunks) + Deliver(BackgroundPlan(startFrom, startFrom + BackgroundChunkSize, file.length), file.length)
      ensures sources == old(sources) + [FullBlob(|streamingChunks|)]
      ensures !isBuffering
    {
      var start, end := startFrom, startFrom + BackgroundChunkSize;
      while start < file.length
        invariant start <= end
        invariant streamingChunks + Deliver(BackgroundPlan(start, end, file.length), file.length) ==
          old(streamingChunks) + Deliver(BackgroundPlan(startFrom, startFrom + BackgroundChunkSize, file.length), file.length)
        invariant sources == old(sources)
        decreases file.length - start
      {
        var actualEnd := Min(end, file.length);
        BackgroundStep(start, end, file.length);
        ghost var rest := Deliver(BackgroundPlan(actualEnd + 1, actualEnd + BackgroundChunkSize, file.length), file.length);
        var chunk := Delivered(Range(start, actualEnd), file.length);
        assert streamingChunks + ([chunk] + rest) == (streamingChunks + [chunk]) + rest;
        streamingChunks := streamingChunks + [chunk];
        start, end := actualEnd + 1, actualEnd + BackgroundChunkSize;
      }
      assert BackgroundPlan(start, end, file.length) == [];
      TransitionToFullVideo();
    }

    /** `downloadChunk` from `(0, 1 MiB)` on, with a first chunk of `f`
        bytes: read 1 MiB ranges, each capped at `f`, until the start reaches
        `f`, and build the instant-playback blob once, the first time the
        bytes received reach `threshold` (`minPlaybackSize`). Returns the
        start at which it stops. */
    method DownloadFirstChunk(file: TorrentFile, f: nat, threshold: nat) returns (stop: nat)
      requires FirstChunkBounds(f, file.length)
      modifies this`streamingChunks, this`sources
      ensures streamingChunks == PhaseOne(f) && stop == PhaseOneEnd(f)
      ensures sources == old(sources) + InstantBlobs(f, threshold)
    {
      streamingChunks := [];
      var downloadedBytes: nat := 0;
      var hasStartedPlayback := false;
      var start, end := 0, ChunkSize;
      ghost var plan := PhaseOne(f);
      ghost var n := 0;
      while start < f
        invariant start <= end && n <= |plan|
        invariant streamingChunks == plan[..n]
        invariant PhaseOnePlan(start, end, f) == plan[n..]
        invariant PhaseOneStop(start, end, f) == PhaseOneEnd(f)
        invariant downloadedBytes == TotalSize(streamingChunks)
        invariant hasStartedPlayback <==> BlobChunks(streamingChunks, threshold).Some?
        invariant sources == old(sources) + PlaybackSources(streamingChunks, threshold)
        decreases f - start
      {
        // Phase one never reads past `f`, which is inside the file, so each
        // read delivers its whole range.
        var actualEnd := Min(end, f);
        var chunk := Range(start, actualEnd);
        PhaseOneStep(plan, n, start, end, f);
        n := n + 1;
        PlaybackSourcesStep(streamingChunks, chunk, threshold);
        streamingChunks := streamingChunks + [chunk];
        downloadedBytes := downloadedBytes + Size(chunk);
        if !hasStartedPlayback && downloadedBytes >= threshold {
          hasStartedPlayback := true;
          CreateInstantPlaybackBlob();
        }
        start, end := actualEnd + 1, actualEnd + ChunkSize;
      }
      PhaseOneStep(plan, n, start, end, f);
      PhaseOneBytes(file.length, f);
      stop := start;
    }

    /** `downloadAndPlayFirst10Minutes` with a first chunk of `f` bytes, as
        the code runs it: phase one with `minPlaybackSize` at 100 MiB, which
        it never reaches, then the rest of the file from `firstChunkSize`.
        No instant blob is built, and the full blob holds the byte at
        `firstChunkSize` twice unless phase one stopped exactly there. */
    method DownloadAndPlayFirst10Minutes(file: TorrentFile, f: nat)
      requires FirstChunkBounds(f, file.length)
      modifies this`streamingChunks, this`sources, this`isBuffering
      ensures streamingChunks == DownloadAsWritten(file.length, f)
      ensures 0 < f ==> TotalSize(streamingChunks) == file.length + (PhaseOneEnd(f) - f)
      ensures sources == old(sources) + [FullBlob(|streamingChunks|)]
      ensures !isBuffering
    {
      var stop := DownloadFirstChunk(file, f, MinPlaybackSizeAsWritten);
      NoInstantPlaybackAsWritten(f);
      DownloadSplit(file.length, f);
      StartBackgroundDownload(file, f);
      if 0 < f {
        DownloadAsWrittenOverlap(file.length, f);
      }
    }

    /** The same download with both corrections: the 5 MiB threshold its
        comment names, and the background phase starting where phase one
        stopped. Every byte of the file ends up in `streamingChunks` exactly
        once, in order. */
    method DownloadAndPlayFirst10MinutesCorrected(file: TorrentFile, f: nat)
      requires FirstChunkBounds(f, file.length)
      modifies this`streamingChunks, this`sources, this`isBuffering
      ensures streamingChunks == Download(file.length, f)
      ensures Tiles(streamingChunks, 0, file.length)
      ensures sources == old(sources) + InstantBlobs(f, MinPlaybackSize) + [FullBlob(|streamingChunks|)]
      ensures f >= MinPlaybackSize ==> |sources| == |old(sources)| + 2
      ensures !isBuffering
    {
      if f >= MinPlaybackSize {
        InstantBlobBuilt(f);
      }
      var stop := DownloadFirstChunk(file, f, MinPlaybackSize);
      PhaseOneBytes(file.length, f);
      DeliverConcat(PhaseOne(f), BackgroundPlan(stop, stop + BackgroundChunkSize, file.length), file.length);
      StartBackgroundDownload(file, stop);
      DownloadCoversFile(file.length, f);
    }

    /** The state `streamFirst10Minutes(t)` leaves, from the before-values
        given: unchanged when already streaming or when no file matches the
        video expression; otherwise streaming `t`'s first matching file as the
        code downloads it, with no instant blob, and a file of at least
        256,000,000 bytes assembled one byte too long. */
    ghost predicate Streamed(t: Torrent, streaming0: bool, current0: Option<Torrent>,
                             chunks0: seq<Range>, sources0: seq<Source>, buffering0: bool)
      reads this
    {
      var i := FirstOfKind(t.files, StreamableVideo);
      if streaming0 || i.None? then
        isVideoStreaming == streaming0 && currentTorrent == current0 &&
        streamingChunks == chunks0 && sources == sources0 && isBuffering == buffering0
      else
        var length := t.files[i.value].length;
        isVideoStreaming && currentTorrent == Some(t) &&
        streamingChunks == DownloadAsWritten(length, FirstChunkSize(length)) &&
        sources == sources0 + [FullBlob(|streamingChunks|)] &&
        !isBuffering &&
        (length >= 256000000 ==> TotalSize(streamingChunks) == length + 1)
    }

    /** `streamFirst10Minutes`, with the 30% cap rounded down to a whole
        byte; its effect is `Streamed`. Also what the torrent's `metadata`
        event and the 5-second fallback run. */
    method StreamFirst10Minutes(t: Torrent)
      requires Valid()
      modifies this
      ensures Valid()
      ensures Streamed(t, old(isVideoStreaming), old(currentTorrent), old(streamingChunks), old(sources), old(isBuffering))
      ensures torrents == old(torrents) && peersStatus == old(peersStatus) && sent == old(sent)
    {
      if isVideoStreaming {
        return;
      }
      var i := FirstOfKind(t.files, StreamableVideo);
      if i.None? {
        return;
      }
      var file := t.files[i.value];
      isVideoStreaming := true;
      currentTorrent := Some(t);
      DownloadAndPlayFirst10Minutes(file, FirstChunkSize(file.length));
      if file.length >= 256000000 {
        LargeFileDuplicatesByte(file.length);
      }
    }

    /** The host's `seed` callback: stream the new torrent, then announce it. */
    method OnSeeded(t: Torrent, magnetURI: string, fileName: string, fileSize: nat)
      requires Valid() && isHost
      modifies this
      ensures Valid()
      ensures torrents == old(torrents) + [t]
      ensures sent == old(sent) + [VideoUploaded(userName, magnetURI, fileName, fileSize)]
      ensures Streamed(t, old(isVideoStreaming), old(currentTorrent), old(streamingChunks), old(sources), old(isBuffering))
      ensures peersStatus == old(peersStatus)
    {
      torrents := torrents + [t];
      StreamFirst10Minutes(t);
      sent := sent + [VideoUploaded(userName, magnetURI, fileName, fileSize)];
    }

    /** `connectToFirst10Minutes`: stream a present torrent with the magnet
        URI's info hash again; otherwise clean up and add the magnet URI,
        `added` being the torrent the client creates for it. */
    method ConnectToFirst10Minutes(magnetURI: string, added: Torrent)
      requires Valid()
      modifies this
      ensures Valid()
      ensures var r := ReusedTorrent(old(torrents), magnetURI);
        if r.Some? then
          torrents == old(torrents) &&
          Streamed(r.value, old(isVideoStreaming), old(currentTorrent), old(streamingChunks), old(sources), old(isBuffering))
        else
          torrents == old(torrents) + [added] && !isVideoStreaming && streamingChunks == [] && !isBuffering &&
          currentTorrent == old(currentTorrent) && Src() == NoSource &&
          sources == if old(Src()) != NoSource then old(sources) + [NoSource] else old(sources)
      ensures peersStatus == old(peersStatus) && sent == old(sent)
    {
      var r := ReusedTorrent(torrents, magnetURI);
      if r.Some? {
        StreamFirst10Minutes(r.value);
        return;
      }
      CleanupVideoElement();
      torrents := torrents + [added];
    }

    /** `window.handlePeerStatus`. */
    method HandlePeerStatus(report: StatusReport)
      modifies this`peersStatus
      ensures peersStatus == old(peersStatus)[report.user := report.status]
    {
      peersStatus := peersStatus[report.user := report.status];
    }

    /** `destroy`: a host with a name announces the end, then everything is
        cleaned up and the client is destroyed. */
    method Destroy()
      requires Valid()
      modifies this
      ensures Valid()
      ensures sent == old(sent) + if isHost && userName != "" then [StopMovieParty(userName)] else []
      ensures !isVideoStreaming && currentTorrent == None && streamingChunks == [] && !isBuffering
      ensures peersStatus == map[] && torrents == [] && Src() == NoSource
      ensures sources == if old(Src()) != NoSource then old(sources) + [NoSource] else old(sources)
    {
      if isHost && userName != "" {
        sent := sent + [StopMovieParty(userName)];
      }
      CleanupVideoElement();
      torrents := [];
      peersStatus := map[];
      currentTorrent := None;
      streamingChunks := [];
    }
  }
}
