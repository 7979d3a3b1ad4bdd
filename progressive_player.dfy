/** The progressive WebTorrent player (`MoviePartyPlayer`): it picks the video
    file of a torrent, grows a readable prefix of it every two seconds, relays
    the host's play/pause/seek events, and keeps participants within two
    seconds of the host.

    Times and byte counts that the source computes in floating point (the 10%
    cap, the playback position) are exact `real`s here. A `setInterval` or
    `setTimeout` callback is a method the environment calls later. */
module ProgressivePlayer {
  import opened Strings
  import opened FileTypes

  function RealMin(a: real, b: real): real { if a <= b then a else b }
  function RealMax(a: real, b: real): real { if a >= b then a else b }
  function Abs(x: real): real { if x >= 0.0 then x else -x }

  // ----- the progressive stream -----

  /** `progressiveStream`: the file it reads, `totalSize`, and the `end` of
      every `createReadStream({start: 0, end})` it asked for, in order. */
  datatype Stream = Stream(file: TorrentFile, totalSize: real, requests: seq<real>)

  /** At most 10% of the file is exposed for initial playback. */
  function Cap(file: TorrentFile): real {
    file.length as real * 0.1
  }

  function NewStream(file: TorrentFile): Stream {
    Stream(file, 0.0, [])
  }

  /** `updateProgressiveStream`, given `videoFile.downloaded`: when the capped
      amount exceeds `totalSize`, read `[0, min(amount, length) - 1]` if that
      end is positive, and raise `totalSize` to the amount. */
  function Update(s: Stream, downloaded: nat): (r: Stream)
    ensures r.file == s.file && r.totalSize >= s.totalSize && s.requests <= r.requests
  {
    var amount := RealMin(downloaded as real, Cap(s.file));
    if amount > s.totalSize then
      var endByte := RealMin(amount, s.file.length as real) - 1.0;
      Stream(s.file, amount, if endByte > 0.0 then s.requests + [endByte] else s.requests)
    else s
  }

  /** One update: `totalSize` becomes the larger of itself and the capped
      download, so it never decreases; a range is requested exactly when the
      capped amount exceeds `totalSize` and is more than one byte, and it ends
      one byte before that amount. */
  lemma UpdateRules(s: Stream, downloaded: nat)
    ensures var r := Update(s, downloaded);
      var amount := RealMin(downloaded as real, Cap(s.file));
      r.file == s.file &&
      r.totalSize == RealMax(s.totalSize, amount) &&
      (r.requests == s.requests || (amount > s.totalSize && amount > 1.0 && r.requests == s.requests + [amount - 1.0])) &&
      (amount > s.totalSize && amount > 1.0 ==> r.requests == s.requests + [amount - 1.0])
  {
  }

  /** What every stream keeps: `totalSize` within the cap, the requested ends
      strictly increasing, and each below `totalSize`. */
  predicate WellFormed(s: Stream) {
    0.0 <= s.totalSize <= Cap(s.file) &&
    (forall i, j :: 0 <= i < j < |s.requests| ==> s.requests[i] < s.requests[j]) &&
    (forall i :: 0 <= i < |s.requests| ==> 0.0 < s.requests[i] <= s.totalSize - 1.0)
  }

  lemma UpdateKeepsWellFormed(s: Stream, downloaded: nat)
    requires WellFormed(s)
    ensures WellFormed(Update(s, downloaded))
  {
  }

  /** The updates run by the interval, one per downloaded amount observed. */
  function Updates(s: Stream, observed: seq<nat>): Stream
    decreases |observed|
  {
    if observed == [] then s else Updates(Update(s, observed[0]), observed[1..])
  }

  /** Over any run of updates the stream stays well formed, `totalSize` never
      decreases, and earlier requests are never withdrawn. */
  lemma {:induction false} UpdatesMonotone(s: Stream, observed: seq<nat>)
    requires WellFormed(s)
    ensures var r := Updates(s, observed);
      WellFormed(r) && r.file == s.file && r.totalSize >= s.totalSize &&
      |s.requests| <= |r.requests| && r.requests[..|s.requests|] == s.requests
    decreases |observed|
  {
    if observed != [] {
      var next := Update(s, observed[0]);
      UpdateKeepsWellFormed(s, observed[0]);
      UpdateRules(s, observed[0]);
      UpdatesMonotone(next, observed[1..]);
      var r := Updates(next, observed[1..]);
      assert r.requests[..|s.requests|] == r.requests[..|next.requests|][..|s.requests|];
    }
  }

  // ----- the video element and the sync actions -----

  datatype Video = Video(currentTime: real, paused: bool, loaded: bool)

  /** The actions a participant applies through `applySyncAction`. */
  datatype SyncAction =
    | PlayAt(time: real)
    | PauseAt(time: real)
    | SeekTo(time: real)
    | CorrectDrift(time: real, isPlaying: bool)
    | LateJoin(time: real, isPlaying: bool)

  /** `applySyncAction`: every action puts the video at its time and leaves
      what is loaded alone. */
  function Perform(v: Video, a: SyncAction): (w: Video)
    ensures w.currentTime == a.time && w.loaded == v.loaded
  {
    match a
    case PlayAt(t) => v.(currentTime := t, paused := false)
    case PauseAt(t) => v.(currentTime := t, paused := true)
    case SeekTo(t) => v.(currentTime := t)
    case CorrectDrift(t, isPlaying) =>
      var v' := v.(currentTime := t);
      if isPlaying && v'.paused then v'.(paused := false)
      else if !isPlaying && !v'.paused then v'.(paused := true)
      else v'
    case LateJoin(t, isPlaying) => v.(currentTime := t, paused := !isPlaying)
  }

  /** A participant more than two seconds away from the host. */
  predicate Drifted(v: Video, hostTime: real): (b: bool)
    ensures b ==> v.currentTime != hostTime
  {
    Abs(v.currentTime - hostTime) > 2.0
  }

  /** A drift correction puts the participant on the host's time, in the
      host's play state, so the same heartbeat would find nothing to correct;
      it touches nothing else. */
  lemma DriftCorrection(v: Video, hostTime: real, isPlaying: bool)
    ensures var w := Perform(v, CorrectDrift(hostTime, isPlaying));
      w.currentTime == hostTime && w.paused == !isPlaying && w.loaded == v.loaded && !Drifted(w, hostTime)
  {
  }

  /** A sync signal delivered twice, as the late joiner's sync and a
      heartbeat can repeat one another, changes nothing the first delivery
      did not; and whatever came before, the latest signal alone decides the
      participant's position. */
  lemma RepeatedActionIsHarmless(v: Video, a: SyncAction, b: SyncAction)
    ensures Perform(Perform(v, a), a) == Perform(v, a)
    ensures Perform(Perform(v, a), b).currentTime == Perform(v, b).currentTime
    ensures Perform(Perform(v, a), b).loaded == v.loaded
  {
  }

  /** The late joiner's sync and a drift correction with the same host time
      and play state leave the participant in the same state. */
  lemma LateJoinIsDriftCorrection(v: Video, t: real, isPlaying: bool)
    ensures Perform(v, LateJoin(t, isPlaying)) == Perform(v, CorrectDrift(t, isPlaying))
  {
  }

  // ----- the player -----

  /** Messages passed to `window.sendMovieSignal`. */
  datatype Message =
    | VideoUploaded(host: string, magnetURI: string, fileName: string, fileSize: nat)
    | MoviePlay(currentTime: real)
    | MoviePause(currentTime: real)
    | MovieSeek(currentTime: real)
    | SyncCheck(currentTime: real, isPlaying: bool)
    | StopMovieParty(host: string)

  class Player {
    const isHost: bool
    const userName: string
    var isVideoStreaming: bool
    var currentTorrent: Option<Torrent>
    var syncInProgress: bool
    /** `setTimeout` callbacks of `applySyncAction` that have not run yet. */
    var pendingSyncResets: nat
    var progressiveStream: Option<Stream>
    var video: Video
    var subtitles: Option<TorrentFile>
    /** Whether the participant's `window.handle…` callbacks are installed. */
    var handlersInstalled: bool
    var clientAlive: bool
    var sent: seq<Message>

    /** Only participant callbacks ever call `applySyncAction`, so on the host
        `syncInProgress` stays false; a stream exists only while streaming,
        and streaming goes with a current torrent. */
    ghost predicate Valid()
      reads this
    {
      (isHost ==> !handlersInstalled && !syncInProgress && pendingSyncResets == 0) &&
      (isVideoStreaming <==> currentTorrent.Some?) &&
      (progressiveStream.Some? ==> isVideoStreaming && WellFormed(progressiveStream.value))
    }

    /** `initializeWhenReady` once WebTorrent is loaded: participants install
        their callbacks. */
    constructor (isHost: bool, userName: string)
      ensures Valid()
      ensures this.isHost == isHost && this.userName == userName
      ensures !isVideoStreaming && currentTorrent == None && !syncInProgress && progressiveStream == None
      ensures handlersInstalled == !isHost && clientAlive && sent == [] && subtitles == None
    {
      this.isHost := isHost;
      this.userName := userName;
      isVideoStreaming := false;
      currentTorrent := None;
      syncInProgress := false;
      pendingSyncResets := 0;
      progressiveStream := None;
      video := Video(0.0, true, false);
      subtitles := None;
      handlersInstalled := !isHost;
      clientAlive := true;
      sent := [];
    }

    /** `startProgressiveStreaming`: nothing when already streaming or when
        the torrent has no file `isVideoFile` accepts; otherwise stream the
        first such file and run the first update at once. */
    method StartProgressiveStreaming(t: Torrent, downloaded: nat)
      requires Valid()
      modifies this`isVideoStreaming, this`currentTorrent, this`progressiveStream
      ensures Valid()
      ensures var i := FirstOfKind(t.files, AnyVideo);
        if old(isVideoStreaming) || i.None? then
          isVideoStreaming == old(isVideoStreaming) && currentTorrent == old(currentTorrent) &&
          progressiveStream == old(progressiveStream)
        else
          isVideoStreaming && currentTorrent == Some(t) &&
          progressiveStream == Some(Update(NewStream(t.files[i.value]), downloaded))
      ensures syncInProgress == old(syncInProgress) && pendingSyncResets == old(pendingSyncResets)
      ensures video == old(video) && sent == old(sent) && handlersInstalled == old(handlersInstalled)
      ensures subtitles == old(subtitles) && clientAlive == old(clientAlive)
    {
      if isVideoStreaming {
        return;
      }
      var i := FirstOfKind(t.files, AnyVideo);
      if i.None? {
        return;
      }
      var file := t.files[i.value];
      isVideoStreaming := true;
      currentTorrent := Some(t);
      progressiveStream := Some(NewStream(file));
      UpdateProgressiveStream(downloaded);
      assert progressiveStream == Some(Update(NewStream(file), downloaded));
    }

    /** The interval's `updateProgressiveStream`. With no stream the source
        throws, catches and falls back to `getBlobURL`; here nothing changes. */
    method UpdateProgressiveStream(downloaded: nat)
      requires Valid()
      modifies this`progressiveStream
      ensures Valid()
      ensures progressiveStream == match old(progressiveStream)
        case None => None
        case Some(s) => Some(Update(s, downloaded))
    {
      match progressiveStream
      case None =>
      case Some(s) =>
        UpdateKeepsWellFormed(s, downloaded);
        progressiveStream := Some(Update(s, downloaded));
    }

    /** The host picked a file and WebTorrent seeded it as `t`: announce it
        and start streaming at once, the whole file being local. */
    method OnFileSeeded(t: Torrent, magnetURI: string, fileName: string, fileSize: nat)
      requires Valid() && isHost
      modifies this`sent, this`isVideoStreaming, this`currentTorrent, this`progressiveStream
      ensures Valid()
      ensures sent == old(sent) + [VideoUploaded(userName, magnetURI, fileName, fileSize)]
      ensures var i := FirstOfKind(t.files, AnyVideo);
        if old(isVideoStreaming) || i.None? then
          isVideoStreaming == old(isVideoStreaming) && currentTorrent == old(currentTorrent) &&
          progressiveStream == old(progressiveStream)
        else
          isVideoStreaming && currentTorrent == Some(t) &&
          progressiveStream == Some(Update(NewStream(t.files[i.value]), fileSize))
    {
      sent := sent + [VideoUploaded(userName, magnetURI, fileName, fileSize)];
      StartProgressiveStreaming(t, fileSize);
    }

    /** `handleVideoUploaded` on a participant: drop the current video before
        joining the announced torrent. */
    method HandleVideoUploaded()
      requires Valid()
      modifies this`video, this`progressiveStream, this`isVideoStreaming, this`currentTorrent
      ensures Valid()
      ensures handlersInstalled ==>
        !isVideoStreaming && currentTorrent == None && progressiveStream == None &&
        video == old(video).(currentTime := 0.0, paused := true, loaded := false)
      ensures !handlersInstalled ==>
        isVideoStreaming == old(isVideoStreaming) && currentTorrent == old(currentTorrent) &&
        progressiveStream == old(progressiveStream) && video == old(video)
      ensures sent == old(sent) && syncInProgress == old(syncInProgress) && handlersInstalled == old(handlersInstalled)
    {
      if handlersInstalled {
        CleanupVideo();
      }
    }

    /** The two-second fallback of `connectToProgressiveStream`: start with
        whatever files are known if streaming has not started yet. */
    method MetadataFallback(t: Torrent, downloaded: nat)
      requires Valid()
      modifies this`isVideoStreaming, this`currentTorrent, this`progressiveStream
      ensures Valid()
      ensures (old(isVideoStreaming) || t.files == []) ==>
        isVideoStreaming == old(isVideoStreaming) && currentTorrent == old(currentTorrent) &&
        progressiveStream == old(progressiveStream)
      ensures !old(isVideoStreaming) && t.files != [] ==>
        var i := FirstOfKind(t.files, AnyVideo);
        (i.Some? ==> isVideoStreaming && currentTorrent == Some(t) &&
                     progressiveStream == Some(Update(NewStream(t.files[i.value]), downloaded))) &&
        (i.None? ==> isVideoStreaming == old(isVideoStreaming) && currentTorrent == old(currentTorrent) &&
                     progressiveStream == old(progressiveStream))
      ensures sent == old(sent) && video == old(video)
    {
      if !isVideoStreaming && |t.files| > 0 {
        StartProgressiveStreaming(t, downloaded);
      }
    }

    /** The host's `play` listener: relay the position unless a sync action
        is being applied. */
    method OnPlay()
      requires Valid()
      modifies this`sent
      ensures sent == old(sent) + (if isHost && !syncInProgress then [MoviePlay(video.currentTime)] else [])
      ensures isHost ==> sent == old(sent) + [MoviePlay(video.currentTime)]
    {
      if isHost && !syncInProgress {
        sent := sent + [MoviePlay(video.currentTime)];
      }
    }

    /** The host's `pause` listener. */
    method OnPause()
      requires Valid()
      modifies this`sent
      ensures sent == old(sent) + (if isHost && !syncInProgress then [MoviePause(video.currentTime)] else [])
      ensures isHost ==> sent == old(sent) + [MoviePause(video.currentTime)]
    {
      if isHost && !syncInProgress {
        sent := sent + [MoviePause(video.currentTime)];
      }
    }

    /** The host's `seeked` listener. */
    method OnSeeked()
      requires Valid()
      modifies this`sent
      ensures sent == old(sent) + (if isHost && !syncInProgress then [MovieSeek(video.currentTime)] else [])
      ensures isHost ==> sent == old(sent) + [MovieSeek(video.currentTime)]
    {
      if isHost && !syncInProgress {
        sent := sent + [MovieSeek(video.currentTime)];
      }
    }

    /** The host's five-second heartbeat: only while streaming and playing,
        and then it always reports `isPlaying = true`. */
    method SyncCheckTick()
      modifies this`sent
      ensures sent == old(sent) +
        (if isHost && isVideoStreaming && !video.paused then [SyncCheck(video.currentTime, true)] else [])
    {
      if isHost && isVideoStreaming && !video.paused {
        sent := sent + [SyncCheck(video.currentTime, !video.paused)];
      }
    }

    /** `applySyncAction`: raise the guard, act, and schedule the guard's reset. */
    method ApplySyncAction(a: SyncAction)
      requires Valid() && !isHost
      modifies this`syncInProgress, this`video, this`pendingSyncResets
      ensures Valid()
      ensures syncInProgress && video == Perform(old(video), a) && pendingSyncResets == old(pendingSyncResets) + 1
    {
      syncInProgress := true;
      video := Perform(video, a);
      pendingSyncResets := pendingSyncResets + 1;
    }

    /** A reset scheduled by `applySyncAction` runs: the guard drops even if a
        later action scheduled its own reset. */
    method ClearSyncGuard()
      requires Valid() && pendingSyncResets > 0
      modifies this`syncInProgress, this`pendingSyncResets
      ensures Valid()
      ensures !syncInProgress && pendingSyncResets == old(pendingSyncResets) - 1
    {
      syncInProgress := false;
      pendingSyncResets := pendingSyncResets - 1;
    }

    /** `handleMoviePlay`, `handleMoviePause`, `handleMovieSeek` and
        `handleLateJoinerSync` on a participant: apply the host's action. */
    method HandleHostAction(a: SyncAction)
      requires Valid() && !a.CorrectDrift?
      modifies this`syncInProgress, this`video, this`pendingSyncResets
      ensures Valid()
      ensures handlersInstalled ==>
        syncInProgress && video == Perform(old(video), a) && pendingSyncResets == old(pendingSyncResets) + 1
      ensures !handlersInstalled ==>
        syncInProgress == old(syncInProgress) && video == old(video) && pendingSyncResets == old(pendingSyncResets)
    {
      if handlersInstalled {
        ApplySyncAction(a);
      }
    }

    /** `handleSyncCheck` on a participant: correct only a drift of more than
        two seconds; a smaller one changes nothing, not even the guard. */
    method HandleSyncCheck(hostTime: real, isPlaying: bool)
      requires Valid()
      modifies this`syncInProgress, this`video, this`pendingSyncResets
      ensures Valid()
      ensures handlersInstalled && Drifted(old(video), hostTime) ==>
        syncInProgress && video.currentTime == hostTime && video.paused == !isPlaying &&
        video == Perform(old(video), CorrectDrift(hostTime, isPlaying)) &&
        pendingSyncResets == old(pendingSyncResets) + 1
      ensures !(handlersInstalled && Drifted(old(video), hostTime)) ==>
        syncInProgress == old(syncInProgress) && video == old(video) && pendingSyncResets == old(pendingSyncResets)
    {
      if handlersInstalled && Abs(video.currentTime - hostTime) > 2.0 {
        DriftCorrection(video, hostTime, isPlaying);
        ApplySyncAction(CorrectDrift(hostTime, isPlaying));
      }
    }

    /** `handleSubtitles`: attach the first subtitle file of the current
        torrent, if any. */
    method HandleSubtitles()
      modifies this`subtitles
      ensures match old(currentTorrent)
        case None => subtitles == old(subtitles)
        case Some(t) =>
          var i := FirstOfKind(t.files, Subtitle);
          subtitles == if i.Some? then Some(t.files[i.value]) else old(subtitles)
    {
      match currentTorrent
      case None =>
      case Some(t) =>
        var i := FirstOfKind(t.files, Subtitle);
        if i.Some? {
          subtitles := Some(t.files[i.value]);
        }
    }

    /** `cleanupVideo`: pause and unload the video, drop the stream and the
        torrent, and stop streaming. */
    method CleanupVideo()
      requires Valid()
      modifies this`video, this`progressiveStream, this`isVideoStreaming, this`currentTorrent
      ensures Valid()
      ensures !isVideoStreaming && currentTorrent == None && progressiveStream == None
      ensures video == old(video).(currentTime := 0.0, paused := true, loaded := false)
    {
      // `load()` on the emptied element resets the playback position.
      video := video.(currentTime := 0.0, paused := true, loaded := false);
      progressiveStream := None;
      isVideoStreaming := false;
      currentTorrent := None;
    }

    /** `destroy`: a host with a name announces the end of the party; then
        clean up, drop the client and uninstall the callbacks. */
    method Destroy()
      requires Valid()
      modifies this`sent, this`video, this`progressiveStream, this`isVideoStreaming, this`currentTorrent
      modifies this`clientAlive, this`handlersInstalled
      ensures Valid()
      ensures sent == old(sent) + (if isHost && userName != [] then [StopMovieParty(userName)] else [])
      ensures !isVideoStreaming && currentTorrent == None && progressiveStream == None
      ensures !clientAlive && !handlersInstalled
      ensures video == old(video).(currentTime := 0.0, paused := true, loaded := false)
    {
      if isHost && userName != [] {
        sent := sent + [StopMovieParty(userName)];
      }
      CleanupVideo();
      clientAlive := false;
      handlersInstalled := false;
    }
  }
}
