# movie-time client core, in Dafny

This project models the browser-side logic of the movie-time meeting app:

- The WebSocket signaling client. It keeps a table of peer connections, uses
  one shared pair of `makingOffer` / `ignoreOffer` flags, and applies the
  "perfect negotiation" rules. The host is impolite and every participant is
  polite.
- Two drafts of the WebTorrent movie player (`MoviePartyPlayer`):
  - The progressive player. It grows a readable prefix of the video and keeps
    participants in sync with the host's play, pause and seek.
  - The ten-minute player. It reads a capped first chunk in 1 MiB ranges,
    then the rest of the file in 5 MiB ranges. The player class runs this
    download as the code writes it. A corrected download sits beside it, for
    the two findings below.
- The movie-party start/stop integration layer.
- The landing page: meeting-code generation and the create/join checks.

Modules:

| file | module | models |
|---|---|---|
| `strings.dfy` | `Strings` | `toLowerCase`, `toUpperCase`, `indexOf`, `replace` with a string pattern, `trim` |
| `file_types.dfy` | `FileTypes` | `isVideoFile`, `getVideoMimeType`, the subtitle and streamable-video regular expressions, `files.find` |
| `signaling.dfy` | `Signaling` | `js/signaling-websocket.js` |
| `progressive_player.dfy` | `ProgressivePlayer` | `server/signaling-server.js`, a browser player class despite its name |
| `range_plan.dfy` | `RangePlan` | the byte ranges of `js/movie-party-webtorrent.js` and the two findings below |
| `ten_minute_player.dfy` | `TenMinutePlayer` | the player class of `js/movie-party-webtorrent.js` |
| `movie_party.dfy` | `MovieParty` | `js/movie-party.js` |
| `lobby.dfy` | `Lobby` | `js/main.js` |

How the asynchronous parts are modelled:

- An `RTCPeerConnection` becomes its identity, signaling state, connection
  state, whether it has a remote description, and how many remote candidates
  it accepted. The browser rules used are those of the WebRTC 1.0
  specification:
  - a rollback is rejected in `stable`;
  - a local offer is rejected in `have-remote-offer`;
  - a candidate is rejected without a remote description.
- `createOffer` is split at its first real `await` (`CreateOffer` and
  `CompleteOffer`). This way a signal handled in between sees the raised
  `makingOffer` flag.
- Each pending `setTimeout` is an entry of a `timers` queue, run by
  `FireTimer`.
- In the ten-minute player, the chain of `setTimeout`-separated range reads
  is one `while` loop per phase, run to completion in one call. Each chunk
  pushed onto `streamingChunks` is recorded as the byte range it holds.
- Times and the 10% cap of the progressive player are exact `real`s.
- `Math.random` is an input: six indices below 36.

## Model

| member | source | states |
|---|---|---|
| Strings.Lower | server/signaling-server.js:177 | Lower-casing keeps the length and maps each character on its own: capitals A–Z become small letters, everything else stays. |
| Strings.LowerWithoutCapitals | server/signaling-server.js:177 | Text without capital letters is its own lower case. |
| Strings.Upper | js/main.js:57 | Upper-casing keeps the length and maps each character on its own: a–z become capitals, everything else stays. |
| Strings.IndexOfFrom | js/signaling-websocket.js:93 | Returns the first position at or after `from` where the pattern occurs. It returns none exactly when the pattern occurs nowhere from there. |
| Strings.ReplaceFirst | js/signaling-websocket.js:93 | Without an occurrence the string is unchanged. Otherwise only the first occurrence is replaced: the text before it is kept, the replacement stands where the pattern stood, and the text after it is kept. |
| Strings.LeadingWhitespace | js/main.js:24 | Returns the length of the longest run of JavaScript whitespace at the start. |
| Strings.TrailingWhitespace | js/main.js:24 | Returns the length of the longest run of JavaScript whitespace at the end. |
| Strings.Trim | js/main.js:24 | `trim` never lengthens the string, and a non-empty result starts and ends with a non-whitespace character (`TrimShape` gives the rest). |
| Strings.TrimShape | js/main.js:24 | `trim` gives "" exactly when the input is all whitespace. Otherwise the result starts and ends with a non-whitespace character and is a contiguous piece of the input. |
| Strings.TrimIdempotent | js/main.js:56-57 | Trimming twice is the same as trimming once. |
| Strings.TrimAround | js/main.js:57 | `trim` removes exactly the whitespace around a core that starts and ends with a non-whitespace character. |
| FileTypes.AfterLastDotShape | server/signaling-server.js:177 | `split('.').pop()` is a dot-free suffix of the name. When it is shorter than the name, a dot comes right before it. |
| FileTypes.Extension | server/signaling-server.js:177 | The extension has no dot and is never longer than the name. `AfterLastDotShape` states that it is a suffix of the lower-cased name. |
| FileTypes.IsVideoFile | server/signaling-server.js:172-179 | A predicate with no contract of its own: `VideoFileByExtension` states when it holds. |
| FileTypes.AfterLastDotOfDotted | server/signaling-server.js:177 | `split('.').pop()` of `stem.ext` is `ext` when `ext` has no dot, whatever the stem holds. |
| FileTypes.ExtensionOfDotted | server/signaling-server.js:177 | The extension of `stem.ext` is `ext` lower-cased. |
| FileTypes.ExtensionWithoutDot | server/signaling-server.js:177 | A name without a dot is its own lower-cased extension. |
| FileTypes.VideoFileByExtension | server/signaling-server.js:172-179 | `isVideoFile("stem.ext")` holds exactly when `ext`, lower-cased, is one of the 15 listed extensions. |
| FileTypes.MimeType | server/signaling-server.js:356-374 | The type is always one of the table's MIME types, `video/mp4` standing in for a missing entry. |
| FileTypes.MimeTableCoversVideoExtensions | server/signaling-server.js:356-374 | The 12 MIME keys are video extensions. The video extensions without an entry are exactly `ts`, `divx` and `xvid`. A video file gets `video/mp4` exactly when its extension is `mp4`, `ts`, `divx` or `xvid`. A known extension gets its entry, and every video file gets a table value. |
| FileTypes.DottedSuffixIsExtension | js/movie-party-webtorrent.js:216-218 | A case-insensitive `/\.(e1\|…)$/` accepts a name exactly when the name has a dot and its `split('.').pop()` extension is in the list. |
| FileTypes.SubtitleByExtension | server/signaling-server.js:659-661 | The subtitle expression accepts exactly the names with a dot whose extension is `vtt`, `srt`, `ass`, `ssa` or `sub`. |
| FileTypes.StreamableByExtension | js/movie-party-webtorrent.js:216-218 | The streamer's expression accepts exactly the names with a dot whose extension is one of its 11. Apart from `ogg`, every name it accepts also passes `isVideoFile`. |
| FileTypes.FirstFrom | server/signaling-server.js:184 | Any index found is at or after the start and inside the sequence (`FirstFromIsFirst` gives the rest). |
| FileTypes.FirstOfKind | server/signaling-server.js:184 | Any index found points into the torrent's file list (`FirstOfKindIsFirst` gives the rest). |
| FileTypes.FirstFromIsFirst | server/signaling-server.js:184 | `find` returns the first element that satisfies the test. It returns none only when no element does. |
| FileTypes.FirstOfKindIsFirst | server/signaling-server.js:184 | The file picked by a filter is the first one that matches. None is picked only when no file matches. |
| FileTypes.OggOnlyStreamable | js/movie-party-webtorrent.js:217 | `clip.ogg` passes the streamer's expression and fails `isVideoFile`. |
| FileTypes.TsOnlyVideoFile | server/signaling-server.js:173-178 | `clip.ts` passes `isVideoFile` and fails the streamer's expression. |
| FileTypes.DotlessOnlyVideoFile | server/signaling-server.js:177-178 | A file named `MP4` passes `isVideoFile` but not the streamer's expression. |
| Signaling.AddCandidate | js/signaling-websocket.js:602-605 | A candidate is added only when the signal carries one and a remote description is set. Otherwise `addIceCandidate` is rejected and the connection is unchanged. |
| Signaling.ReceiveSignal | js/signaling-websocket.js:561-609 | The signal is applied to the connection it came for: the connection keeps its identity. |
| Signaling.ImpoliteIgnoresCollision | js/signaling-websocket.js:574-579 | On a colliding offer the impolite peer sets `ignoreOffer` and returns. It does no rollback, sets no remote description, sends no answer and adds no candidate. |
| Signaling.PoliteYieldsOnCollision | js/signaling-websocket.js:580-593 | A polite peer with its own offer set rolls back, applies the offer and answers once. It ends in `stable` with a remote description, and `ignoreOffer` is cleared. |
| Signaling.PoliteDropsOfferWhileMakingOne | js/signaling-websocket.js:574-583 | A polite peer that is still making an offer is in `stable`. The rollback is rejected, the error is caught, and the offer is dropped unanswered. |
| Signaling.OfferWithoutCollision | js/signaling-websocket.js:573-593 | Without a collision, either role answers the offer and ends in `stable` with a remote description. |
| Signaling.AnswerOnlyInHaveLocalOffer | js/signaling-websocket.js:594-600 | An answer is applied only in `have-local-offer`, leading to `stable`. In any other state it is dropped, with its candidate. An answer never sends anything or changes `ignoreOffer`. |
| Signaling.AnswersOnlyOffers | js/signaling-websocket.js:570-605 | Only an offer is ever answered, and an answered offer leaves the connection in `stable`. Any change of signaling state ends in `stable`. The connection keeps its identity. |
| Signaling.GlareBetweenHostAndParticipant | js/signaling-websocket.js:573-600 | When both sides have an offer set, the host ignores the participant's offer and the participant answers. The answer brings the host to `stable`. |
| Signaling.GlareBetweenParticipants | js/signaling-websocket.js:573-600 | Two polite peers in glare both answer, and each answer then reaches a connection in `stable`, where it is dropped. |
| Signaling.WithConnection | js/signaling-websocket.js:251-522 | `createPeerConnection` returns an existing entry unchanged. Otherwise it adds a new connection with the next identity, and every other entry stays as it was. |
| Signaling.WithConnectionIdempotent | js/signaling-websocket.js:255-258 | Creating a connection twice is the same as creating it once. |
| Signaling.LocalOffer | js/signaling-websocket.js:545-546 | `setLocalDescription(offer)` succeeds exactly when the table still holds that connection and it is not in `have-remote-offer`. It then leaves the connection in `have-local-offer`. |
| Signaling.WsUrl | js/signaling-websocket.js:93 | The WebSocket URL is at most 4 characters shorter than the server URL, and never longer: each of the two rewrites shortens the scheme by 2. |
| Signaling.WsUrlOfHttps | js/signaling-websocket.js:93 | `https://rest` becomes `wss://rest` when the rest holds no `http://`. |
| Signaling.WsUrlOfHttp | js/signaling-websocket.js:93 | `http://rest` becomes `ws://rest` when the rest holds no `https://`. |
| Signaling.SignalingClient.constructor | js/signaling-websocket.js:3-11 | The host is impolite and every participant polite. The client starts with no peers, both flags false, and nothing pending or sent. |
| Signaling.SignalingClient.LocalStreamReady | js/signaling-websocket.js:526 | The local stream becomes available and nothing else changes. |
| Signaling.SignalingClient.CreatePeerConnection | js/signaling-websocket.js:251-522 | The table after the call is `WithConnection` of the one before, and the result is the table's entry. |
| Signaling.SignalingClient.CreateOffer | js/signaling-websocket.js:524-545 | The new state is `OfferMade`. Without a stream it only schedules a retry after 200 ms, leaving `makingOffer` as it was. From a non-`stable` connection it schedules a retry after 500 ms and leaves `makingOffer` false. From `stable` it raises `makingOffer` and waits for the offer. |
| Signaling.SignalingClient.CompleteOffer | js/signaling-websocket.js:545-558 | The offer is set locally and sent exactly when `LocalOffer` succeeds. Otherwise nothing is sent. `makingOffer` is false afterwards either way. |
| Signaling.SignalingClient.HandleSignal | js/signaling-websocket.js:561-609 | The table, `ignoreOffer` and the sent messages become what `WithConnection` and `ReceiveSignal` say. An answer goes to the sender exactly when `ReceiveSignal` answers. |
| Signaling.SignalingClient.OnExistingPeer | js/signaling-websocket.js:134-141 | Only a polite client schedules an offer, 100 ms later. |
| Signaling.SignalingClient.OnNewPeer | js/signaling-websocket.js:143-150 | A polite client offers at once: its new state is `OfferMade`, as after `CreateOffer`. An impolite one changes no peer, offer or timer. |
| Signaling.SignalingClient.OnRefreshPeer | js/signaling-websocket.js:152-164 | A missing peer gets an offer after 200 ms. A `failed` or `disconnected` connection is removed and re-offered after 300 ms. Any other connection is left alone. |
| Signaling.SignalingClient.OnPeerLeft | js/signaling-websocket.js:180-190 | Exactly that peer's entry is removed, and every other entry is untouched. |
| Signaling.SignalingClient.OnConnectionStateChange | js/signaling-websocket.js:462-493 | The state of that same connection is recorded. A reconnect check is scheduled only for `disconnected`, and only when the status element exists. |
| Signaling.SignalingClient.FireTimer | js/signaling-websocket.js:478-483 | The timer is removed. A delayed offer leaves `OfferMade` over the remaining timers. A reconnect check does the same only if that same connection is still `disconnected`; otherwise nothing else changes. |
| ProgressivePlayer.UpdateRules | server/signaling-server.js:231-251 | `totalSize` becomes the larger of itself and the capped download. A range `[0, amount - 1]` is requested exactly when the capped amount exceeds `totalSize` and the range's end is positive. |
| ProgressivePlayer.Update | server/signaling-server.js:231-251 | An update keeps the file, never lowers `totalSize`, and only appends to the requested ends. |
| ProgressivePlayer.UpdateKeepsWellFormed | server/signaling-server.js:231-251 | An update keeps `totalSize` within the 10% cap. It keeps the requested ends strictly increasing, each below `totalSize`. |
| ProgressivePlayer.UpdatesMonotone | server/signaling-server.js:221-223 | Over any run of interval updates, `totalSize` never decreases and earlier requests stay as they were. |
| ProgressivePlayer.Perform | server/signaling-server.js:592-643 | Every sync action puts the video at the host's time and leaves what is loaded alone. |
| ProgressivePlayer.Drifted | server/signaling-server.js:618-619 | A participant counts as drifted only when it is not at the host's time. |
| ProgressivePlayer.DriftCorrection | server/signaling-server.js:616-629 | A correction puts the participant on the host's time and in the host's play state, so the same heartbeat finds no drift. |
| ProgressivePlayer.RepeatedActionIsHarmless | server/signaling-server.js:592-643 | A sync signal applied twice changes nothing more than applying it once. Whatever came before, the latest signal alone decides the participant's position. |
| ProgressivePlayer.LateJoinIsDriftCorrection | server/signaling-server.js:616-643 | The late joiner's sync and a drift correction with the same time and play state leave the participant in the same state. |
| ProgressivePlayer.Player.constructor | server/signaling-server.js:40-49 | The player starts not streaming, with no torrent, no stream and the guard down. Only participants install the callbacks. |
| ProgressivePlayer.Player.StartProgressiveStreaming | server/signaling-server.js:181-204 | Nothing changes when already streaming or when no file passes `isVideoFile`. Otherwise the player streams the first video file and runs the first update. |
| ProgressivePlayer.Player.UpdateProgressiveStream | server/signaling-server.js:231-257 | The stream becomes `Update` of the old stream for the observed download. |
| ProgressivePlayer.Player.OnFileSeeded | server/signaling-server.js:103-116 | The host announces the torrent with its magnet URI, then streams it as `StartProgressiveStreaming` does. Only the outbox and the streaming fields change; the video, subtitles, sync guard, callbacks and client stay as they were. |
| ProgressivePlayer.Player.HandleVideoUploaded | server/signaling-server.js:123-145 | A participant drops the current video, stream and torrent before joining. The video is paused, unloaded and back at 0. Nothing else changes. Without installed callbacks (always so on a host) nothing changes at all. |
| ProgressivePlayer.Player.MetadataFallback | server/signaling-server.js:159-164 | The 2-second fallback starts streaming only when not streaming yet and the torrent lists files. With files but none passing `isVideoFile` nothing changes. Only the streaming fields can change. |
| ProgressivePlayer.Player.OnPlay | server/signaling-server.js:553-560 | The host sends exactly one `movie-play` with the current time when the guard is down, and a participant sends nothing. |
| ProgressivePlayer.Player.OnPause | server/signaling-server.js:562-569 | Same as `OnPlay`, for `movie-pause`. |
| ProgressivePlayer.Player.OnSeeked | server/signaling-server.js:571-578 | Same as `OnPlay`, for `movie-seek`. |
| ProgressivePlayer.Player.SyncCheckTick | server/signaling-server.js:581-588 | The heartbeat is sent only by the host, only while streaming and playing, and it always says `isPlaying = true`. |
| ProgressivePlayer.Player.ApplySyncAction | server/signaling-server.js:647-654 | The guard is raised, the action is applied to the video, and one guard reset is scheduled. |
| ProgressivePlayer.Player.ClearSyncGuard | server/signaling-server.js:651-653 | A scheduled reset lowers the guard, even when a later action scheduled another reset. |
| ProgressivePlayer.Player.HandleHostAction | server/signaling-server.js:592-643 | A participant applies the host's play, pause, seek or late-join action through the guard. |
| ProgressivePlayer.Player.HandleSyncCheck | server/signaling-server.js:616-630 | The participant corrects only a drift of more than 2 s, and afterwards matches the host's time and play state. Otherwise nothing changes, not even the guard. |
| ProgressivePlayer.Player.HandleSubtitles | server/signaling-server.js:656-679 | The first subtitle file of the current torrent is attached, if there is one. |
| ProgressivePlayer.Player.CleanupVideo | server/signaling-server.js:681-703 | Afterwards the player is not streaming, has no torrent and no stream. The video is paused, unloaded and back at time 0. |
| ProgressivePlayer.Player.Destroy | server/signaling-server.js:705-730 | A host with a name announces the end. Then the player cleans up, drops the client and uninstalls the window callbacks. The sync guard, pending resets and subtitles stay as they were. The element listeners stay too (see Left out). |
| RangePlan.FirstChunkSize | js/movie-party-webtorrent.js:241-247 | The first chunk is at most 76,800,000 bytes, at most 30% of the file and at most 100 MiB. It equals one of those three caps (30% rounded down). |
| RangePlan.FirstChunkSizeIsLargest | js/movie-party-webtorrent.js:246-247 | It is the largest whole byte count within the caps. The 100 MiB cap never decides. |
| RangePlan.FirstChunkInsideFile | js/movie-party-webtorrent.js:246 | Within the caps, the first chunk is shorter than a non-empty file. |
| RangePlan.PhaseOneShape | js/movie-party-webtorrent.js:259-295 | Phase-one ranges are non-empty and contiguous, each starting one byte after the previous end. None ends past `firstChunkSize`. The loop stops at the first `start >= firstChunkSize`, at `f` or `f + 1`. |
| RangePlan.BackgroundShape | js/movie-party-webtorrent.js:404-427 | Background ranges never end past the file length. What they deliver covers every byte from `start` to the end of the file, once and in order. |
| RangePlan.PhaseOneStep | js/movie-party-webtorrent.js:259-286 | One `downloadChunk` call reads `[start, min(end, f)]` and continues at `actualEnd + 1`, or it hands over once `start >= f`. |
| RangePlan.BackgroundStep | js/movie-party-webtorrent.js:404-419 | One `downloadBackground` call delivers `[start, min(end, length)]` and continues at `actualEnd + 1`. |
| RangePlan.PhaseOneBytes | js/movie-party-webtorrent.js:252-286 | Phase one reads `[0, PhaseOneEnd)` inside the file. `downloadedBytes` reaches `PhaseOneEnd`, which is at most `f + 1`. |
| RangePlan.DownloadAsWritten | js/movie-party-webtorrent.js:237-296 | A function with no contract of its own: `DownloadSplit`, `DownloadAsWrittenOverlap` and `LargeFileDuplicatesByte` state what it holds. |
| RangePlan.Download | js/movie-party-webtorrent.js:259-262 | A function with no contract of its own: `DownloadSplit` and `DownloadCoversFile` state that it holds every byte once, in order. |
| RangePlan.DownloadCoversFile | js/movie-party-webtorrent.js:259-262 | When the background starts where phase one stopped, the chunks hold every byte of the file once and in order, so the full blob has the file's length. |
| RangePlan.DownloadAsWrittenOverlap | js/movie-party-webtorrent.js:260-262 | As written, the background restarts at `firstChunkSize`. The assembled video is longer than the file by `PhaseOneEnd - f` bytes. |
| RangePlan.PhaseOneStopAligned | js/movie-party-webtorrent.js:266-286 | After the first range, every start is one byte past a multiple of 1 MiB. Phase one stops at `f` only when `f` is such a start, and at `f + 1` otherwise. |
| RangePlan.PhaseOneEndValue | js/movie-party-webtorrent.js:259-295 | Gives where phase one stops, in closed form. |
| RangePlan.DuplicatedByteExample | js/movie-party-webtorrent.js:262 | For a 100-byte file with a 30-byte first chunk, the chunks read are `[0,30]` and `[30,99]`, 101 bytes. |
| RangePlan.LargeFileDuplicatesByte | js/movie-party-webtorrent.js:241-262 | Every file of at least 256,000,000 bytes is assembled one byte too long. |
| RangePlan.BlobChunks | js/movie-party-webtorrent.js:270-282 | A blob, when built, holds between one and all of the chunks (`BlobChunksFirstCrossing` gives which). |
| RangePlan.BlobChunksFirstCrossing | js/movie-party-webtorrent.js:270-282 | The playback blob is built once: at the first chunk whose running total reaches the threshold, and never if the total stays below it. |
| RangePlan.BlobChunksStep | js/movie-party-webtorrent.js:270-282 | Appending a chunk adds its size to `downloadedBytes`. An existing blob is kept; otherwise the blob is built when the threshold is now reached. |
| RangePlan.NoInstantPlaybackAsWritten | js/movie-party-webtorrent.js:257 | With `minPlaybackSize` at 100 MiB, phase one never builds the instant-playback blob, for any file. |
| RangePlan.InstantPlayback | js/movie-party-webtorrent.js:257-282 | With 5 MiB, a first chunk of at least 5 MiB builds the blob during phase one. |
| RangePlan.LargeFilesReachThreshold | js/movie-party-webtorrent.js:246-257 | Every file of at least 20 MiB gets a first chunk of at least 5 MiB. |
| TenMinutePlayer.BtihFrom | js/movie-party-webtorrent.js:166 | Any match found is at or after `from` and fits in the string. |
| TenMinutePlayer.BtihFromIsLeftmost | js/movie-party-webtorrent.js:166 | The match found is the leftmost one. None is found only when nothing matches. |
| TenMinutePlayer.InfoHashOf | js/movie-party-webtorrent.js:166 | An extracted hash has 40 characters (`InfoHashShape` gives the rest). |
| TenMinutePlayer.InfoHashShape | js/movie-party-webtorrent.js:166 | The extracted hash is 40 hex digits that follow some `xt=urn:btih:`. There is no hash exactly when nothing matches. |
| TenMinutePlayer.MagnetInfoHash | js/movie-party-webtorrent.js:166 | `magnet:?xt=urn:btih:<40 hex>…` yields those 40 digits. |
| TenMinutePlayer.FindTorrent | js/movie-party-webtorrent.js:168 | Returns the first torrent whose `infoHash` equals the hash, and none only when no torrent has it. |
| TenMinutePlayer.ReusedTorrent | js/movie-party-webtorrent.js:166-173 | A reused torrent is one of the client's torrents, and its `infoHash` is the magnet URI's hash. |
| TenMinutePlayer.ReuseIffSameHash | js/movie-party-webtorrent.js:166-173 | A torrent is reused exactly when the magnet URI has a hash and a present torrent has that `infoHash`. The reused torrent has it. |
| TenMinutePlayer.LastReportBy | js/movie-party-webtorrent.js:629-630 | Gives the position of a user's last report, and none when the user never reported. |
| TenMinutePlayer.Statuses | js/movie-party-webtorrent.js:629-632 | After the reports, every old key is still there and every reporting user has an entry. |
| TenMinutePlayer.StatusesKeepLatest | js/movie-party-webtorrent.js:629-632 | `peersStatus` keeps only each user's latest status. Users who never reported keep their old entry. |
| TenMinutePlayer.PlaybackSourcesStep | js/movie-party-webtorrent.js:270-282 | A received chunk adds an instant-playback source only the first time the running total reaches the threshold; afterwards the sources stay as they were. |
| TenMinutePlayer.InstantBlobBuilt | js/movie-party-webtorrent.js:257-282 | With the 5 MiB threshold, a first chunk of at least 5 MiB makes phase one set exactly one instant-playback source. |
| TenMinutePlayer.Player.constructor | js/movie-party-webtorrent.js:44-53 | The player starts not streaming, with no chunks, no statuses and no source, and `Valid` holds: while streaming there is a current torrent and `src` is the full blob of all chunks; otherwise there are no chunks, no buffering and no `src`. |
| TenMinutePlayer.Player.CleanupVideoElement | js/movie-party-webtorrent.js:487-505 | Afterwards the player is not streaming, `streamingChunks` is empty, `isBuffering` is false and `src` is empty. A non-empty `src` is cleared once. |
| TenMinutePlayer.Player.CreateInstantPlaybackBlob | js/movie-party-webtorrent.js:298-320 | `src` becomes the blob of the chunks received so far. |
| TenMinutePlayer.Player.TransitionToFullVideo | js/movie-party-webtorrent.js:430-452 | `src` becomes the blob of all chunks, and buffering ends. |
| TenMinutePlayer.Player.StartBackgroundDownload | js/movie-party-webtorrent.js:397-428 | Appends exactly the delivered background ranges from `startFrom`, then switches to the full blob. |
| TenMinutePlayer.Player.DownloadFirstChunk | js/movie-party-webtorrent.js:251-295 | `streamingChunks` becomes exactly the phase-one ranges. The instant blob is built at most once, for the threshold passed in, as `BlobChunks` says. It returns where phase one stopped. |
| TenMinutePlayer.Player.DownloadAndPlayFirst10Minutes | js/movie-party-webtorrent.js:237-296 | As the code runs it, the chunks are `DownloadAsWritten`. For a non-empty first chunk they hold `PhaseOneEnd(f) - f` bytes more than the file. No instant blob is built: the only source set is the full blob. Buffering ends. |
| TenMinutePlayer.Player.DownloadAndPlayFirst10MinutesCorrected | js/movie-party-webtorrent.js:257-262 | With the 5 MiB threshold and the background starting where phase one stopped, the chunks hold every byte of the file once and in order. The sources are the instant blob, if any, then the full blob. A first chunk of at least 5 MiB sets both. |
| TenMinutePlayer.Player.StreamFirst10Minutes | js/movie-party-webtorrent.js:208-235 | The new state is `Streamed`: nothing changes when already streaming or when no file passes the streamer's expression. Otherwise the player streams the first such file as the code does: no instant blob, and a file of at least 256,000,000 bytes is assembled one byte too long. |
| TenMinutePlayer.Player.OnSeeded | js/movie-party-webtorrent.js:123-136 | The host keeps the torrent and announces it with its magnet URI. It streams the torrent unless already streaming: the state is `Streamed`, as after `StreamFirst10Minutes`, so a host that streamed once announces a second file without playing it. |
| TenMinutePlayer.Player.ConnectToFirst10Minutes | js/movie-party-webtorrent.js:164-206 | A present torrent with the magnet's hash is streamed again and nothing is added: the state is `Streamed` for that torrent, so nothing changes while already streaming. Otherwise the video element is cleaned up, as `CleanupVideoElement` states, and the magnet's torrent is added. |
| TenMinutePlayer.Player.HandlePeerStatus | js/movie-party-webtorrent.js:629-632 | The reporting user's status is overwritten, and every other entry stays. |
| TenMinutePlayer.Player.Destroy | js/movie-party-webtorrent.js:635-667 | A host with a name announces the end. Afterwards `peersStatus`, `streamingChunks` and the torrents are empty, there is no current torrent, and a non-empty `src` has been emptied once. |
| MovieParty.LabelFor | js/movie-party.js:167-173 | The label reads "Stop" exactly when the party is active, and "Start" exactly when it is not. |
| MovieParty.Integration.constructor | js/movie-party.js:16-53 | A player is created when the class is loaded. Only a host gets a visible button with the toggle listener. |
| MovieParty.Integration.UpdateMoviePartyButton | js/movie-party.js:160-174 | Without the button or its label span nothing changes. Otherwise the label matches the active state. |
| MovieParty.Integration.StartMovieParty | js/movie-party.js:63-109 | The new state is `Started`. A missing player is recreated. When the class is unavailable the call returns with nothing changed. Otherwise the section is shown, the party becomes active, the label reads Stop, and a host's file picker opens once. |
| MovieParty.Integration.StopMovieParty | js/movie-party.js:120-158 | The new state is `Stopped`: the player is destroyed, if any, and set to null. The section is hidden, the party becomes inactive, and the label reads Start. Nothing else changes. |
| MovieParty.Integration.HandleMoviePartyToggle | js/movie-party.js:55-61 | Toggling an active party leaves the state `Stopped`, and an inactive one `Started`, as the two calls do. So an inactive party becomes active when a player exists or can be made. |
| MovieParty.Integration.HandleMoviePartyEnded | js/movie-party.js:177-183 | A participant's state becomes `Stopped`, as after `StopMovieParty`. A host's state is unchanged in every field. |
| Lobby.IndexOfCodeChar | js/main.js:4 | Every code character is at some position of the 36-character alphabet. |
| Lobby.AlphabetShape | js/main.js:4 | The alphabet is A–Z then 0–9: 36 distinct characters. |
| Lobby.CodeOf | js/main.js:6-8 | The code has one character per pick, each the alphabet character at that index. |
| Lobby.PicksOf | js/main.js:4-8 | Every code over the alphabet is spelt by some picks. |
| Lobby.CodeRoundTrip | js/main.js:4-8 | Different picks give different codes: `PicksOf(CodeOf(p)) == p`. |
| Lobby.PicksRoundTrip | js/main.js:4-8 | `CodeOf(PicksOf(c)) == c`. |
| Lobby.GenerateMeetingCode | js/main.js:2-11 | The loop returns exactly 6 characters from A–Z0–9, namely `CodeOf(picks)`. |
| Lobby.TypedCodeJoinsSameMeeting | js/main.js:57 | A generated code typed back in lower case, with surrounding whitespace, is normalised to the same code. |
| Lobby.JoinOutcomeOf | js/main.js:56-79 | The name is checked before the code. A blank name stops the join, then a blank code does. Otherwise the trimmed name and the trimmed, upper-cased code are used. |
| Lobby.Page.OnCreateClick | js/main.js:21-51 | A blank name stores nothing and does not navigate. Otherwise the name and `isHost = "true"` are stored and the page goes to `/meeting?code=<code>`. |
| Lobby.Page.OnJoinClick | js/main.js:53-92 | A blank name or blank code stores nothing and does not navigate. Otherwise the name and `isHost = "false"` are stored and the page goes to `/meeting?code=<CODE>`. |

## Left out

- Strings.Lower: `toLowerCase` is modelled for ASCII letters only. Non-ASCII case mappings are not modelled.
- Strings.Upper: `toUpperCase` is modelled for ASCII letters only.
- TenMinutePlayer.Player.StreamFirst10Minutes: the code computes `videoFile.length * 0.3` in floating point. The model uses 30% rounded down to a whole byte. `DownloadAndPlayFirst10Minutes` itself accepts any whole `f` within the three caps.
- TenMinutePlayer.Player.DownloadAndPlayFirst10Minutes: the chain of range reads runs to completion in one call. In the code nothing cancels it: after a `cleanupVideoElement` or a new `connectToFirst10Minutes` mid-download, the old chain keeps appending to the new `streamingChunks` and a second chain can interleave with it. The model does not capture that interleaving. Its `Destroy`, `ConnectToFirst10Minutes` and `CleanupVideoElement` contracts, and the tiling proved for the corrected download, hold only because the chain is atomic here.
- TenMinutePlayer.Player.StartBackgroundDownload: atomic and never cancelled, in the same way as the line above.
- TenMinutePlayer.Player.DownloadFirstChunk: each range read is one pushed chunk. The code may receive one range as several `data` events; that changes the number of chunks but not the bytes. Read errors (which stop the chain) are not modelled.
- TenMinutePlayer.Player.ConnectToFirst10Minutes: the `metadata` event and the 5-second fallback are later calls of `StreamFirst10Minutes`. The `catch` around `client.add` is not modelled.
- TenMinutePlayer.Player.TransitionToFullVideo: the playback position is not modelled. The ten-minute player's video element is reduced to its `src`.
- ProgressivePlayer.Player.UpdateProgressiveStream: with no stream the code throws, catches and schedules `fallbackToSimpleStream`. Here nothing changes. `fallbackToSimpleStream` and `getBlobURL` are not part of this model.
- ProgressivePlayer.Player.HandleVideoUploaded: the torrent that `client.add` creates is not tracked. `StartProgressiveStreaming` and `MetadataFallback` are its later events.
- ProgressivePlayer.Perform: the video element is exact. Setting `currentTime` is taken as given, although the element clamps it to what is loaded, and the participant's blob holds at most 10% of the file. `play()` always succeeds, although the autoplay policy can reject it and leave the video paused. The re-seek and replay of `updateVideoSource` are not modelled.
- ProgressivePlayer.DriftCorrection: "no drift afterwards" holds because `Perform` is exact. A host time past the participant's loaded part would stay drifted in the browser.
- ProgressivePlayer.Player.HandleSyncCheck: matches the host's time and play state only under the exact video element of `Perform`.
- ProgressivePlayer.Player.CleanupVideo: the time is reset to 0, as `load()` on an emptied element does; `readyState` and the other media attributes are not modelled.
- ProgressivePlayer.Player.Destroy: `destroy` nulls only the `window.handle*` callbacks. The host's `play`, `pause` and `seeked` listeners (server/signaling-server.js:553-578), the file input's `change` listener (server/signaling-server.js:89-117) and the 5-second heartbeat interval (server/signaling-server.js:581-588) stay installed, and the model does not track them. `startMovieParty` (js/movie-party.js:67-74) builds a new player on the same elements, so after k stop/start cycles each host event is sent k+1 times. A later file pick also runs the old `change` listener, which throws on its nulled client.
- ProgressivePlayer.Player.HandleSubtitles: the code reaches it only through `fallbackToSimpleStream` and `setupVideoPlayback`, which are not part of this model, so nothing in the modelled flow calls it. Its `getBlobURL` error path, and the extra `<track>` each call appends, are not modelled.
- FileTypes.MimeType: the code looks the extension up in an object literal. A name whose extension is an inherited property (`constructor`, `__proto__`) gets that property, where the model gives `video/mp4`. The only caller passes names that pass `isVideoFile`, where the two agree.
- Strings.IndexOfFrom: for an empty pattern and a start past the end, JavaScript answers the length and the model answers none. Only non-empty patterns are searched for.
- Signaling.SignalingClient.HandleSignal: its `await`s are collapsed into one step, so another event cannot run in between.
- Signaling.SignalingClient.CreateOffer: a rejected `pc.createOffer()` is not modelled.
- `createReadStream` is assumed to clamp an `end` past the file to the last byte, as `Delivered` states. WebTorrent is a foreign library.
- Blob and object URLs become `Source` values. Seeding, adding and peer transfer are not modelled, since they belong to WebTorrent.
- `setTimeout` and `setInterval` delays are not modelled as time. A callback becomes a queued step (`timers`, `ClearSyncGuard`, the interval's `UpdateProgressiveStream`), or a loop iteration in the range downloads.
- DOM and UI are not modelled: status banners, show/hide, participant control bars, the play button, the mobile handler, `alert`, button effects, the `waiting`/`playing` listeners of `setupSeamlessTransition`, and `startInstantVideoPlayback`.
- Progress percentages and the 80%-of-duration buffering check are floating-point displays, and are not modelled.
- The ten-minute file's `setupPlaybackSync`, participant controls, peer-status reporting listeners and `handleSubtitles` are not modelled. The progressive player's sync and subtitle logic is modelled instead.
- WebRTC internals are not modelled: SDP and ICE contents, the TURN connectivity test, audio constraints and encodings, remote audio, ICE restart, and the outgoing candidate messages.
- ProgressivePlayer.Player.HandleSyncCheck: `handleWebSocketMessage` (js/signaling-websocket.js:133-245) has no case for `sync-check`, `late-joiner-sync` or `peer-status`. So `HandleSyncCheck`, the late-join action of `HandleHostAction` and `TenMinutePlayer.Player.HandlePeerStatus` model callbacks that nothing in the code shown reaches. They are modelled as the callbacks are written.
- In `handleWebSocketMessage`, only the peer cases are modelled. The emoji, mic status and movie messages are forwarded to other files, and `addParticipant` is DOM.
- The WebSocket connection itself (the `join` message on open, errors, close) and the server health check are not modelled.
- js/config.js is not part of this model. It is a hostname-to-URL lookup.
- `Math.random` is an input: the six picks.

## Findings

| source | as written | input that shows it | evidently intended | confidence | as-written member | corrected member |
|---|---|---|---|---|---|---|
| js/movie-party-webtorrent.js:257 | `minPlaybackSize = 100 * 1024 * 1024`, while phase one reads at most `firstChunkSize + 1 <= 76,800,001` bytes | any file, e.g. a 300,000,000-byte file: phase one delivers 76,800,001 bytes, below 104,857,600, so `createInstantPlaybackBlob` is never called | 5 MiB, as the comment "Start playback after 5MB" says, so that playback starts during phase one | high; not executed | RangePlan.NoInstantPlaybackAsWritten | RangePlan.InstantPlayback |
| js/movie-party-webtorrent.js:262 | phase one ends with the range `[.., firstChunkSize]` (inclusive), and the background phase then starts again at `firstChunkSize` | a 300,000,000-byte file: `firstChunkSize` is 76,800,000 and phase one reads up to byte 76,800,000. The background phase reads byte 76,800,000 again, so the full blob has 300,000,001 bytes with one byte duplicated | start the background phase where phase one stopped, so each byte is appended once | high; not executed | RangePlan.LargeFileDuplicatesByte | RangePlan.DownloadCoversFile |
