/** The byte ranges the ten-minute streamer asks WebTorrent for: the capped
    first chunk read in 1 MiB steps, then the rest of the file in 5 MiB steps,
    and the playback threshold checked while the first phase runs.

    A range `Range(first, last)` is inclusive at both ends, as the `start` and
    `end` options of `createReadStream` are. A read of `[first, last]` from a
    file of `length` bytes delivers the bytes `first .. min(last, length - 1)`. */
module RangePlan {
  import opened Strings

  function Min(a: int, b: int): int { if a <= b then a else b }

  /** 1000 kbit/s for 600 s, in bytes: `(1000 * 600 * 1024) / 8`. */
  const EstimatedFirst10MinutesSize: nat := 76800000
  const MaxFirstChunkSize: nat := 100 * 1024 * 1024
  const ChunkSize: nat := 1024 * 1024
  const BackgroundChunkSize: nat := 5 * 1024 * 1024
  /** `minPlaybackSize` as the code sets it. */
  const MinPlaybackSizeAsWritten: nat := 100 * 1024 * 1024
  /** `minPlaybackSize` as its comment describes it ("after 5MB"). */
  const MinPlaybackSize: nat := 5 * 1024 * 1024

  datatype Range = Range(first: int, last: int)

  /** What the code asks of `firstChunkSize`: at most the ten-minute
      estimate, 30% of the file and 100 MiB. The code computes the minimum as
      a floating-point value; the model takes any whole byte count within
      those limits. */
  predicate FirstChunkBounds(f: nat, length: nat) {
    f <= EstimatedFirst10MinutesSize && 10 * f <= 3 * length && f <= MaxFirstChunkSize
  }

  /** The minimum of the three caps, with 30% of the file rounded down to a
      whole byte. */
  function FirstChunkSize(length: nat): (f: nat)
    ensures FirstChunkBounds(f, length)
    ensures f == EstimatedFirst10MinutesSize || f == MaxFirstChunkSize || f == 3 * length / 10
  {
    Min(Min(EstimatedFirst10MinutesSize, 3 * length / 10), MaxFirstChunkSize)
  }

  /** `FirstChunkSize` is the largest whole byte count within the caps, and
      the 100 MiB cap never decides anything: the estimate is below it. */
  lemma FirstChunkSizeIsLargest(length: nat, g: nat)
    requires FirstChunkBounds(g, length)
    ensures g <= FirstChunkSize(length)
    ensures FirstChunkSize(length) == Min(EstimatedFirst10MinutesSize, 3 * length / 10)
  {
  }

  /** Within the caps the first chunk is shorter than a non-empty file and
      empty for an empty one. */
  lemma FirstChunkInsideFile(f: nat, length: nat)
    requires FirstChunkBounds(f, length)
    ensures length > 0 ==> f < length
    ensures length == 0 ==> f == 0
  {
  }

  /** `downloadChunk(start, end)`: the ranges it reads before it hands over to
      the background phase. */
  function PhaseOnePlan(start: nat, end: nat, f: nat): seq<Range>
    requires start <= end
    decreases f - start
  {
    if start >= f then []
    else
      var actualEnd := Min(end, f);
      [Range(start, actualEnd)] + PhaseOnePlan(actualEnd + 1, actualEnd + ChunkSize, f)
  }

  /** The `start` with which `downloadChunk` last runs, the one that ends phase one. */
  function PhaseOneStop(start: nat, end: nat, f: nat): nat
    requires start <= end
    decreases f - start
  {
    if start >= f then start
    else
      var actualEnd := Min(end, f);
      PhaseOneStop(actualEnd + 1, actualEnd + ChunkSize, f)
  }

  /** `downloadBackground(start, end)`: the ranges it reads before it switches
      to the full video. */
  function BackgroundPlan(start: nat, end: nat, length: nat): seq<Range>
    requires start <= end
    decreases length - start
  {
    if start >= length then []
    else
      var actualEnd := Min(end, length);
      [Range(start, actualEnd)] + BackgroundPlan(actualEnd + 1, actualEnd + BackgroundChunkSize, length)
  }

  /** What a read of `r` delivers from a file of `length` bytes. */
  function Delivered(r: Range, length: nat): Range {
    Range(r.first, Min(r.last, length - 1))
  }

  function Deliver(rs: seq<Range>, length: nat): (ds: seq<Range>)
    ensures |ds| == |rs|
    ensures forall k :: 0 <= k < |rs| ==> ds[k] == Delivered(rs[k], length)
  {
    if rs == [] then [] else [Delivered(rs[0], length)] + Deliver(rs[1..], length)
  }

  function Size(r: Range): nat {
    if r.first <= r.last then r.last - r.first + 1 else 0
  }

  /** The number of bytes in a list of chunks, summed from the back as the
      chunks are appended. */
  function TotalSize(rs: seq<Range>): nat {
    if rs == [] then 0 else TotalSize(rs[..|rs| - 1]) + Size(rs[|rs| - 1])
  }

  /** `rs` reads every byte of `[from, to)` exactly once, in order. */
  predicate Tiles(rs: seq<Range>, from: int, to: int)
    decreases |rs|
  {
    if rs == [] then from == to
    else rs[0].first == from && rs[0].first <= rs[0].last && Tiles(rs[1..], rs[0].last + 1, to)
  }

  // ----- the first phase -----

  /** Phase one's ranges are non-empty, contiguous (each starts one byte after
      the previous one ends), never end past the first chunk size, and the loop
      stops at the first `start >= f`, which is `f` or `f + 1`. */
  lemma {:induction false} PhaseOneShape(start: nat, end: nat, f: nat)
    requires start <= end
    ensures Tiles(PhaseOnePlan(start, end, f), start, PhaseOneStop(start, end, f))
    ensures forall k :: 0 <= k < |PhaseOnePlan(start, end, f)| ==> PhaseOnePlan(start, end, f)[k].last <= f
    ensures start >= f ==> PhaseOneStop(start, end, f) == start
    ensures start < f ==> f <= PhaseOneStop(start, end, f) <= f + 1
    decreases f - start
  {
    if start < f {
      var actualEnd := Min(end, f);
      PhaseOneShape(actualEnd + 1, actualEnd + ChunkSize, f);
    }
  }

  // ----- the background phase -----

  /** Background ranges are contiguous, never end past the file length, and
      what they deliver is every byte from `start` to the end of the file. */
  lemma {:induction false} BackgroundShape(start: nat, end: nat, length: nat)
    requires start <= end && start <= length
    ensures forall k :: 0 <= k < |BackgroundPlan(start, end, length)| ==> BackgroundPlan(start, end, length)[k].last <= length
    ensures Tiles(Deliver(BackgroundPlan(start, end, length), length), start, length)
    decreases length - start
  {
    if start < length {
      var actualEnd := Min(end, length);
      if actualEnd + 1 < length {
        BackgroundShape(actualEnd + 1, actualEnd + BackgroundChunkSize, length);
      } else {
        assert BackgroundPlan(actualEnd + 1, actualEnd + BackgroundChunkSize, length) == [];
      }
      var rest := BackgroundPlan(actualEnd + 1, actualEnd + BackgroundChunkSize, length);
      assert Deliver(BackgroundPlan(start, end, length), length)[1..] == Deliver(rest, length);
    }
  }

  /** One step of the phase-one loop over the ranges still to read, and its
      exit. */
  lemma PhaseOneStep(plan: seq<Range>, n: nat, start: nat, end: nat, f: nat)
    requires start <= end && n <= |plan| && PhaseOnePlan(start, end, f) == plan[n..]
    ensures var actualEnd := Min(end, f);
      if start < f then
        n < |plan| && plan[n] == Range(start, actualEnd) && plan[..n + 1] == plan[..n] + [plan[n]] &&
        PhaseOnePlan(actualEnd + 1, actualEnd + ChunkSize, f) == plan[n + 1..] &&
        PhaseOneStop(start, end, f) == PhaseOneStop(actualEnd + 1, actualEnd + ChunkSize, f)
      else
        n == |plan| && plan[..n] == plan && PhaseOneStop(start, end, f) == start
  {
    if start < f {
      assert plan[n..][1..] == plan[n + 1..];
    }
  }

  /** One step of the background loop: the first range read, then the rest. */
  lemma BackgroundStep(start: nat, end: nat, length: nat)
    requires start <= end && start < length
    ensures var actualEnd := Min(end, length);
      Deliver(BackgroundPlan(start, end, length), length) ==
        [Delivered(Range(start, actualEnd), length)] + Deliver(BackgroundPlan(actualEnd + 1, actualEnd + BackgroundChunkSize, length), length)
  {
    var actualEnd := Min(end, length);
    DeliverConcat([Range(start, actualEnd)], BackgroundPlan(actualEnd + 1, actualEnd + BackgroundChunkSize, length), length);
  }

  // ----- sizes -----

  lemma {:induction false} TotalSizeAppend(a: seq<Range>, b: seq<Range>)
    ensures TotalSize(a + b) == TotalSize(a) + TotalSize(b)
    decreases |b|
  {
    if b == [] {
      assert a + b == a;
    } else {
      assert (a + b)[..|a + b| - 1] == a + b[..|b| - 1];
      assert (a + b)[|a + b| - 1] == b[|b| - 1];
      TotalSizeAppend(a, b[..|b| - 1]);
    }
  }

  /** Chunks that tile `[from, to)` hold `to - from` bytes. */
  lemma {:induction false} TilesSize(rs: seq<Range>, from: int, to: int)
    requires Tiles(rs, from, to)
    ensures from <= to && TotalSize(rs) == to - from
    decreases |rs|
  {
    if rs != [] {
      TilesSize(rs[1..], rs[0].last + 1, to);
      TotalSizeAppend([rs[0]], rs[1..]);
      assert [rs[0]] + rs[1..] == rs;
      assert TotalSize([rs[0]]) == TotalSize([]) + Size(rs[0]);
    }
  }

  lemma {:induction false} TilesAppend(a: seq<Range>, b: seq<Range>, from: int, mid: int, to: int)
    requires Tiles(a, from, mid) && Tiles(b, mid, to)
    ensures Tiles(a + b, from, to)
    decreases |a|
  {
    if a == [] {
      assert a + b == b;
    } else {
      TilesAppend(a[1..], b, a[0].last + 1, mid, to);
      assert (a + b)[0] == a[0];
      assert (a + b)[1..] == a[1..] + b;
    }
  }

  /** Ranges that end inside the file are delivered whole. */
  lemma DeliverInside(rs: seq<Range>, length: nat)
    requires forall k :: 0 <= k < |rs| ==> rs[k].last < length
    ensures Deliver(rs, length) == rs
  {
  }

  // ----- the whole download -----

  /** The ranges of phase one for a first chunk of `f` bytes. */
  function PhaseOne(f: nat): seq<Range> {
    PhaseOnePlan(0, ChunkSize, f)
  }

  /** The `start` at which phase one hands over to the background phase. */
  function PhaseOneEnd(f: nat): nat {
    PhaseOneStop(0, ChunkSize, f)
  }

  /** The chunks appended to `streamingChunks` when the background phase
      starts at `firstChunkSize`, as the code does. */
  function DownloadAsWritten(length: nat, f: nat): seq<Range> {
    Deliver(PhaseOne(f) + BackgroundPlan(f, f + BackgroundChunkSize, length), length)
  }

  /** The chunks appended when the background phase starts where phase one
      stopped. */
  function Download(length: nat, f: nat): seq<Range> {
    var stop := PhaseOneEnd(f);
    Deliver(PhaseOne(f) + BackgroundPlan(stop, stop + BackgroundChunkSize, length), length)
  }

  /** Phase one reads the bytes `[0, PhaseOneEnd)`, all inside the file; it
      holds at most `f + 1 <= 76,800,001` bytes. */
  lemma PhaseOneBytes(length: nat, f: nat)
    requires FirstChunkBounds(f, length)
    ensures Deliver(PhaseOne(f), length) == PhaseOne(f)
    ensures Tiles(PhaseOne(f), 0, PhaseOneEnd(f))
    ensures TotalSize(PhaseOne(f)) == PhaseOneEnd(f)
    ensures PhaseOneEnd(f) <= f + 1 <= EstimatedFirst10MinutesSize + 1
    ensures PhaseOneEnd(f) <= length
  {
    PhaseOneShape(0, ChunkSize, f);
    FirstChunkInsideFile(f, length);
    DeliverInside(PhaseOne(f), length);
    TilesSize(PhaseOne(f), 0, PhaseOneEnd(f));
  }

  /** Read with the background phase starting where phase one stopped, the
      chunks deliver every byte of the file exactly once, in order, so the
      full blob has the file's length. */
  lemma DownloadCoversFile(length: nat, f: nat)
    requires FirstChunkBounds(f, length)
    ensures Tiles(Download(length, f), 0, length)
    ensures TotalSize(Download(length, f)) == length
  {
    var stop := PhaseOneEnd(f);
    var one := PhaseOne(f);
    var bg := BackgroundPlan(stop, stop + BackgroundChunkSize, length);
    PhaseOneBytes(length, f);
    BackgroundShape(stop, stop + BackgroundChunkSize, length);
    DeliverConcat(one, bg, length);
    TilesAppend(one, Deliver(bg, length), 0, stop, length);
    TilesSize(Download(length, f), 0, length);
  }

  /** Both downloads are phase one, read whole, followed by what the
      background phase delivers from its starting point. */
  lemma DownloadSplit(length: nat, f: nat)
    requires FirstChunkBounds(f, length)
    ensures Download(length, f) ==
      PhaseOne(f) + Deliver(BackgroundPlan(PhaseOneEnd(f), PhaseOneEnd(f) + BackgroundChunkSize, length), length)
    ensures DownloadAsWritten(length, f) ==
      PhaseOne(f) + Deliver(BackgroundPlan(f, f + BackgroundChunkSize, length), length)
  {
    PhaseOneBytes(length, f);
    var stop := PhaseOneEnd(f);
    DeliverConcat(PhaseOne(f), BackgroundPlan(stop, stop + BackgroundChunkSize, length), length);
    DeliverConcat(PhaseOne(f), BackgroundPlan(f, f + BackgroundChunkSize, length), length);
  }

  lemma DeliverConcat(a: seq<Range>, b: seq<Range>, length: nat)
    ensures Deliver(a + b, length) == Deliver(a, length) + Deliver(b, length)
  {
  }

  /** As written, the background phase restarts at `firstChunkSize`, while
      phase one already read that byte unless it stopped exactly there: the
      assembled video then holds one byte twice and is one byte too long. */
  lemma DownloadAsWrittenOverlap(length: nat, f: nat)
    requires FirstChunkBounds(f, length) && 0 < f
    ensures TotalSize(DownloadAsWritten(length, f)) == length + (PhaseOneEnd(f) - f)
    ensures PhaseOneEnd(f) == f + 1 ==> TotalSize(DownloadAsWritten(length, f)) == length + 1
  {
    var one := PhaseOne(f);
    var bg := BackgroundPlan(f, f + BackgroundChunkSize, length);
    PhaseOneBytes(length, f);
    FirstChunkInsideFile(f, length);
    BackgroundShape(f, f + BackgroundChunkSize, length);
    DeliverConcat(one, bg, length);
    TilesSize(Deliver(bg, length), f, length);
    TotalSizeAppend(one, Deliver(bg, length));
  }

  /** Once past the first range, phase one starts every range one byte after
      a multiple of the chunk size; it stops one byte past `f` unless `f`
      itself is such a start. */
  lemma {:induction false} PhaseOneStopAligned(start: nat, f: nat)
    requires start % ChunkSize == 1
    ensures PhaseOneStop(start, start + ChunkSize - 1, f) ==
      if start >= f then start else if f % ChunkSize == 1 then f else f + 1
    decreases f - start
  {
    if start < f {
      var end := start + ChunkSize - 1;
      if end >= f {
        assert PhaseOneStop(f + 1, f + ChunkSize, f) == f + 1;
        var q := start / ChunkSize;
        var d := f - start + 1;
        assert start == q * ChunkSize + 1;
        assert f == q * ChunkSize + d && 2 <= d <= ChunkSize;
        if d == ChunkSize {
          assert f == (q + 1) * ChunkSize;
        }
      } else {
        assert end + 1 == start + ChunkSize;
        PhaseOneStopAligned(end + 1, f);
      }
    }
  }

  /** Where phase one stops, in closed form. */
  lemma PhaseOneEndValue(f: nat)
    ensures PhaseOneEnd(f) ==
      if f == 0 then 0 else if f > ChunkSize && f % ChunkSize == 1 then f else f + 1
  {
    if f > ChunkSize {
      assert PhaseOneEnd(f) == PhaseOneStop(ChunkSize + 1, 2 * ChunkSize, f);
      PhaseOneStopAligned(ChunkSize + 1, f);
    } else if f > 0 {
      assert PhaseOneStop(f + 1, f + ChunkSize, f) == f + 1;
    }
  }

  /** A 100-byte file with a 30-byte first chunk: phase one reads `[0, 30]`
      (31 bytes) and the background phase reads `[30, 99]` (70 bytes), so
      byte 30 is appended twice and 101 bytes are assembled. */
  lemma DuplicatedByteExample()
    ensures FirstChunkSize(100) == 30
    ensures PhaseOne(30) == [Range(0, 30)]
    ensures BackgroundPlan(30, 30 + BackgroundChunkSize, 100) == [Range(30, 100)]
    ensures DownloadAsWritten(100, 30) == [Range(0, 30), Range(30, 99)]
    ensures TotalSize(DownloadAsWritten(100, 30)) == 101
  {
    assert PhaseOnePlan(31, 30 + ChunkSize, 30) == [];
    assert BackgroundPlan(101, 100 + BackgroundChunkSize, 100) == [];
    assert TotalSize([Range(0, 30)]) == 31;
  }

  /** Every file of at least 256,000,000 bytes gets the 76,800,000-byte
      estimate as its first chunk, which is not one byte past a multiple of
      1 MiB: its assembled video is one byte too long. */
  lemma LargeFileDuplicatesByte(length: nat)
    requires length >= 256000000
    ensures FirstChunkSize(length) == EstimatedFirst10MinutesSize
    ensures PhaseOneEnd(EstimatedFirst10MinutesSize) == EstimatedFirst10MinutesSize + 1
    ensures TotalSize(DownloadAsWritten(length, EstimatedFirst10MinutesSize)) == length + 1
  {
    PhaseOneEndValue(EstimatedFirst10MinutesSize);
    DownloadAsWrittenOverlap(length, EstimatedFirst10MinutesSize);
  }

  // ----- the playback threshold -----

  /** The number of chunks in the instant-playback blob: the blob is built
      once, from the chunks received so far, the first time their total
      reaches `threshold`. */
  function BlobChunks(cs: seq<Range>, threshold: nat): (r: Option<nat>)
    ensures r.Some? ==> 1 <= r.value <= |cs|
    decreases |cs|
  {
    if cs == [] then None
    else match BlobChunks(cs[..|cs| - 1], threshold)
      case Some(k) => Some(k)
      case None => if TotalSize(cs) >= threshold then Some(|cs|) else None
  }

  /** The blob is built exactly when the chunks reach the threshold, and from
      the shortest prefix that does. */
  lemma {:induction false} BlobChunksFirstCrossing(cs: seq<Range>, threshold: nat)
    ensures BlobChunks(cs, threshold).None? <==> TotalSize(cs) < threshold || cs == []
    ensures BlobChunks(cs, threshold).Some? ==>
      var k := BlobChunks(cs, threshold).value;
      1 <= k <= |cs| && TotalSize(cs[..k]) >= threshold && (k == 1 || TotalSize(cs[..k - 1]) < threshold)
    decreases |cs|
  {
    if cs != [] {
      var init := cs[..|cs| - 1];
      BlobChunksFirstCrossing(init, threshold);
      assert cs[..|cs|] == cs;
      match BlobChunks(init, threshold)
      case Some(k) =>
        assert cs[..k] == init[..k] && cs[..k - 1] == init[..k - 1];
      case None =>
        if init != [] {
          assert cs[..|cs| - 1] == init;
          assert TotalSize(init) < threshold;
        }
    }
  }

  /** Appending one chunk: the blob, once built, stays as it was; otherwise
      it is built from all the chunks if they now reach the threshold. */
  lemma BlobChunksStep(cs: seq<Range>, c: Range, threshold: nat)
    ensures TotalSize(cs + [c]) == TotalSize(cs) + Size(c)
    ensures BlobChunks(cs + [c], threshold) ==
      match BlobChunks(cs, threshold)
      case Some(k) => Some(k)
      case None => if TotalSize(cs) + Size(c) >= threshold then Some(|cs| + 1) else None
  {
    assert (cs + [c])[..|cs|] == cs;
  }

  /** As written (`minPlaybackSize` = 100 MiB) phase one never reaches the
      threshold, whatever the file: the instant-playback blob is never built. */
  lemma NoInstantPlaybackAsWritten(f: nat)
    requires f <= EstimatedFirst10MinutesSize
    ensures BlobChunks(PhaseOne(f), MinPlaybackSizeAsWritten).None?
  {
    PhaseOneShape(0, ChunkSize, f);
    TilesSize(PhaseOne(f), 0, PhaseOneEnd(f));
    BlobChunksFirstCrossing(PhaseOne(f), MinPlaybackSizeAsWritten);
  }

  /** With the 5 MiB threshold, a first chunk of at least 5 MiB starts
      instant playback during phase one; every file of at least 20 MiB gets
      such a first chunk. */
  lemma InstantPlayback(f: nat)
    requires f >= MinPlaybackSize
    ensures BlobChunks(PhaseOne(f), MinPlaybackSize).Some?
  {
    PhaseOneShape(0, ChunkSize, f);
    TilesSize(PhaseOne(f), 0, PhaseOneEnd(f));
    BlobChunksFirstCrossing(PhaseOne(f), MinPlaybackSize);
  }

  lemma LargeFilesReachThreshold(length: nat)
    requires length >= 20 * 1024 * 1024
    ensures FirstChunkSize(length) >= MinPlaybackSize
  {
  }
}
