/** The track and sample utilities of `MediaUtils`: locating a track by MIME
    prefix, reading format keys with defaults, seeking back to the last
    frame of a track, collecting frame time stamps, and reading duration and
    size metadata with sentinel results. */
module MediaUtils {
  import opened Wrappers
  import opened JavaInt
  import opened MediaFormat
  import opened MediaExtractor
  import opened MediaMetadataRetriever

  const DEFAULT_I_FRAME_INTERVAL: Int32 := 1
  const DEFAULT_CHANNEL_COUNT: Int32 := 1
  const DEFAULT_MAX_BUFFER_SIZE: Int32 := 100 * 1024
  const DEFAULT_AAC_BITRATE: Int32 := 192 * 1000
  const ERR_NO_TRACK_INDEX: Int32 := -5

  /** The backward step of `seekToLastFrame`, in microseconds. */
  const SEEK_STEP_US: int := 10 * 1000

  datatype TrackType = Audio | Video

  datatype VideoSize = VideoSize(width: Int32, height: Int32)

  // ---------------------------------------------------------------------
  // Track lookup

  /** The track kind a MIME string announces to `getTrackIndex`. */
  predicate Matches(f: Format, trackType: TrackType) {
    (trackType == Audio && "audio/" <= f.mime) || (trackType == Video && "video/" <= f.mime)
  }

  /** The first track at or after `from` whose MIME matches, else the sentinel. */
  function FirstMatchFrom(tracks: seq<Format>, trackType: TrackType, from: nat): (i: int)
    ensures i == ERR_NO_TRACK_INDEX || from <= i < |tracks|
    ensures i == ERR_NO_TRACK_INDEX <==> forall j :: from <= j < |tracks| ==> !Matches(tracks[j], trackType)
    ensures i != ERR_NO_TRACK_INDEX ==>
      Matches(tracks[i], trackType) && forall j :: from <= j < i ==> !Matches(tracks[j], trackType)
    decreases |tracks| - from
  {
    if from >= |tracks| then ERR_NO_TRACK_INDEX
    else if Matches(tracks[from], trackType) then from
    else FirstMatchFrom(tracks, trackType, from + 1)
  }

  /** `getTrackIndex(extractor, type)`: a scan in track order with early return. */
  method GetTrackIndex(extractor: Extractor, trackType: TrackType) returns (index: int)
    ensures index == FirstMatchFrom(extractor.media.tracks, trackType, 0)
    ensures index == ERR_NO_TRACK_INDEX || 0 <= index < extractor.TrackCount()
    ensures index == ERR_NO_TRACK_INDEX <==>
      forall j :: 0 <= j < extractor.TrackCount() ==> !Matches(extractor.TrackFormat(j), trackType)
    ensures index != ERR_NO_TRACK_INDEX ==>
      Matches(extractor.TrackFormat(index), trackType) &&
      forall j :: 0 <= j < index ==> !Matches(extractor.TrackFormat(j), trackType)
  {
    var trackCount := extractor.TrackCount();
    for i := 0 to trackCount
      invariant forall j :: 0 <= j < i ==> !Matches(extractor.TrackFormat(j), trackType)
      invariant FirstMatchFrom(extractor.media.tracks, trackType, 0) == FirstMatchFrom(extractor.media.tracks, trackType, i)
    {
      var format := extractor.TrackFormat(i);
      var mime := format.mime;
      if trackType == Audio && "audio/" <= mime {
        return i;
      }
      if trackType == Video && "video/" <= mime {
        return i;
      }
    }
    return ERR_NO_TRACK_INDEX;
  }

  /** `getRotation(extractor)`: the rotation of the first video track, 0 when
      that track has no rotation key. The source passes the track index on
      unchecked, so a video track must exist. */
  function Rotation(extractor: Extractor): (degrees: Int32)
    requires exists j :: 0 <= j < |extractor.media.tracks| && Matches(extractor.media.tracks[j], Video)
    ensures forall i ::
      (0 <= i < |extractor.media.tracks| && Matches(extractor.media.tracks[i], Video) &&
       forall j :: 0 <= j < i ==> !Matches(extractor.media.tracks[j], Video)) ==>
        degrees == (if KEY_ROTATION in extractor.media.tracks[i].ints
                    then extractor.media.tracks[i].ints[KEY_ROTATION] else 0)
  {
    var videoTrackIndex := FirstMatchFrom(extractor.media.tracks, Video, 0);
    var videoFormat := extractor.TrackFormat(videoTrackIndex);
    if KEY_ROTATION in videoFormat.ints then videoFormat.ints[KEY_ROTATION] else 0
  }

  // ---------------------------------------------------------------------
  // Format accessors

  /** `getAudioMaxBufferSize(format)`. */
  function AudioMaxBufferSize(format: Format): Int32 {
    if KEY_MAX_INPUT_SIZE in format.ints then format.ints[KEY_MAX_INPUT_SIZE] else DEFAULT_MAX_BUFFER_SIZE
  }

  /** `getAudioBitrate(format)`. */
  function AudioBitrate(format: Format): Int32 {
    if KEY_BIT_RATE in format.ints then format.ints[KEY_BIT_RATE] else DEFAULT_AAC_BITRATE
  }

  /** `getChannelCount(format)`. */
  function ChannelCount(format: Format): Int32 {
    if KEY_CHANNEL_COUNT in format.ints then format.ints[KEY_CHANNEL_COUNT] else DEFAULT_CHANNEL_COUNT
  }

  /** `getSampleRate(format)`: no default; the platform throws when the key is absent. */
  function SampleRate(format: Format): Int32
    requires KEY_SAMPLE_RATE in format.ints
  {
    format.ints[KEY_SAMPLE_RATE]
  }

  /** The maximum input size set on a format is read back; a format without
      it yields 100 KiB; other keys do not matter. */
  lemma AudioMaxBufferSizeLookup(f: Format, v: Int32, k: string, w: Int32)
    ensures AudioMaxBufferSize(SetInteger(f, KEY_MAX_INPUT_SIZE, v)) == v
    ensures AudioMaxBufferSize(RemoveKey(f, KEY_MAX_INPUT_SIZE)) == 102400
    ensures k != KEY_MAX_INPUT_SIZE ==>
      AudioMaxBufferSize(SetInteger(f, k, w)) == AudioMaxBufferSize(f) &&
      AudioMaxBufferSize(RemoveKey(f, k)) == AudioMaxBufferSize(f)
  {
  }

  /** The bit rate set on a format is read back; a format without it yields
      192000; other keys do not matter. */
  lemma AudioBitrateLookup(f: Format, v: Int32, k: string, w: Int32)
    ensures AudioBitrate(SetInteger(f, KEY_BIT_RATE, v)) == v
    ensures AudioBitrate(RemoveKey(f, KEY_BIT_RATE)) == 192000
    ensures k != KEY_BIT_RATE ==>
      AudioBitrate(SetInteger(f, k, w)) == AudioBitrate(f) &&
      AudioBitrate(RemoveKey(f, k)) == AudioBitrate(f)
  {
  }

  /** The channel count set on a format is read back; a format without it
      yields 1; other keys do not matter. */
  lemma ChannelCountLookup(f: Format, v: Int32, k: string, w: Int32)
    ensures ChannelCount(SetInteger(f, KEY_CHANNEL_COUNT, v)) == v
    ensures ChannelCount(RemoveKey(f, KEY_CHANNEL_COUNT)) == 1
    ensures k != KEY_CHANNEL_COUNT ==>
      ChannelCount(SetInteger(f, k, w)) == ChannelCount(f) &&
      ChannelCount(RemoveKey(f, k)) == ChannelCount(f)
  {
  }

  /** The sample rate set on a format is read back, and other keys do not
      matter while it is present. */
  lemma SampleRateLookup(f: Format, v: Int32, k: string, w: Int32)
    ensures SampleRate(SetInteger(f, KEY_SAMPLE_RATE, v)) == v
    ensures k != KEY_SAMPLE_RATE && KEY_SAMPLE_RATE in f.ints ==>
      SampleRate(SetInteger(f, k, w)) == SampleRate(f) &&
      SampleRate(RemoveKey(f, k)) == SampleRate(f)
  {
  }

  // ---------------------------------------------------------------------
  // Seeking back to the last frame

  /** The seek targets `seekToLastFrame` issues from `t` on, once the track
      selection is `selected`: `t` first, then 10 000 µs less each time, up to
      the first target that is not positive or after which the sample track
      is `trackIndex`. */
  function SeekTargets(c: Container, selected: set<int>, trackIndex: int, t: int): seq<int>
    decreases if t > 0 then t else 0
  {
    if t > 0 && TrackAfterSeek(c, selected, t) != trackIndex
    then [t] + SeekTargets(c, selected, trackIndex, t - SEEK_STEP_US)
    else [t]
  }

  function Last(s: seq<int>): int
    requires s != []
  {
    s[|s| - 1]
  }

  /** The shape of the search: it starts at `t`, every retry is exactly 10 000
      lower and comes after a positive target that missed the track, and it
      stops on a target that is not positive or that hits the track. */
  lemma {:induction false} SeekTargetsShape(c: Container, selected: set<int>, trackIndex: int, t: int)
    ensures var ts := SeekTargets(c, selected, trackIndex, t);
      |ts| >= 1 && ts[0] == t &&
      (forall i :: 0 <= i < |ts| - 1 ==>
         ts[i] > 0 && TrackAfterSeek(c, selected, ts[i]) != trackIndex && ts[i + 1] == ts[i] - SEEK_STEP_US) &&
      (Last(ts) <= 0 || TrackAfterSeek(c, selected, Last(ts)) == trackIndex)
    decreases if t > 0 then t else 0
  {
    if t > 0 && TrackAfterSeek(c, selected, t) != trackIndex {
      SeekTargetsShape(c, selected, trackIndex, t - SEEK_STEP_US);
    }
  }

  /** From a start `t >= 0` there are at most ceil(t / 10000) + 1 seeks, and
      the last target is above -10 000 (it may be negative). */
  lemma {:induction false} SeekCountBound(c: Container, selected: set<int>, trackIndex: int, t: int)
    requires t >= 0
    ensures var ts := SeekTargets(c, selected, trackIndex, t);
      |ts| <= (t + SEEK_STEP_US - 1) / SEEK_STEP_US + 1 && Last(ts) > -SEEK_STEP_US
    decreases t
  {
    if t > 0 && TrackAfterSeek(c, selected, t) != trackIndex {
      if t >= SEEK_STEP_US {
        SeekCountBound(c, selected, trackIndex, t - SEEK_STEP_US);
        assert (t + SEEK_STEP_US - 1) / SEEK_STEP_US == (t - 1) / SEEK_STEP_US + 1;
      }
    }
  }

  /** If some target on the 10 000 µs grid below a positive start lands on
      `trackIndex`, the search ends on the track, at the latest such target
      or later. */
  lemma {:induction false} SeekFindsLatestHit(c: Container, selected: set<int>, trackIndex: int, t: int, j: nat)
    requires t - j * SEEK_STEP_US > 0
    requires TrackAfterSeek(c, selected, t - j * SEEK_STEP_US) == trackIndex
    ensures var ts := SeekTargets(c, selected, trackIndex, t);
      TrackAfterSeek(c, selected, Last(ts)) == trackIndex && Last(ts) >= t - j * SEEK_STEP_US
    decreases j
  {
    if TrackAfterSeek(c, selected, t) != trackIndex {
      assert j > 0;
      SeekFindsLatestHit(c, selected, trackIndex, t - SEEK_STEP_US, j - 1);
    }
  }

  /** The end of the search: a target that is not positive, or that hits the
      track, is the last one. */
  lemma SeekTargetsStop(c: Container, selected: set<int>, trackIndex: int, t: int)
    requires t <= 0 || TrackAfterSeek(c, selected, t) == trackIndex
    ensures SeekTargets(c, selected, trackIndex, t) == [t]
  {
  }

  /** The loop of `seekToLastFrame` keeps "the targets issued so far, then
      the search from the current target, make up the whole search". */
  lemma SearchAdvances(c: Container, selected: set<int>, trackIndex: int, start: int, done: seq<int>, t: int)
    requires t > 0 && TrackAfterSeek(c, selected, t) != trackIndex
    requires SeekTargets(c, selected, trackIndex, start) == done + SeekTargets(c, selected, trackIndex, t)
    ensures SeekTargets(c, selected, trackIndex, start) == (done + [t]) + SeekTargets(c, selected, trackIndex, t - SEEK_STEP_US)
  {
  }

  /** The seek and step-back loop of `seekToLastFrame`, from the first target
      `start` on: seek to `start`, then step back while the target is positive
      and the sample track is another one. The track selection does not
      change, and the cursor ends where the last seek put it. */
  method StepBackFrom(extractor: Extractor, trackIndex: int, start: int)
    requires extractor.Valid()
    modifies extractor
    ensures extractor.Valid()
    ensures extractor.selected == old(extractor.selected) && extractor.selectLog == old(extractor.selectLog)
    ensures extractor.seekLog == old(extractor.seekLog) + SeekTargets(extractor.media, extractor.selected, trackIndex, start)
    ensures extractor.SampleTrackIndex() == trackIndex || Last(extractor.seekLog) <= 0
    ensures extractor.cursor == Min(extractor.media.syncBefore(extractor.selected, Last(extractor.seekLog)), |extractor.media.samples|)
    ensures extractor.advanceCount == old(extractor.advanceCount)
  {
    ghost var c, selected := extractor.media, extractor.selected;
    ghost var done: seq<int> := [];
    var seekToDuration := start;
    extractor.SeekTo(seekToDuration);
    while seekToDuration > 0 && extractor.SampleTrackIndex() != trackIndex
      invariant extractor.Valid()
      invariant extractor.selected == selected && extractor.selectLog == old(extractor.selectLog)
      invariant extractor.advanceCount == old(extractor.advanceCount)
      invariant extractor.seekLog == old(extractor.seekLog) + done + [seekToDuration]
      invariant extractor.cursor == Min(c.syncBefore(selected, seekToDuration), |c.samples|)
      invariant extractor.SampleTrackIndex() == TrackAfterSeek(c, selected, seekToDuration)
      invariant SeekTargets(c, selected, trackIndex, start) == done + SeekTargets(c, selected, trackIndex, seekToDuration)
      decreases seekToDuration
    {
      SearchAdvances(c, selected, trackIndex, start, done, seekToDuration);
      done := done + [seekToDuration];
      seekToDuration := seekToDuration - SEEK_STEP_US;
      extractor.SeekTo(seekToDuration);
    }
    SeekTargetsStop(c, selected, trackIndex, seekToDuration);
  }

  /** `seekToLastFrame` once its first target `start` is computed: select the
      track unless it is already the sample track, then the seek and
      step-back loop from `start`. Selecting is only needed, and the index
      only has to be a valid track, when the sample track is another one. */
  method SeekBackFrom(extractor: Extractor, trackIndex: int, start: int)
    requires extractor.Valid()
    requires extractor.SampleTrackIndex() != trackIndex ==> 0 <= trackIndex < |extractor.media.tracks|
    modifies extractor
    ensures extractor.Valid()
    ensures old(extractor.SampleTrackIndex()) != trackIndex ==>
      extractor.selected == old(extractor.selected) + {trackIndex} &&
      extractor.selectLog == old(extractor.selectLog) + [trackIndex]
    ensures old(extractor.SampleTrackIndex()) == trackIndex ==>
      extractor.selected == old(extractor.selected) && extractor.selectLog == old(extractor.selectLog)
    ensures extractor.seekLog == old(extractor.seekLog) + SeekTargets(extractor.media, extractor.selected, trackIndex, start)
    ensures extractor.SampleTrackIndex() == trackIndex || Last(extractor.seekLog) <= 0
    ensures extractor.cursor == Min(extractor.media.syncBefore(extractor.selected, Last(extractor.seekLog)), |extractor.media.samples|)
    ensures extractor.advanceCount == old(extractor.advanceCount)
  {
    if extractor.SampleTrackIndex() != trackIndex {
      extractor.SelectTrack(trackIndex);
    }
    StepBackFrom(extractor, trackIndex, start);
  }

  /** `seekToLastFrame(extractor, trackIndex, duration)` as written: the first
      target `duration * 1000` is computed in 32-bit `int` arithmetic. */
  method SeekToLastFrame(extractor: Extractor, trackIndex: int, duration: Int32)
    requires extractor.Valid()
    requires extractor.SampleTrackIndex() != trackIndex ==> 0 <= trackIndex < |extractor.media.tracks|
    modifies extractor
    ensures extractor.Valid()
    ensures old(extractor.SampleTrackIndex()) != trackIndex ==>
      extractor.selected == old(extractor.selected) + {trackIndex} &&
      extractor.selectLog == old(extractor.selectLog) + [trackIndex]
    ensures old(extractor.SampleTrackIndex()) == trackIndex ==>
      extractor.selected == old(extractor.selected) && extractor.selectLog == old(extractor.selectLog)
    ensures extractor.seekLog ==
      old(extractor.seekLog) + SeekTargets(extractor.media, extractor.selected, trackIndex, WrapInt32(duration * 1000))
    ensures extractor.SampleTrackIndex() == trackIndex || Last(extractor.seekLog) <= 0
    ensures extractor.cursor == Min(extractor.media.syncBefore(extractor.selected, Last(extractor.seekLog)), |extractor.media.samples|)
    ensures extractor.advanceCount == old(extractor.advanceCount)
  {
    var seekToDuration: Int32 := WrapInt32(duration * 1000);
    SeekBackFrom(extractor, trackIndex, seekToDuration);
  }

  /** `seekToLastFrame` with the first target computed in 64-bit arithmetic,
      where `duration * 1000` is exact for every `int` duration. */
  method SeekToLastFrameLong(extractor: Extractor, trackIndex: int, duration: Int32)
    requires extractor.Valid()
    requires extractor.SampleTrackIndex() != trackIndex ==> 0 <= trackIndex < |extractor.media.tracks|
    modifies extractor
    ensures extractor.Valid()
    ensures old(extractor.SampleTrackIndex()) != trackIndex ==>
      extractor.selected == old(extractor.selected) + {trackIndex} &&
      extractor.selectLog == old(extractor.selectLog) + [trackIndex]
    ensures old(extractor.SampleTrackIndex()) == trackIndex ==>
      extractor.selected == old(extractor.selected) && extractor.selectLog == old(extractor.selectLog)
    ensures extractor.seekLog ==
      old(extractor.seekLog) + SeekTargets(extractor.media, extractor.selected, trackIndex, duration * 1000)
    ensures extractor.SampleTrackIndex() == trackIndex || Last(extractor.seekLog) <= 0
    ensures extractor.cursor == Min(extractor.media.syncBefore(extractor.selected, Last(extractor.seekLog)), |extractor.media.samples|)
    ensures extractor.advanceCount == old(extractor.advanceCount)
  {
    var seekToDuration: int := duration * 1000;
    SeekBackFrom(extractor, trackIndex, seekToDuration);
  }

  /** With the 32-bit product, a duration of more than 2 147 483 ms (and at
      most 4 294 967 ms) gives a negative first target, so the search issues
      that single seek and never steps back from the end of the track. */
  lemma SeekTargetWrapsForLongVideos(c: Container, selected: set<int>, trackIndex: int, duration: Int32)
    requires 2147483 < duration <= 4294967
    ensures WrapInt32(duration * 1000) == duration * 1000 - TWO_32 < 0
    ensures SeekTargets(c, selected, trackIndex, WrapInt32(duration * 1000)) == [duration * 1000 - TWO_32]
  {
  }

  /** The bound on the number of seeks survives the 32-bit product: the
      wrapped target is never above the exact one. */
  lemma SeekCountBoundAsWritten(c: Container, selected: set<int>, trackIndex: int, duration: Int32)
    requires duration >= 0
    ensures |SeekTargets(c, selected, trackIndex, WrapInt32(duration * 1000))| <=
      (duration * 1000 + SEEK_STEP_US - 1) / SEEK_STEP_US + 1
  {
    var w := WrapInt32(duration * 1000);
    if w >= 0 {
      SeekCountBound(c, selected, trackIndex, w);
      assert w <= duration * 1000;
    }
  }

  /** With the 64-bit product the first target is the end of the track in
      microseconds for every non-negative duration, and the bound on the
      number of seeks holds. */
  lemma SeekTargetsLong(c: Container, selected: set<int>, trackIndex: int, duration: Int32)
    requires duration >= 0
    ensures var ts := SeekTargets(c, selected, trackIndex, duration * 1000);
      ts[0] == duration * 1000 &&
      |ts| <= (duration * 1000 + SEEK_STEP_US - 1) / SEEK_STEP_US + 1 && Last(ts) > -SEEK_STEP_US
  {
    SeekTargetsShape(c, selected, trackIndex, duration * 1000);
    SeekCountBound(c, selected, trackIndex, duration * 1000);
  }

  // ---------------------------------------------------------------------
  // Frame time stamps

  /** The times of `s` before its first negative one. */
  function TakeNonNegative(s: seq<int>): (r: seq<int>)
    ensures r <= s
    ensures forall i :: 0 <= i < |r| ==> r[i] >= 0
    ensures |r| < |s| ==> s[|r|] < 0
  {
    if s == [] || s[0] < 0 then [] else [s[0]] + TakeNonNegative(s[1..])
  }

  /** The three properties of `TakeNonNegative` determine it. */
  lemma TakeNonNegativeUnique(s: seq<int>, r: seq<int>)
    requires r <= s
    requires forall i :: 0 <= i < |r| ==> r[i] >= 0
    requires |r| < |s| ==> s[|r|] < 0
    ensures r == TakeNonNegative(s)
  {
  }

  /** When no pending time is negative, every one of them is collected. */
  lemma TakeNonNegativeAll(s: seq<int>)
    requires forall i :: 0 <= i < |s| ==> s[i] >= 0
    ensures TakeNonNegative(s) == s
  {
  }

  /** The loop of `getFrameTimeStamps` keeps "the times collected so far,
      then the pending ones, are the times pending at the start", for all of
      them and for their non-negative prefix. */
  lemma CollectAdvances(pending0: seq<int>, collected: seq<int>, rest: seq<int>)
    requires rest != [] && rest[0] >= 0
    requires pending0 == collected + rest
    requires TakeNonNegative(pending0) == collected + TakeNonNegative(rest)
    ensures pending0 == (collected + [rest[0]]) + rest[1..]
    ensures TakeNonNegative(pending0) == (collected + [rest[0]]) + TakeNonNegative(rest[1..])
  {
  }

  /** `getFrameTimeStamps(extractor)`: read sample times and advance until a
      negative time is read. */
  method GetFrameTimeStamps(extractor: Extractor) returns (frameTimeStamps: seq<int>)
    requires extractor.Valid()
    modifies extractor
    ensures extractor.Valid()
    ensures frameTimeStamps == TakeNonNegative(old(extractor.Pending()))
    ensures forall i :: 0 <= i < |frameTimeStamps| ==> frameTimeStamps[i] >= 0
    ensures extractor.Pending() == old(extractor.Pending())[|frameTimeStamps|..]
    ensures extractor.SampleTime() < 0
    ensures extractor.advanceCount == old(extractor.advanceCount) + |frameTimeStamps|
    ensures extractor.selected == old(extractor.selected)
    ensures extractor.seekLog == old(extractor.seekLog) && extractor.selectLog == old(extractor.selectLog)
  {
    frameTimeStamps := [];
    ghost var pending0 := extractor.Pending();
    ghost var rest := pending0;
    while true
      invariant extractor.Valid()
      invariant extractor.selected == old(extractor.selected)
      invariant extractor.seekLog == old(extractor.seekLog) && extractor.selectLog == old(extractor.selectLog)
      invariant extractor.advanceCount == old(extractor.advanceCount) + |frameTimeStamps|
      invariant rest == extractor.Pending()
      invariant pending0 == frameTimeStamps + rest
      invariant TakeNonNegative(pending0) == frameTimeStamps + TakeNonNegative(rest)
      decreases |rest|
    {
      var sampleTime := extractor.SampleTime();
      if sampleTime < 0 {
        break;
      }
      CollectAdvances(pending0, frameTimeStamps, rest);
      frameTimeStamps := frameTimeStamps + [sampleTime];
      extractor.Advance();
      rest := rest[1..];
    }
    assert pending0[|frameTimeStamps|..] == rest;
  }

  // ---------------------------------------------------------------------
  // Metadata with sentinel results

  /** `getDuration(inputPath)`: `open` is what opening the path yields and
      `parseInt` stands for `Integer.parseInt` (`None` where it throws).
      Every path releases the retriever once. */
  method GetDuration(inputPath: string, open: string -> Option<Metadata>, parseInt: string -> Option<Int32>)
    returns (duration: Int32, ghost releases: nat)
    ensures releases == 1
    ensures open(inputPath).None? ==> duration == -1
    ensures open(inputPath).Some? && (KeyDuration !in open(inputPath).value || open(inputPath).value[KeyDuration] == "") ==>
      duration == -1
    ensures open(inputPath).Some? && KeyDuration in open(inputPath).value && open(inputPath).value[KeyDuration] != "" ==>
      duration == (match parseInt(open(inputPath).value[KeyDuration])
                   case None => -1
                   case Some(v) => v)
  {
    var retriever := new Retriever();
    duration := -1;
    var failed := false;
    var ok := retriever.SetDataSource(open(inputPath));
    if !ok {
      failed := true;
    } else {
      var durationStr := retriever.ExtractMetadata(KeyDuration);
      if durationStr == None || durationStr.value == "" {
        duration := -1;
      } else {
        var parsed := parseInt(durationStr.value);
        if parsed == None {
          failed := true;
        } else {
          duration := parsed.value;
        }
      }
    }
    // finally
    retriever.Release();
    releases := retriever.released;
    if failed {
      return -1, releases;
    }
  }

  /** `getVideoSize(fd)`: `open` is what opening the descriptor yields and
      `parseInt` stands for `Integer.valueOf` (`None` where it throws, which
      includes a `null` string). Every path releases the retriever once. */
  method GetVideoSize<Fd>(fd: Fd, open: Fd -> Option<Metadata>, parseInt: string -> Option<Int32>)
    returns (size: Option<VideoSize>, ghost releases: nat)
    ensures releases == 1
    ensures size.Some? <==>
      open(fd).Some? &&
      KeyVideoWidth in open(fd).value && parseInt(open(fd).value[KeyVideoWidth]).Some? &&
      KeyVideoHeight in open(fd).value && parseInt(open(fd).value[KeyVideoHeight]).Some?
    ensures size.Some? ==>
      size.value == VideoSize(parseInt(open(fd).value[KeyVideoWidth]).value,
                              parseInt(open(fd).value[KeyVideoHeight]).value)
  {
    var retriever := new Retriever();
    var width: Int32 := 0;
    var height: Int32 := 0;
    var failed := true;
    var ok := retriever.SetDataSource(open(fd));
    if ok {
      var widthStr := retriever.ExtractMetadata(KeyVideoWidth);
      var w := if widthStr.Some? then parseInt(widthStr.value) else None;
      if w.Some? {
        width := w.value;
        var heightStr := retriever.ExtractMetadata(KeyVideoHeight);
        var h := if heightStr.Some? then parseInt(heightStr.value) else None;
        if h.Some? {
          height := h.value;
          failed := false;
        }
      }
    }
    // finally
    retriever.Release();
    releases := retriever.released;
    if failed {
      return None, releases;
    }
    return Some(VideoSize(width, height)), releases;
  }
}
