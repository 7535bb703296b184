# MediaUtils track and sample logic, modelled in Dafny

This project models the track and sample utilities of the video-editing SDK's
`MediaUtils` class and proves properties of them. The utilities do five things:

- find the first audio or video track by MIME prefix (`getTrackIndex`, `getRotation`);
- read format keys, falling back to constant defaults (`getAudioMaxBufferSize`,
  `getAudioBitrate`, `getChannelCount`, `getSampleRate`);
- seek back from the end of a track in 10 ms steps until the sample track is
  the wanted one (`seekToLastFrame`);
- collect sample times until the first negative one (`getFrameTimeStamps`);
- read duration and size metadata, turning every failure into a sentinel and
  releasing the retriever on every path (`getDuration`, `getVideoSize`).

Android's platform classes become small abstract models:

- `MediaFormat` (`media_format.dfy`) is a value. It holds a MIME string and a
  map of integer keys.
- `MediaExtractor` (`media_extractor.dfy`) is a class over a fixed `Container`.
  The container holds the track table, the samples in file order, and a
  `syncBefore` oracle that says where a sync seek lands. The class holds the set
  of selected tracks and a cursor. Only samples of selected tracks are reported.
  Ghost logs record every `seekTo` target, every `selectTrack` argument and the
  number of `advance` calls.
- `MediaMetadataRetriever` (`media_metadata_retriever.dfy`) is a class with a
  ghost `released` counter.
- Java's 32-bit `int` (`java_int.dfy`) is a subset type, with an explicit
  wrap-around for products.

The operations live in `media_utils.dfy`:

- The loops (`getTrackIndex`, `seekToLastFrame`, `getFrameTimeStamps`) are methods.
  Each is proved against a specification function (`FirstMatchFrom`,
  `SeekTargets`, `TakeNonNegative`), and lemmas prove the properties of those functions.
- The conditional accessors are functions.

## Model

| member | source | states |
|---|---|---|
| `JavaInt.WrapInt32` | videoEditSdk/src/main/java/com/video/process/utils/MediaUtils.java:100 | The Java `int` result of an exact product is congruent to it modulo 2^32 and equals it when it fits in 32 bits |
| `MediaUtils.FirstMatchFrom` | videoEditSdk/src/main/java/com/video/process/utils/MediaUtils.java:64-77 | The result is -5 exactly when no track from `from` on has a matching MIME prefix; otherwise it is the smallest matching index in range |
| `MediaUtils.GetTrackIndex` | videoEditSdk/src/main/java/com/video/process/utils/MediaUtils.java:64-78 | The scan returns -5 or an index in `[0, trackCount)`. It returns -5 iff no track's MIME starts with `audio/` (AUDIO) or `video/` (VIDEO). Otherwise it returns a matching index with no matching track before it |
| `MediaUtils.Rotation` | videoEditSdk/src/main/java/com/video/process/utils/MediaUtils.java:80-84 | Given that a video track exists, the result is the first video track's rotation value when it has the key, and 0 otherwise |
| `MediaUtils.AudioMaxBufferSize` | videoEditSdk/src/main/java/com/video/process/utils/MediaUtils.java:90-96 | The format's max input size when the key is present, else `DEFAULT_MAX_BUFFER_SIZE` (100 * 1024); its laws are in `AudioMaxBufferSizeLookup` |
| `MediaUtils.AudioBitrate` | videoEditSdk/src/main/java/com/video/process/utils/MediaUtils.java:126-132 | The format's bit rate when the key is present, else `DEFAULT_AAC_BITRATE` (192 * 1000); its laws are in `AudioBitrateLookup` |
| `MediaUtils.ChannelCount` | videoEditSdk/src/main/java/com/video/process/utils/MediaUtils.java:134-140 | The format's channel count when the key is present, else `DEFAULT_CHANNEL_COUNT` (1); its laws are in `ChannelCountLookup` |
| `MediaUtils.SampleRate` | videoEditSdk/src/main/java/com/video/process/utils/MediaUtils.java:142-144 | The format's sample rate, with the key required because the source has no default; its laws are in `SampleRateLookup` |
| `MediaUtils.AudioMaxBufferSizeLookup` | videoEditSdk/src/main/java/com/video/process/utils/MediaUtils.java:90-96 | The max input size set on a format is read back; without the key the result is 102400; other keys do not change it |
| `MediaUtils.AudioBitrateLookup` | videoEditSdk/src/main/java/com/video/process/utils/MediaUtils.java:126-132 | The bit rate set on a format is read back; without the key the result is 192000; other keys do not change it |
| `MediaUtils.ChannelCountLookup` | videoEditSdk/src/main/java/com/video/process/utils/MediaUtils.java:134-140 | The channel count set on a format is read back; without the key the result is 1; other keys do not change it |
| `MediaUtils.SampleRateLookup` | videoEditSdk/src/main/java/com/video/process/utils/MediaUtils.java:142-144 | The sample rate set on a format is read back. There is no default: the accessor requires the key |
| `MediaUtils.SeekTargetsShape` | videoEditSdk/src/main/java/com/video/process/utils/MediaUtils.java:104-109 | The targets start at the first target. Each retry is exactly 10 000 lower and follows a positive target that missed the track. The last target is ≤ 0 or lands on the track |
| `MediaUtils.SeekCountBound` | videoEditSdk/src/main/java/com/video/process/utils/MediaUtils.java:105-109 | From a start `t ≥ 0` there are at most ceil(t/10000)+1 seeks, and the last target is > -10 000 |
| `MediaUtils.SeekFindsLatestHit` | videoEditSdk/src/main/java/com/video/process/utils/MediaUtils.java:105-109 | Suppose some positive target on the 10 ms grid below the start lands on the track. Then the search stops on the track, at that target or a later one |
| `MediaUtils.StepBackFrom` | videoEditSdk/src/main/java/com/video/process/utils/MediaUtils.java:104-109 | The seeks issued are exactly `SeekTargets` from the start. The selection does not change and `advance` is not called. The cursor ends where the last seek put it. On exit the sample track is the wanted one or the last target is ≤ 0 |
| `MediaUtils.SeekBackFrom` | videoEditSdk/src/main/java/com/video/process/utils/MediaUtils.java:101-109 | `selectTrack(trackIndex)` is called once when the current sample track index differs, and never otherwise. The index only has to be a valid track in the first case. After that come exactly the seeks of `SeekTargets`, and the cursor ends where the last of them put it |
| `MediaUtils.SeekToLastFrame` | videoEditSdk/src/main/java/com/video/process/utils/MediaUtils.java:99-110 | As written: the first target is `duration * 1000` wrapped to 32 bits. The search from it follows, with the selection rule above, and the cursor ends where the last seek put it |
| `MediaUtils.SeekToLastFrameLong` | videoEditSdk/src/main/java/com/video/process/utils/MediaUtils.java:99-110 | Corrected: the first target is exactly `duration * 1000`. The search from it follows, with the selection rule above, and the cursor ends where the last seek put it |
| `MediaUtils.SeekTargetWrapsForLongVideos` | videoEditSdk/src/main/java/com/video/process/utils/MediaUtils.java:100-105 | For 2147483 < duration ≤ 4294967 ms, the 32-bit first target is negative, so exactly one seek is issued and the search never runs |
| `MediaUtils.SeekCountBoundAsWritten` | videoEditSdk/src/main/java/com/video/process/utils/MediaUtils.java:100-109 | Even with the 32-bit product, a duration ≥ 0 gives at most ceil(duration*1000/10000)+1 seeks |
| `MediaUtils.SeekTargetsLong` | videoEditSdk/src/main/java/com/video/process/utils/MediaUtils.java:100-109 | With the exact product and duration ≥ 0, the first seek is to `duration * 1000`, there are at most ceil(duration*1000/10000)+1 seeks, and the last target is > -10 000 |
| `MediaUtils.TakeNonNegative` | videoEditSdk/src/main/java/com/video/process/utils/MediaUtils.java:115-122 | The result is a prefix of the pending times, all its elements are ≥ 0, and the time right after it (if any) is negative |
| `MediaUtils.TakeNonNegativeUnique` | videoEditSdk/src/main/java/com/video/process/utils/MediaUtils.java:115-122 | Those three properties determine the result: any list that has them is `TakeNonNegative` |
| `MediaUtils.TakeNonNegativeAll` | videoEditSdk/src/main/java/com/video/process/utils/MediaUtils.java:115-122 | When no pending time is negative, every pending time is collected |
| `MediaUtils.GetFrameTimeStamps` | videoEditSdk/src/main/java/com/video/process/utils/MediaUtils.java:113-124 | Returns, in cursor order, the pending sample times before the first negative one, all ≥ 0. It calls `advance` once per element and leaves the cursor on the first negative (or end) time. Selection and seeks are untouched |
| `MediaUtils.GetDuration` | videoEditSdk/src/main/java/com/video/process/utils/MediaUtils.java:29-44 | Returns -1 when opening fails, when the duration is missing or empty, or when parsing fails; otherwise the parsed value. The retriever is released exactly once |
| `MediaUtils.GetVideoSize` | videoEditSdk/src/main/java/com/video/process/utils/MediaUtils.java:46-62 | Returns a size iff opening succeeds and both width and height are present and parse; the size is then (width, height). The retriever is released exactly once |

## Left out

- `GlBulgeDistortionComposeFilter`: its warp is floating-point GLSL in a shader string, and `onDraw` only makes three `glUniform*` foreign calls. That GPU code is not part of this model.
- `VIDEO_WEIGHT` and `AUDIO_WEIGHT`: float constants that no modelled operation reads.
- `closeExtractor`, `closeMuxer` and `close`: release of native handles with swallowed exceptions. The muxer is not part of this model.
- `getFormat`: a one-line pass-through to `getTrackFormat`, modelled as `Extractor.TrackFormat`.
- `LogUtils.i` logging inside `getTrackIndex`: output only.
- Platform behaviour: where a sync seek lands is the abstract `syncBefore` oracle. Opening a path or descriptor is the parameter `open`. `Integer.parseInt` / `Integer.valueOf` is the parameter `parseInt` (`None` where it throws).
- `Extractor.SelectTrack` leaves the cursor where it was. Android's precise effect of selecting a track on the read position is not modelled.
- Exceptions the source does not catch become preconditions. `getTrackFormat` and `selectTrack` require an index in range, so `seekToLastFrame` requires a valid index only when it has to select the track. `getRotation` requires a video track. `getSampleRate` requires the key.
- `TrackType` is not part of this model. Its two kinds are a datatype, so an `int` type that is neither AUDIO nor VIDEO cannot occur. Neither `if` at lines 70-75 of the source would fire for such a value.
- A track format without a MIME string is not modelled. In the source, `getString` would return `null` and `startsWith` would throw.
- Whether sample times are non-decreasing is a property of the container, not of this code, so it is not stated.
- The last seek target of `seekToLastFrame` can be negative, for example 5 000 followed by -5 000. The model proves only that it is > -10 000.
- Sample times are Java `long` and are modelled as unbounded integers. The code does no arithmetic on them.

## Findings

| source | as written | input that shows it | evidently intended | confidence | as-written member | corrected member |
|---|---|---|---|---|---|---|
| videoEditSdk/src/main/java/com/video/process/utils/MediaUtils.java:100 | `int seekToDuration = duration * 1000` overflows 32 bits | `duration = 2147484` ms (about 35.8 minutes): the first target wraps to -2147483296, so the only seek is to a negative target (`SeekTargetWrapsForLongVideos`); where the platform then lands is outside the model | compute the target in 64 bits (`duration * 1000L`), which `seekTo(long, int)` accepts | medium, not executed | `MediaUtils.SeekToLastFrame`, `MediaUtils.SeekTargetWrapsForLongVideos` | `MediaUtils.SeekToLastFrameLong`, `MediaUtils.SeekTargetsLong` |
