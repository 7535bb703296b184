/** An abstract model of Android's `MediaExtractor`: a fixed container (its
    track table, its samples in file order, and where a sync seek lands) and
    the mutable session state (selected tracks, read cursor). */
module MediaExtractor {
  import opened MediaFormat

  /** One sample of the container: the track it belongs to and its
      presentation time in microseconds. */
  datatype Sample = Sample(track: int, time: int)

  /** What the file holds. `syncBefore(selected, t)` is the position in
      `samples` where `seekTo(t, SEEK_TO_PREVIOUS_SYNC)` puts the cursor when
      `selected` are the selected tracks; it stands for the platform's
      demuxer and is left abstract. */
  datatype Container = Container(
    tracks: seq<Format>,
    samples: seq<Sample>,
    syncBefore: (set<int>, int) -> nat)

  function Min(a: nat, b: nat): nat { if a < b then a else b }

  /** The first position at or after `pos` holding a sample of a selected
      track, or `|samples|` when there is none: the sample the extractor
      reports next. */
  function NextSelected(samples: seq<Sample>, selected: set<int>, pos: nat): (p: nat)
    requires pos <= |samples|
    ensures pos <= p <= |samples|
    ensures p < |samples| ==> samples[p].track in selected
    decreases |samples| - pos
  {
    if pos == |samples| || samples[pos].track in selected then pos
    else NextSelected(samples, selected, pos + 1)
  }

  /** No sample of a selected track lies between `pos` and `NextSelected`. */
  lemma {:induction false} NextSelectedSkipsOnlyUnselected(samples: seq<Sample>, selected: set<int>, pos: nat, q: nat)
    requires pos <= |samples| && pos <= q < NextSelected(samples, selected, pos)
    ensures samples[q].track !in selected
    decreases |samples| - pos
  {
    if q > pos {
      NextSelectedSkipsOnlyUnselected(samples, selected, pos + 1, q);
    }
  }

  /** `getSampleTrackIndex()` at position `p`: -1 once the samples are exhausted. */
  function TrackAt(samples: seq<Sample>, p: nat): int {
    if p < |samples| then samples[p].track else -1
  }

  /** `getSampleTime()` at position `p`: -1 once the samples are exhausted. */
  function TimeAt(samples: seq<Sample>, p: nat): int {
    if p < |samples| then samples[p].time else -1
  }

  /** The times the extractor still has to deliver from position `pos`, in order. */
  ghost function PendingTimes(samples: seq<Sample>, selected: set<int>, pos: nat): seq<int>
    requires pos <= |samples|
    decreases |samples| - pos
  {
    var p := NextSelected(samples, selected, pos);
    if p == |samples| then [] else [samples[p].time] + PendingTimes(samples, selected, p + 1)
  }

  /** The position of the sample reported after a sync seek to `t`. */
  function Landing(c: Container, selected: set<int>, t: int): (p: nat)
    ensures p <= |c.samples|
  {
    NextSelected(c.samples, selected, Min(c.syncBefore(selected, t), |c.samples|))
  }

  /** The sample track index reported after a sync seek to `t`. */
  function TrackAfterSeek(c: Container, selected: set<int>, t: int): int {
    TrackAt(c.samples, Landing(c, selected, t))
  }

  class Extractor {
    const media: Container
    var selected: set<int>
    var cursor: nat
    /** Every `seekTo` target, in call order. */
    ghost var seekLog: seq<int>
    /** Every `selectTrack` argument, in call order. */
    ghost var selectLog: seq<int>
    /** The number of `advance` calls. */
    ghost var advanceCount: nat

    ghost predicate Valid()
      reads this
    {
      cursor <= |media.samples|
    }

    constructor (media: Container)
      ensures Valid()
      ensures this.media == media && selected == {} && cursor == 0
      ensures seekLog == [] && selectLog == [] && advanceCount == 0
    {
      this.media := media;
      selected, cursor := {}, 0;
      seekLog, selectLog, advanceCount := [], [], 0;
    }

    /** The times still to be delivered from the cursor. */
    ghost function Pending(): seq<int>
      reads this
      requires Valid()
    {
      PendingTimes(media.samples, selected, cursor)
    }

    /** `getTrackCount()`. */
    function TrackCount(): (n: nat)
      ensures n == |media.tracks|
    {
      |media.tracks|
    }

    /** `getTrackFormat(i)`; the platform throws for an index out of range. */
    function TrackFormat(i: int): (f: Format)
      requires 0 <= i < |media.tracks|
      ensures f == media.tracks[i]
    {
      media.tracks[i]
    }

    /** `getSampleTrackIndex()`: the track of the current sample, -1 at the end. */
    function SampleTrackIndex(): (k: int)
      reads this
      requires Valid()
      ensures k == -1 || k in selected
    {
      TrackAt(media.samples, NextSelected(media.samples, selected, cursor))
    }

    /** `getSampleTime()`: the head of the pending times, -1 at the end. */
    function SampleTime(): (t: int)
      reads this
      requires Valid()
      ensures t == if Pending() == [] then -1 else Pending()[0]
    {
      TimeAt(media.samples, NextSelected(media.samples, selected, cursor))
    }

    /** `selectTrack(i)`; the platform throws for an index out of range. */
    method SelectTrack(i: int)
      requires Valid()
      requires 0 <= i < |media.tracks|
      modifies this
      ensures Valid()
      ensures selected == old(selected) + {i} && cursor == old(cursor)
      ensures selectLog == old(selectLog) + [i]
      ensures seekLog == old(seekLog) && advanceCount == old(advanceCount)
    {
      selected := selected + {i};
      selectLog := selectLog + [i];
    }

    /** `seekTo(t, SEEK_TO_PREVIOUS_SYNC)`. */
    method SeekTo(t: int)
      requires Valid()
      modifies this
      ensures Valid()
      ensures cursor == Min(media.syncBefore(selected, t), |media.samples|)
      ensures SampleTrackIndex() == TrackAfterSeek(media, selected, t)
      ensures selected == old(selected)
      ensures seekLog == old(seekLog) + [t]
      ensures selectLog == old(selectLog) && advanceCount == old(advanceCount)
    {
      cursor := Min(media.syncBefore(selected, t), |media.samples|);
      seekLog := seekLog + [t];
    }

    /** `advance()`: move past the current sample; nothing moves at the end. */
    method Advance()
      requires Valid()
      modifies this
      ensures Valid()
      ensures Pending() == if old(Pending()) == [] then [] else old(Pending())[1..]
      ensures selected == old(selected)
      ensures advanceCount == old(advanceCount) + 1
      ensures seekLog == old(seekLog) && selectLog == old(selectLog)
    {
      var p := NextSelected(media.samples, selected, cursor);
      if p < |media.samples| {
        cursor := p + 1;
      }
      advanceCount := advanceCount + 1;
    }
  }
}
