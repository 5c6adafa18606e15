/** Clip records of the shared crate (shared/src/clip.rs) and the names
    derived from them: stream counts, GStreamer ids and output locations. */
module Clips {
  import opened Wrappers
  import opened Text
  import opened NodeTypes

  datatype ClipType = Source | Composited

  datatype ClipIdentifier = ClipIdentifier(id: ID, clipType: ClipType)

  datatype VideoStreamInfo = VideoStreamInfo(width: nat, height: nat, framerate: real, bitrate: nat)

  datatype AudioStreamInfo = AudioStreamInfo(sampleRate: nat, numberOfChannels: nat, bitrate: nat, language: string)

  datatype SubtitleStreamInfo = SubtitleStreamInfo(language: string)

  datatype ClipInfo = ClipInfo(
    duration: nat,
    videoStreams: seq<VideoStreamInfo>,
    audioStreams: seq<AudioStreamInfo>,
    subtitleStreams: seq<SubtitleStreamInfo>)

  datatype SourceClipServerStatus = NeedsNewID | LocalOnly | Uploading | Uploaded

  datatype SourceClip = SourceClip(
    id: ID,
    name: string,
    status: SourceClipServerStatus,
    info: Option<ClipInfo>,
    originalFileLocation: Option<string>,
    fileLocation: Option<string>,
    originalDeviceId: Option<ID>,
    thumbnailLocation: Option<string>)

  datatype CompositedClip = CompositedClip(id: ID, name: string)

  const TWO_POW_31: int := 0x8000_0000
  const TWO_POW_32: int := 0x1_0000_0000

  /** Rust `n as i32` for a `usize` n: keep the low 32 bits and read them as
      two's complement. */
  function AsI32(n: nat): (r: int)
    ensures -TWO_POW_31 <= r < TWO_POW_31
    ensures (r - n) % TWO_POW_32 == 0
    ensures n < TWO_POW_31 ==> r == n
  {
    var low := n % TWO_POW_32;
    if low < TWO_POW_31 then low else low - TWO_POW_32
  }

  /** `ClipInfo::to_pipeable_type`: the lengths of the three stream lists,
      cast to i32. */
  function ToPipeableType(info: ClipInfo): (t: PipeableType)
    ensures |info.videoStreams| < TWO_POW_31 ==> t.video == |info.videoStreams|
    ensures |info.audioStreams| < TWO_POW_31 ==> t.audio == |info.audioStreams|
    ensures |info.subtitleStreams| < TWO_POW_31 ==> t.subtitles == |info.subtitleStreams|
  {
    PipeableType(AsI32(|info.videoStreams|), AsI32(|info.audioStreams|), AsI32(|info.subtitleStreams|))
  }

  /** `SourceClip::get_clip_type`: the stream counts of a probed clip, -1 for
      every count when the clip has not been probed. */
  function GetClipType(clip: SourceClip): (t: PipeableType)
    ensures clip.info.None? ==> t == PipeableType(-1, -1, -1)
    ensures clip.info.Some? ==> t == ToPipeableType(clip.info.value)
    ensures clip.info.Some? && |clip.info.value.videoStreams| < TWO_POW_31 ==> t.video >= 0
  {
    if clip.info.Some? then ToPipeableType(clip.info.value) else PipeableType(-1, -1, -1)
  }

  /** The shared tail of both clip kinds' GStreamer ids. */
  function StreamSuffix(id: ID, st: PipeableStreamType, index: int): string {
    id + "-" + TypedIndex(st, index)
  }

  /** A clip's GStreamer id: its kind's prefix, then the stream suffix. */
  function ClipGstreamerId(prefix: string, id: ID, st: PipeableStreamType, index: int): (s: string)
    ensures StartsWith(s, prefix)
    ensures s[|prefix|..] == StreamSuffix(id, st, index)
  {
    prefix + StreamSuffix(id, st, index)
  }

  /** `SourceClip::get_gstreamer_id`: "source-clip-{id}-{type}-{index}". */
  function SourceGstreamerId(clip: SourceClip, st: PipeableStreamType, index: int): (s: string)
    ensures StartsWith(s, "source-clip-")
    ensures s[|"source-clip-"|..] == StreamSuffix(clip.id, st, index)
  {
    ClipGstreamerId("source-clip-", clip.id, st, index)
  }

  /** `CompositedClip::get_gstreamer_id`: "composited-clip-{id}-{type}-{index}". */
  function CompositedGstreamerId(clip: CompositedClip, st: PipeableStreamType, index: int): (s: string)
    ensures StartsWith(s, "composited-clip-")
    ensures s[|"composited-clip-"|..] == StreamSuffix(clip.id, st, index)
  {
    ClipGstreamerId("composited-clip-", clip.id, st, index)
  }

  /** Within one clip the id tells the stream type and index apart. */
  lemma StreamSuffixInjective(id: ID, st1: PipeableStreamType, i1: int, st2: PipeableStreamType, i2: int)
    requires StreamSuffix(id, st1, i1) == StreamSuffix(id, st2, i2)
    ensures st1 == st2 && i1 == i2
  {
    PrefixCancel(id + "-", TypedIndex(st1, i1), TypedIndex(st2, i2));
    TypedIndexInjective(st1, i1, st2, i2);
  }

  /** A source clip's elements and a composited clip's elements never share a
      GStreamer id: the prefixes differ at the first character. */
  lemma SourceAndCompositedIdsDiffer(a: SourceClip, b: CompositedClip, st1: PipeableStreamType, i1: int, st2: PipeableStreamType, i2: int)
    ensures SourceGstreamerId(a, st1, i1) != CompositedGstreamerId(b, st2, i2)
  {
    assert SourceGstreamerId(a, st1, i1)[0] == 's';
    assert CompositedGstreamerId(b, st2, i2)[0] == 'c';
  }

  /** Every stream of a source clip has its own GStreamer id. */
  lemma SourceGstreamerIdInjective(clip: SourceClip, st1: PipeableStreamType, i1: int, st2: PipeableStreamType, i2: int)
    requires SourceGstreamerId(clip, st1, i1) == SourceGstreamerId(clip, st2, i2)
    ensures st1 == st2 && i1 == i2
  {
    StreamSuffixInjective(clip.id, st1, i1, st2, i2);
  }

  /** `constants::CHUNK_FILENAME_NUMBER_LENGTH`. */
  const CHUNK_FILENAME_NUMBER_LENGTH: nat := 6

  /** `constants::media_output_location`, with the data location as a parameter
      (the source reads it from a global). */
  function MediaOutputLocation(dataLocation: string): string {
    dataLocation + "\\output"
  }

  /** `CompositedClip::get_output_location`, with every backslash turned into a
      forward slash. */
  function GetOutputLocation(clip: CompositedClip, dataLocation: string): (s: string)
    ensures '\\' !in s
    ensures s == ReplaceChar(dataLocation, '\\', '/') + ("/" + "output") + "/composited-clip-" + ReplaceChar(clip.id, '\\', '/')
    ensures '\\' !in dataLocation && '\\' !in clip.id ==> s == dataLocation + ("/" + "output") + "/composited-clip-" + clip.id
  {
    SlashedOutputLocation(clip.id, dataLocation);
    ReplaceChar(MediaOutputLocation(dataLocation) + "/composited-clip-" + clip.id, '\\', '/')
  }

  /** The slashes replace the separator before "output" and leave the two
      inputs otherwise as they are when they hold no backslash. */
  lemma SlashedOutputLocation(id: string, dataLocation: string)
    ensures var s := ReplaceChar(MediaOutputLocation(dataLocation) + "/composited-clip-" + id, '\\', '/');
            && s == ReplaceChar(dataLocation, '\\', '/') + ("/" + "output") + "/composited-clip-" + ReplaceChar(id, '\\', '/')
            && ('\\' !in dataLocation && '\\' !in id ==> s == dataLocation + ("/" + "output") + "/composited-clip-" + id)
  {
    SlashedLiterals();
    SlashedPieces(dataLocation, "\\output", "/composited-clip-", id, "/" + "output");
    if '\\' !in dataLocation && '\\' !in id {
      ReplaceCharAbsent(dataLocation, '\\', '/');
      ReplaceCharAbsent(id, '\\', '/');
    }
  }

  /** Slashes replaced in four pieces joined together, where the middle two
      are known: b becomes b' and c has no backslash. */
  lemma SlashedPieces(a: string, b: string, c: string, d: string, b': string)
    requires ReplaceChar(b, '\\', '/') == b' && ReplaceChar(c, '\\', '/') == c
    ensures ReplaceChar(a + b + c + d, '\\', '/') == ReplaceChar(a, '\\', '/') + b' + c + ReplaceChar(d, '\\', '/')
  {
    ReplaceCharConcat(a + b + c, d, '\\', '/');
    ReplaceCharConcat(a + b, c, '\\', '/');
    ReplaceCharConcat(a, b, '\\', '/');
  }

  /** The two fixed pieces of the output location, with slashes. */
  lemma SlashedLiterals()
    ensures ReplaceChar("\\output", '\\', '/') == "/" + "output"
    ensures ReplaceChar("/composited-clip-", '\\', '/') == "/composited-clip-"
  {
    assert "\\output"[1..] == "output";
    assert '\\' !in "output";
    ReplaceCharAbsent("output", '\\', '/');
    assert '\\' !in "/composited-clip-";
    ReplaceCharAbsent("/composited-clip-", '\\', '/');
  }

  /** Clips with backslash-free ids are written under the same data location
      to the same directory only when they are the same clip id. */
  lemma GetOutputLocationDeterminesClip(c1: CompositedClip, c2: CompositedClip, dataLocation: string)
    requires '\\' !in c1.id && '\\' !in c2.id
    requires GetOutputLocation(c1, dataLocation) == GetOutputLocation(c2, dataLocation)
    ensures c1.id == c2.id
  {
    var s1, s2 := GetOutputLocation(c1, dataLocation), GetOutputLocation(c2, dataLocation);
    var n := |ReplaceChar(dataLocation, '\\', '/') + "/output" + "/composited-clip-"|;
    assert s1[n..] == ReplaceChar(c1.id, '\\', '/');
    assert s2[n..] == ReplaceChar(c2.id, '\\', '/');
    ReplaceCharAbsent(c1.id, '\\', '/');
    ReplaceCharAbsent(c2.id, '\\', '/');
  }

  /** `CompositedClip::get_output_location_template`. */
  function GetOutputLocationTemplate(clip: CompositedClip, dataLocation: string): (s: string)
    ensures s == GetOutputLocation(clip, dataLocation) + "/segment%06d.mp4"
  {
    GetOutputLocation(clip, dataLocation) + "/segment%0" + NatToString(CHUNK_FILENAME_NUMBER_LENGTH) + "d.mp4"
  }
}
