/** The state changes of the Rust client's preview threads
    (client/src-tauri/src/video_preview_handler_thread.rs): the sweeps both
    thread loops make under the lock, the scan for the run of chunks to ask
    the server for, and the record updates on the server's replies. The
    sockets, files and sleeps around them are not modelled. */
module PreviewHandler {
  import opened Wrappers
  import opened PreviewState

  /** The whole table swept: every Data record's chunks in status from move
      to status to. */
  function SweptTable(m: map<ClipId, VideoPreviewStatus>, from: ChunkStatus, to: ChunkStatus): (r: map<ClipId, VideoPreviewStatus>)
    ensures r.Keys == m.Keys
  {
    map k | k in m :: SweptStatus(m[k], from, to)
  }

  /** No chunk of any clip is left in the swept-from status; nothing else
      changes; sweeping again changes nothing. */
  lemma SweptTableProperties(m: map<ClipId, VideoPreviewStatus>, from: ChunkStatus, to: ChunkStatus)
    requires from != to
    ensures var r := SweptTable(m, from, to);
            (forall k :: k in r && r[k].Data? ==> from !in r[k].chunks)
            && (forall k :: k in m && !m[k].Data? ==> r[k] == m[k])
            && (forall k :: k in m && m[k].Data? ==>
                  r[k].Data? && r[k].duration == m[k].duration
                  && r[k].codec == m[k].codec && r[k].isVideo == m[k].isVideo && |r[k].chunks| == |m[k].chunks|
                  && forall j :: 0 <= j < |m[k].chunks| ==> r[k].chunks[j] == if m[k].chunks[j] == from then to else m[k].chunks[j])
            && SweptTable(r, from, to) == r
  {
    var r := SweptTable(m, from, to);
    forall k | k in m && m[k].Data?
      ensures from !in r[k].chunks && SweptStatus(r[k], from, to) == r[k]
    {
      SweptProperties(m[k].chunks, from, to);
    }
    SweptTableIdempotent(m, from, to);
  }

  /** Sweeping a swept table again changes nothing. */
  lemma SweptTableIdempotent(m: map<ClipId, VideoPreviewStatus>, from: ChunkStatus, to: ChunkStatus)
    requires from != to
    ensures SweptTable(SweptTable(m, from, to), from, to) == SweptTable(m, from, to)
  {
    var r := SweptTable(m, from, to);
    forall k | k in m && m[k].Data?
      ensures SweptStatus(r[k], from, to) == r[k]
    {
      SweptProperties(m[k].chunks, from, to);
    }
    assert SweptTable(r, from, to) == r;
  }

  /** One Data record's chunks swept in place (the inner `for status in
      data` loop). */
  method SweepChunks(chunks: seq<ChunkStatus>, from: ChunkStatus, to: ChunkStatus) returns (r: seq<ChunkStatus>, hit: bool)
    ensures r == Swept(chunks, from, to)
    ensures hit <==> from in chunks
  {
    r := chunks;
    hit := false;
    for i := 0 to |chunks|
      invariant |r| == |chunks|
      invariant forall j :: 0 <= j < |r| ==> r[j] == if j < i && chunks[j] == from then to else chunks[j]
      invariant hit <==> from in chunks[..i]
    {
      assert chunks[..i + 1] == chunks[..i] + [chunks[i]];
      if r[i] == from {
        r := r[i := to];
        hit := true;
      }
    }
    assert chunks[..|chunks|] == chunks;
    assert r == Swept(chunks, from, to);
  }

  /** The sweep at the top of `video_preview_handler_thread`: every
      Requested chunk becomes Generating. */
  method HandlerSweep(state: SharedState)
    modifies state
    ensures state.videoPreviewData == SweptTable(old(state.videoPreviewData), Requested, Generating)
  {
    var ids := SweepTable(state, Requested, Generating);
  }

  /** The sweep at the top of `video_previewer_downloader_thread`: every
      Generated chunk becomes Downloading, and each clip that had one is
      listed once. */
  method DownloaderSweep(state: SharedState) returns (clipIds: seq<ClipId>)
    modifies state
    ensures state.videoPreviewData == SweptTable(old(state.videoPreviewData), Generated, Downloading)
    ensures forall id :: id in clipIds <==> HasChunk(old(state.videoPreviewData), id, Generated)
    ensures Distinct(clipIds)
  {
    clipIds := SweepTable(state, Generated, Downloading);
  }

  predicate HasChunk(m: map<ClipId, VideoPreviewStatus>, id: ClipId, status: ChunkStatus) {
    id in m && m[id].Data? && status in m[id].chunks
  }

  predicate Distinct(ids: seq<ClipId>) {
    forall i, j :: 0 <= i < j < |ids| ==> ids[i] != ids[j]
  }

  /** The `iter_mut` loop shared by both sweeps, over the table in its
      (unspecified) iteration order; the ids of the clips that had a chunk
      to move, each once, in that order. */
  method SweepTable(state: SharedState, from: ChunkStatus, to: ChunkStatus) returns (clipIds: seq<ClipId>)
    modifies state
    ensures state.videoPreviewData == SweptTable(old(state.videoPreviewData), from, to)
    ensures forall id :: id in clipIds <==> HasChunk(old(state.videoPreviewData), id, from)
    ensures Distinct(clipIds)
  {
    var table;
    table, clipIds := SweepEntries(state.videoPreviewData, from, to);
    state.videoPreviewData := table;
  }

  /** The loop itself, on the table's contents. */
  method SweepEntries(start: map<ClipId, VideoPreviewStatus>, from: ChunkStatus, to: ChunkStatus) returns (table: map<ClipId, VideoPreviewStatus>, clipIds: seq<ClipId>)
    ensures table == SweptTable(start, from, to)
    ensures forall id :: id in clipIds <==> HasChunk(start, id, from)
    ensures Distinct(clipIds)
  {
    table := start;
    var remaining := start.Keys;
    clipIds := [];
    PartlySweptNone(start, from, to);
    while remaining != {}
      invariant remaining <= start.Keys
      invariant table == PartlySwept(start, remaining, from, to)
      invariant forall id :: id in clipIds <==> id !in remaining && HasChunk(start, id, from)
      invariant Distinct(clipIds)
      decreases |remaining|
    {
      var id :| id in remaining;
      table, clipIds := SweepEntry(start, remaining, from, to, table, clipIds, id);
      remaining := remaining - {id};
    }
    PartlySweptAll(start, from, to);
  }

  /** One pass of the loop: clip id swept, and listed when it had a chunk
      to move. */
  method SweepEntry(start: map<ClipId, VideoPreviewStatus>, remaining: set<ClipId>, from: ChunkStatus, to: ChunkStatus,
                    table: map<ClipId, VideoPreviewStatus>, clipIds: seq<ClipId>, id: ClipId)
    returns (table': map<ClipId, VideoPreviewStatus>, clipIds': seq<ClipId>)
    requires id in remaining && remaining <= start.Keys
    requires table == PartlySwept(start, remaining, from, to)
    requires forall x :: x in clipIds <==> x !in remaining && HasChunk(start, x, from)
    requires Distinct(clipIds)
    ensures table' == PartlySwept(start, remaining - {id}, from, to)
    ensures forall x :: x in clipIds' <==> x !in remaining - {id} && HasChunk(start, x, from)
    ensures Distinct(clipIds')
  {
    var status := table[id];
    PartlySweptStep(start, remaining, from, to, id);
    table', clipIds' := table, clipIds;
    if status.Data? {
      var chunks, hit := SweepChunks(status.chunks, from, to);
      table' := table[id := status.(chunks := chunks)];
      if hit {
        AppendKeepsDistinct(clipIds, id);
        clipIds' := clipIds + [id];
      }
    }
  }

  /** The table with the clips in rest not yet swept. */
  ghost function PartlySwept(m: map<ClipId, VideoPreviewStatus>, rest: set<ClipId>, from: ChunkStatus, to: ChunkStatus): map<ClipId, VideoPreviewStatus> {
    map k | k in m :: if k in rest then m[k] else SweptStatus(m[k], from, to)
  }

  lemma PartlySweptNone(m: map<ClipId, VideoPreviewStatus>, from: ChunkStatus, to: ChunkStatus)
    ensures PartlySwept(m, m.Keys, from, to) == m
  {
  }

  lemma PartlySweptAll(m: map<ClipId, VideoPreviewStatus>, from: ChunkStatus, to: ChunkStatus)
    ensures PartlySwept(m, {}, from, to) == SweptTable(m, from, to)
  {
  }

  /** Sweeping one more clip of the partly swept table. */
  lemma PartlySweptStep(m: map<ClipId, VideoPreviewStatus>, rest: set<ClipId>, from: ChunkStatus, to: ChunkStatus, id: ClipId)
    requires id in rest && rest <= m.Keys
    ensures PartlySwept(m, rest, from, to)[id] == m[id]
    ensures PartlySwept(m, rest, from, to)[id := SweptStatus(m[id], from, to)] == PartlySwept(m, rest - {id}, from, to)
  {
  }

  lemma AppendKeepsDistinct(ids: seq<ClipId>, id: ClipId)
    requires Distinct(ids) && id !in ids
    ensures Distinct(ids + [id])
  {
  }

  /** The scan in `video_preview_data`: the first run of consecutive
      Generating chunks, as its first and last index; None when there is no
      Generating chunk. */
  method GeneratingRun(data: seq<ChunkStatus>) returns (startChunk: Option<nat>, endChunk: Option<nat>)
    ensures startChunk.Some? <==> Generating in data
    ensures startChunk.Some? <==> endChunk.Some?
    ensures startChunk.Some? ==>
              startChunk.value <= endChunk.value < |data|
              && Generating !in data[..startChunk.value]
              && (forall j :: startChunk.value <= j <= endChunk.value ==> data[j] == Generating)
              && (endChunk.value + 1 == |data| || data[endChunk.value + 1] != Generating)
  {
    startChunk, endChunk := None, None;
    var i := 0;
    while i < |data|
      invariant 0 <= i <= |data|
      invariant startChunk.Some? <==> endChunk.Some?
      invariant startChunk.None? ==> Generating !in data[..i]
      invariant startChunk.Some? ==>
                  startChunk.value <= endChunk.value == i - 1
                  && Generating !in data[..startChunk.value]
                  && (forall j :: startChunk.value <= j <= endChunk.value ==> data[j] == Generating)
    {
      assert data[..i + 1] == data[..i] + [data[i]];
      if data[i] == Generating {
        if startChunk.None? {
          startChunk := Some(i);
        }
        endChunk := Some(i);
      } else {
        if startChunk.Some? {
          break;
        }
      }
      i := i + 1;
    }
    if startChunk.None? {
      assert data[..|data|] == data;
    } else {
      assert data[startChunk.value] in data;
    }
  }

  /** `Data` for a length reply: n chunks, none requested, codec not yet
      known, not yet known to be video. */
  function LengthReplyStatus(duration: nat, numberOfChunks: nat): (s: VideoPreviewStatus)
    ensures s.Data? && s.duration == duration && s.codec == None && !s.isVideo
    ensures |s.chunks| == numberOfChunks && forall i :: 0 <= i < numberOfChunks ==> s.chunks[i] == NotRequested
  {
    Data(duration, None, false, seq(numberOfChunks, _ => NotRequested))
  }

  /** The length reply of `video_preview_length_requested`: the record for id
      is the fresh Data record, whatever was there. */
  method OnLengthReply(state: SharedState, id: ClipId, duration: nat, numberOfChunks: nat)
    modifies state
    ensures state.videoPreviewData == old(state.videoPreviewData)[id := LengthReplyStatus(duration, numberOfChunks)]
  {
    state.videoPreviewData := state.videoPreviewData[id := LengthReplyStatus(duration, numberOfChunks)];
  }

  /** The record on a `NewChunk` reply: chunk chunkId of a Data record is
      Generated; any other record is left as it is. */
  function NewChunkStatus(s: VideoPreviewStatus, chunkId: nat): (r: VideoPreviewStatus)
    requires s.Data? ==> chunkId < |s.chunks|
    ensures !s.Data? ==> r == s
    ensures s.Data? ==> r.Data? && r.duration == s.duration && r.codec == s.codec && r.isVideo == s.isVideo
    ensures s.Data? ==> |r.chunks| == |s.chunks| && r.chunks[chunkId] == Generated
                         && forall i :: 0 <= i < |s.chunks| && i != chunkId ==> r.chunks[i] == s.chunks[i]
  {
    if s.Data? then s.(chunks := s.chunks[chunkId := Generated]) else s
  }

  /** A `NewChunk` reply. The source unwraps the record for id, and indexes
      the chunk even after logging that it is out of range, so both are
      required here. */
  method OnNewChunk(state: SharedState, id: ClipId, chunkId: nat)
    requires id in state.videoPreviewData
    requires state.videoPreviewData[id].Data? ==> chunkId < |state.videoPreviewData[id].chunks|
    modifies state
    ensures state.videoPreviewData == old(state.videoPreviewData)[id := NewChunkStatus(old(state.videoPreviewData)[id], chunkId)]
  {
    var entry := state.videoPreviewData[id];
    if entry.Data? {
      entry := entry.(chunks := entry.chunks[chunkId := Generated]);
      state.videoPreviewData := state.videoPreviewData[id := entry];
    }
  }

  /** The record after chunk i was downloaded: it is Downloaded, and when no
      codec was known the probe's codec string and video flag (if the probe
      succeeded) are filled in. */
  function DownloadedStatus(s: VideoPreviewStatus, i: nat, probe: Option<(string, bool)>): (r: VideoPreviewStatus)
    requires s.Data? ==> i < |s.chunks|
    ensures !s.Data? ==> r == s
    ensures s.Data? ==> r.Data? && r.duration == s.duration && |r.chunks| == |s.chunks| && r.chunks[i] == Downloaded
                         && (forall j :: 0 <= j < |s.chunks| && j != i ==> r.chunks[j] == s.chunks[j])
    ensures s.Data? && (s.codec.Some? || probe.None?) ==> r.codec == s.codec && r.isVideo == s.isVideo
    ensures s.Data? && s.codec.None? && probe.Some? ==> r.codec == Some(probe.value.0) && r.isVideo == probe.value.1
  {
    if !s.Data? then s
    else
      var chunks := s.chunks[i := Downloaded];
      if s.codec.None? && probe.Some? then Data(s.duration, Some(probe.value.0), probe.value.1, chunks)
      else s.(chunks := chunks)
  }

  /** A later download never replaces a known codec. */
  lemma CodecSetOnce(s: VideoPreviewStatus, i: nat, j: nat, p: Option<(string, bool)>, q: Option<(string, bool)>)
    requires s.Data? && i < |s.chunks| && j < |s.chunks|
    ensures var once := DownloadedStatus(s, i, p);
            var twice := DownloadedStatus(once, j, q);
            once.codec.Some? ==> twice.codec == once.codec && twice.isVideo == once.isVideo
  {
  }

  /** A completed download of chunk i of clip id. The source unwraps the
      record and indexes the chunk, so both are required. The codec probe
      (GStreamer's discoverer on the downloaded file) is a parameter. */
  method OnChunkDownloaded(state: SharedState, id: ClipId, i: nat, probe: Option<(string, bool)>)
    requires id in state.videoPreviewData
    requires state.videoPreviewData[id].Data? ==> i < |state.videoPreviewData[id].chunks|
    modifies state
    ensures state.videoPreviewData == old(state.videoPreviewData)[id := DownloadedStatus(old(state.videoPreviewData)[id], i, probe)]
  {
    var existing := state.videoPreviewData[id];
    if existing.Data? {
      var duration, codec, isVideo, data := existing.duration, existing.codec, existing.isVideo, existing.chunks;
      data := data[i := Downloaded];
      if codec.None? {
        if probe.Some? {
          codec := Some(probe.value.0);
          isVideo := probe.value.1;
        }
      }
      state.videoPreviewData := state.videoPreviewData[id := Data(duration, codec, isVideo, data)];
    }
  }
}
