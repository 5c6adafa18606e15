/** The segment preview buffer of the front end
    (client/src/components/VideoPreview.tsx). It keeps a copy of the Rust
    client's preview table, adds its own `Loaded` status for chunks already
    appended to the media source, decides which chunks to request or load
    next, and resets the chunks when the selected clip changes. The media
    source, the lock and the file reads are abstracted: each method is one
    locked section, run to completion, and whether an append completes is a
    parameter. */
module VideoPreviews {
  import opened Wrappers
  import opened Text
  import Remote = PreviewState

  /** The length in seconds of each chunk. */
  const CHUNK_LENGTH: nat := 1

  /** The front end's chunk statuses: the Rust ones and `Loaded`. */
  datatype Chunk = NotRequested | Requested | Generating | Generated | Downloading | Downloaded | Loaded

  /** The front end's record of one clip. */
  datatype ClipStatus =
    | ClipNotRequested
    | LengthRequested
    | ClipData(duration: nat, codec: Option<string>, isVideo: bool, chunkData: seq<Chunk>)

  /** What one update asks for: nothing, the generation of the chunks
      [start, end], or appending one downloaded chunk. */
  datatype Decision = Idle | Request(start: nat, end: nat) | Load(segment: nat)

  /** An incoming status read as a front-end status; the Rust side never
      reports `Loaded`, and different statuses stay different. */
  function FromRemote(c: Remote.ChunkStatus): (r: Chunk)
    ensures r != Loaded
  {
    match c
    case NotRequested => NotRequested
    case Requested => Requested
    case Generating => Generating
    case Generated => Generated
    case Downloading => Downloading
    case Downloaded => Downloaded
  }

  /** Different incoming statuses stay different. */
  lemma FromRemoteInjective(c: Remote.ChunkStatus, d: Remote.ChunkStatus)
    requires FromRemote(c) == FromRemote(d)
    ensures c == d
  {
  }

  /** An incoming record as it is stored when nothing is merged: the two
      sentinels verbatim, and a `Data` record with its chunk list as sent. */
  function Received(v: Remote.VideoPreviewStatus): (r: ClipStatus)
    ensures v.ClipNotRequested? <==> r.ClipNotRequested?
    ensures v.LengthRequested? <==> r.LengthRequested?
    ensures v.Data? <==> r.ClipData?
    ensures v.Data? ==> (r.duration == v.duration && r.codec == v.codec && r.isVideo == v.isVideo
                         && |r.chunkData| == |v.chunks|
                         && forall i :: 0 <= i < |v.chunks| ==> r.chunkData[i] == FromRemote(v.chunks[i]))
    ensures r.ClipData? ==> Loaded !in r.chunkData
  {
    match v
    case ClipNotRequested => ClipNotRequested
    case LengthRequested => LengthRequested
    case Data(duration, codec, isVideo, chunks) =>
      ClipData(duration, codec, isVideo, seq(|chunks|, i requires 0 <= i < |chunks| => FromRemote(chunks[i])))
  }

  /** The local record, if the table has one. */
  function Lookup(m: map<string, ClipStatus>, k: string): Option<ClipStatus> {
    if k in m then Some(m[k]) else None
  }

  /** An incoming `Data` record replaces the local one wholesale when there is
      no local record, the local one is a sentinel, or the chunk count, the
      codec or the video flag differ. */
  predicate Replaces(existing: Option<ClipStatus>, v: Remote.VideoPreviewStatus)
    requires v.Data?
  {
    existing.None? || !existing.value.ClipData?
    || |existing.value.chunkData| != |v.chunks|
    || existing.value.codec != v.codec || existing.value.isVideo != v.isVideo
  }

  /** The per-chunk merge: every incoming status overwrites the local one,
      except that a local `Loaded` is kept against an incoming `Downloaded`. */
  function Merged(local: seq<Chunk>, remote: seq<Remote.ChunkStatus>): (r: seq<Chunk>)
    requires |local| == |remote|
    ensures |r| == |remote|
    ensures forall i :: 0 <= i < |r| ==> r[i] == if local[i] == Loaded && remote[i].Downloaded? then Loaded else FromRemote(remote[i])
  {
    seq(|local|, i requires 0 <= i < |local| => if local[i] == Loaded && remote[i].Downloaded? then Loaded else FromRemote(remote[i]))
  }

  /** The record kept for one incoming entry. */
  function ReconcileEntry(existing: Option<ClipStatus>, v: Remote.VideoPreviewStatus): ClipStatus {
    if !v.Data? || Replaces(existing, v) then Received(v)
    else existing.value.(chunkData := Merged(existing.value.chunkData, v.chunks))
  }

  /** The local table after a snapshot from the Rust side. */
  function Reconciled(local: map<string, ClipStatus>, data: map<string, Remote.VideoPreviewStatus>): (r: map<string, ClipStatus>)
    ensures r.Keys == data.Keys
  {
    map k | k in data :: ReconcileEntry(Lookup(local, k), data[k])
  }

  /** Whether the snapshot replaces the record of the selected clip, which
      makes the player reset. */
  predicate Refreshes(local: map<string, ClipStatus>, data: map<string, Remote.VideoPreviewStatus>, clip: Option<string>) {
    clip.Some? && clip.value in data && data[clip.value].Data? && Replaces(Lookup(local, clip.value), data[clip.value])
  }

  /** After a snapshot the table holds exactly the snapshot's clips; sentinels
      and replaced records are as sent; a merged record keeps its local
      duration, takes the incoming codec and flag, and keeps each local
      `Loaded` against an incoming `Downloaded` while taking every other
      incoming status. */
  lemma ReconciledEntries(local: map<string, ClipStatus>, data: map<string, Remote.VideoPreviewStatus>, k: string)
    requires k in data
    ensures var r := Reconciled(local, data);
            k in r
            && (!data[k].Data? ==> r[k] == Received(data[k]))
            && (data[k].Data? && Replaces(Lookup(local, k), data[k]) ==> r[k] == Received(data[k]))
            && (data[k].Data? && !Replaces(Lookup(local, k), data[k]) ==>
                  (k in local && r[k].ClipData?
                   && r[k].duration == local[k].duration
                   && r[k].codec == data[k].codec && r[k].isVideo == data[k].isVideo
                   && |r[k].chunkData| == |data[k].chunks|
                   && (forall i :: 0 <= i < |r[k].chunkData| ==>
                         (r[k].chunkData[i] == Loaded <==> local[k].chunkData[i] == Loaded && data[k].chunks[i].Downloaded?))
                   && (forall i :: 0 <= i < |r[k].chunkData| && !(local[k].chunkData[i] == Loaded && data[k].chunks[i].Downloaded?) ==>
                         r[k].chunkData[i] == FromRemote(data[k].chunks[i]))))
  {
  }

  /** Reading a snapshot a second time keeps every record as the first read
      left it. */
  lemma ReconcileEntryIdempotent(existing: Option<ClipStatus>, v: Remote.VideoPreviewStatus)
    ensures ReconcileEntry(Some(ReconcileEntry(existing, v)), v) == ReconcileEntry(existing, v)
  {
    var r := ReconcileEntry(existing, v);
    if v.Data? {
      assert !Replaces(Some(r), v);
      var m := Merged(r.chunkData, v.chunks);
      assert m == r.chunkData by {
        forall i | 0 <= i < |m|
          ensures m[i] == r.chunkData[i]
        {
          if !Replaces(existing, v) {
            assert r.chunkData[i] == Merged(existing.value.chunkData, v.chunks)[i];
          }
        }
      }
    }
  }

  /** Applying the same snapshot twice gives the same table as applying it
      once. */
  lemma ReconciledIdempotent(local: map<string, ClipStatus>, data: map<string, Remote.VideoPreviewStatus>)
    ensures Reconciled(Reconciled(local, data), data) == Reconciled(local, data)
  {
    var r := Reconciled(local, data);
    forall k | k in data
      ensures Reconciled(r, data)[k] == r[k]
    {
      ReconcileEntryIdempotent(Lookup(local, k), data[k]);
    }
  }

  /** A table that agrees with the reconciliation at every key is the
      reconciled table. */
  lemma ReconciledByEntries(local: map<string, ClipStatus>, data: map<string, Remote.VideoPreviewStatus>, table: map<string, ClipStatus>)
    requires table.Keys == data.Keys
    requires forall k :: k in data ==> table[k] == ReconcileEntry(Lookup(local, k), data[k])
    ensures table == Reconciled(local, data)
  {
  }

  /** The per-index merge loop of one record. */
  method MergeChunks(local: seq<Chunk>, remote: seq<Remote.ChunkStatus>) returns (r: seq<Chunk>)
    requires |local| == |remote|
    ensures r == Merged(local, remote)
  {
    r := local;
    for i := 0 to |r|
      invariant |r| == |local|
      invariant forall j :: 0 <= j < i ==> r[j] == Merged(local, remote)[j]
      invariant forall j :: i <= j < |r| ==> r[j] == local[j]
    {
      if !(r[i] == Loaded && remote[i].Downloaded?) {
        r := r[i := FromRemote(remote[i])];
      }
    }
  }

  /** The chunk the time falls in. */
  function Segment(time: real): (r: int)
    ensures r as real * CHUNK_LENGTH as real <= time < (r + 1) as real * CHUNK_LENGTH as real
  {
    (time / CHUNK_LENGTH as real).Floor
  }

  /** The last chunk of the look-ahead window that starts at chunk current:
      ten chunks on, or the last chunk when the clip ends sooner; nothing when
      current is past the end. */
  function WindowEnd(current: int, len: nat): (r: Option<int>)
    ensures r.None? <==> current >= len
    ensures r.Some? ==> current <= r.value <= current + 10 && r.value < len
    ensures r.Some? ==> (r.value == current + 10 || r.value == len - 1)
  {
    if len <= current + 10 then (if current > len - 1 then None else Some(len - 1))
    else Some(current + 10)
  }

  /** The first chunk in [from, end] that is not `Loaded`. */
  function FirstNotLoaded(chunks: seq<Chunk>, from: nat, end: int): (r: Option<nat>)
    requires end < |chunks|
    ensures r.Some? ==> (from <= r.value <= end && chunks[r.value] != Loaded
                         && forall j :: from <= j < r.value ==> chunks[j] == Loaded)
    ensures r.None? ==> forall j :: from <= j <= end ==> chunks[j] == Loaded
    decreases end + 1 - from
  {
    if from > end then None
    else if chunks[from] != Loaded then Some(from)
    else FirstNotLoaded(chunks, from + 1, end)
  }

  /** What an update at the given time asks for. The first chunk of the
      window from chunk 0 on that is not `Loaded` decides: if it is not
      downloaded, the range from it to the window's end is requested;
      otherwise it alone is loaded, when there is a source buffer. */
  function Plan(chunks: seq<Chunk>, time: real, hasBuffer: bool): (d: Decision)
    ensures d.Request? ==> (WindowEnd(Segment(time), |chunks|) == Some(d.end as int)
                            && d.start <= d.end && chunks[d.start] != Loaded && chunks[d.start] != Downloaded
                            && forall j :: 0 <= j < d.start ==> chunks[j] == Loaded)
    ensures d.Load? ==> (hasBuffer && WindowEnd(Segment(time), |chunks|).Some?
                         && d.segment <= WindowEnd(Segment(time), |chunks|).value
                         && chunks[d.segment] == Downloaded
                         && forall j :: 0 <= j < d.segment ==> chunks[j] == Loaded)
    ensures d.Idle? ==> (WindowEnd(Segment(time), |chunks|).None?
                         || FirstNotLoaded(chunks, 0, WindowEnd(Segment(time), |chunks|).value).None?
                         || (!hasBuffer && chunks[FirstNotLoaded(chunks, 0, WindowEnd(Segment(time), |chunks|).value).value] == Downloaded))
  {
    var end := WindowEnd(Segment(time), |chunks|);
    if end.None? then Idle
    else match FirstNotLoaded(chunks, 0, end.value)
      case None => Idle
      case Some(i) =>
        if chunks[i] != Downloaded then Request(i, end.value as nat)
        else if !hasBuffer then Idle
        else Load(i)
  }

  /** Nothing is requested or loaded when the time is past the clip's last
      chunk. */
  lemma PlanPastEnd(chunks: seq<Chunk>, time: real, hasBuffer: bool)
    requires Segment(time) >= |chunks|
    ensures Plan(chunks, time, hasBuffer) == Idle
  {
  }

  /** The scan of `videoUpdate`: from chunk 0 to the window's end, stopping
      at the first chunk that is not `Loaded`. */
  method Schedule(chunks: seq<Chunk>, time: real, hasBuffer: bool) returns (d: Decision)
    ensures d == Plan(chunks, time, hasBuffer)
  {
    var current := Segment(time);
    var next := current + 10;
    if |chunks| <= next {
      next := |chunks| - 1;
      if current > next {
        return Idle;
      }
    }
    var segment: nat := 0;
    while segment <= next
      invariant WindowEnd(current, |chunks|) == Some(next)
      invariant FirstNotLoaded(chunks, segment, next) == FirstNotLoaded(chunks, 0, next)
      decreases next + 1 - segment
    {
      if chunks[segment] != Loaded {
        if chunks[segment] != Downloaded {
          return Request(segment, next as nat);
        }
        if !hasBuffer {
          return Idle;
        }
        return Load(segment);
      }
      segment := segment + 1;
    }
    return Idle;
  }

  /** The table after loading segment of clip completed: that chunk becomes
      `Loaded`; a missing clip, a sentinel or an index past the end leave
      the table as it is. */
  function AfterLoad(m: map<string, ClipStatus>, clip: string, segment: nat): (r: map<string, ClipStatus>)
    ensures r.Keys == m.Keys
    ensures forall k :: k in m && k != clip ==> r[k] == m[k]
  {
    if clip in m && m[clip].ClipData? && segment < |m[clip].chunkData|
    then m[clip := m[clip].(chunkData := m[clip].chunkData[segment := Loaded])]
    else m
  }

  /** A load marks exactly one chunk of one clip `Loaded` and changes nothing
      else. */
  lemma LoadEffect(m: map<string, ClipStatus>, clip: string, segment: nat)
    ensures var r := AfterLoad(m, clip, segment);
            r.Keys == m.Keys
            && (forall k :: k in m && k != clip ==> r[k] == m[k])
            && (clip in m && !m[clip].ClipData? ==> r[clip] == m[clip])
            && (clip in m && m[clip].ClipData? ==>
                  (r[clip].ClipData? && r[clip].duration == m[clip].duration && r[clip].codec == m[clip].codec
                   && r[clip].isVideo == m[clip].isVideo && |r[clip].chunkData| == |m[clip].chunkData|
                   && (forall j :: 0 <= j < |m[clip].chunkData| && j != segment ==> r[clip].chunkData[j] == m[clip].chunkData[j])
                   && (segment < |m[clip].chunkData| ==> r[clip].chunkData[segment] == Loaded)))
  {
  }

  /** The chunk file of a segment: the directory, `\segment`, the segment
      number zero-padded to six digits (a longer number is written as it is,
      without a leading zero), and `.ts`. */
  function ChunkFileName(directory: string, segment: nat): (r: string)
    ensures StartsWith(r, directory + "\\segment")
    ensures |r| >= |directory| + 17 && r[|r| - 3..] == ".ts"
    ensures var number := r[|directory| + 8..|r| - 3];
            |number| >= 6 && AllDigits(number) && DigitsValue(number) == segment
            && (|number| == 6 || number[0] != '0')
  {
    var number := PadStart(NatToString(segment), 6, '0');
    ZeroPaddedValue(segment, 6);
    var r := directory + "\\segment" + number + ".ts";
    assert r[..|directory| + 8] == directory + "\\segment";
    assert r[|directory| + 8..|r| - 3] == number;
    assert r[|r| - 3..] == ".ts";
    r
  }

  /** Within one directory, the file name determines the segment. */
  lemma ChunkFileNameDetermines(directory: string, a: nat, b: nat)
    requires ChunkFileName(directory, a) == ChunkFileName(directory, b)
    ensures a == b
  {
    var na := ChunkFileName(directory, a);
    var pa := PadStart(NatToString(a), 6, '0');
    var pb := PadStart(NatToString(b), 6, '0');
    var n := |directory| + 8;
    assert na[n..|na| - 3] == pa;
    assert ChunkFileName(directory, b)[n..|na| - 3] == pb;
    ZeroPaddedInjective(a, b, 6);
  }

  /** The directory of a composited clip's chunks. */
  function ClipDirectory(outputDirectory: string, clip: string): (r: string)
    ensures StartsWith(r, outputDirectory + "\\composited-clip-")
    ensures |r| == |outputDirectory| + 17 + |clip| && r[|r| - |clip|..] == clip
  {
    outputDirectory + "\\composited-clip-" + clip
  }

  /** Every `Loaded` chunk goes back to `Downloaded`; nothing else changes. */
  function Demoted(chunks: seq<Chunk>): (r: seq<Chunk>)
    ensures |r| == |chunks|
    ensures forall i :: 0 <= i < |r| ==> r[i] == if chunks[i] == Loaded then Downloaded else chunks[i]
  {
    seq(|chunks|, i requires 0 <= i < |chunks| => if chunks[i] == Loaded then Downloaded else chunks[i])
  }

  /** After a demotion nothing is `Loaded`, a second demotion changes
      nothing, and a record as the Rust side sent it is left as it is. */
  lemma DemotedProperties(chunks: seq<Chunk>)
    ensures Loaded !in Demoted(chunks)
    ensures Demoted(Demoted(chunks)) == Demoted(chunks)
    ensures Loaded !in chunks ==> Demoted(chunks) == chunks
  {
    var r := Demoted(chunks);
    assert forall c :: c in r ==> c != Loaded by {
      forall c | c in r
        ensures c != Loaded
      {
        var i :| 0 <= i < |r| && r[i] == c;
      }
    }
    if Loaded !in chunks {
      assert forall i :: 0 <= i < |chunks| ==> chunks[i] != Loaded;
    }
  }

  /** The in-place demotion loop. */
  method Demote(chunks: seq<Chunk>) returns (r: seq<Chunk>)
    ensures r == Demoted(chunks)
  {
    r := chunks;
    for i := 0 to |r|
      invariant |r| == |chunks|
      invariant forall j :: 0 <= j < i ==> r[j] == Demoted(chunks)[j]
      invariant forall j :: i <= j < |r| ==> r[j] == chunks[j]
    {
      if r[i] == Loaded {
        r := r[i := Downloaded];
      }
    }
  }

  /** The table after the selected clip changes away from previous: the
      previous clip's chunks are demoted. */
  function AfterClipChange(m: map<string, ClipStatus>, previous: Option<string>): (r: map<string, ClipStatus>)
    ensures r.Keys == m.Keys
  {
    if previous.Some? && previous.value in m && m[previous.value].ClipData?
    then m[previous.value := m[previous.value].(chunkData := Demoted(m[previous.value].chunkData))]
    else m
  }

  /** On a clip change only the previous clip's `Loaded` chunks change, each
      to `Downloaded`. */
  lemma ClipChangeEffect(m: map<string, ClipStatus>, previous: Option<string>)
    ensures var r := AfterClipChange(m, previous);
            r.Keys == m.Keys
            && (forall k :: k in m && previous != Some(k) ==> r[k] == m[k])
            && (forall k :: k in m && !m[k].ClipData? ==> r[k] == m[k])
            && (forall k :: k in m && m[k].ClipData? ==>
                  (r[k].ClipData? && r[k].duration == m[k].duration && r[k].codec == m[k].codec
                   && r[k].isVideo == m[k].isVideo && |r[k].chunkData| == |m[k].chunkData|
                   && (forall j :: 0 <= j < |m[k].chunkData| && m[k].chunkData[j] != Loaded ==> r[k].chunkData[j] == m[k].chunkData[j])
                   && (previous == Some(k) ==> Loaded !in r[k].chunkData)
                   && (previous == Some(k) ==> forall j :: 0 <= j < |m[k].chunkData| && m[k].chunkData[j] == Loaded ==> r[k].chunkData[j] == Downloaded)))
  {
    if previous.Some? && previous.value in m && m[previous.value].ClipData? {
      DemotedProperties(m[previous.value].chunkData);
    }
  }

  /** A codec the player can make a source buffer for: present, not empty,
      and not an error report. */
  predicate CodecUsable(codec: Option<string>) {
    codec.Some? && codec.value != "" && !StartsWith(codec.value, "ERROR")
  }

  /** Whether a source buffer is made for clip. */
  predicate SetsUp(m: map<string, ClipStatus>, clip: string) {
    clip in m && m[clip].ClipData? && CodecUsable(m[clip].codec)
  }

  /** A selected clip id is a non-empty string. */
  predicate Selected(clip: Option<string>) {
    clip.Some? && clip.value != ""
  }

  /** The table after a decision ran: a load of the selected clip that was
      appended marks its chunk; anything else leaves the table. */
  function AfterUpdate(m: map<string, ClipStatus>, clip: Option<string>, d: Decision, appended: bool): map<string, ClipStatus> {
    if d.Load? && appended && clip.Some? then AfterLoad(m, clip.value, d.segment) else m
  }

  /** The source buffer's timestamp offset after a decision ran: a load
      moves it to the start of the loaded segment. */
  function OffsetAfter(offset: int, d: Decision): int {
    if d.Load? then d.segment * CHUNK_LENGTH else offset
  }

  /** What `videoUpdate` asks for: nothing without a selected clip that has
      data, otherwise the plan for its chunks. */
  function PlannedUpdate(m: map<string, ClipStatus>, clip: Option<string>, time: real, hasBuffer: bool): (d: Decision)
    ensures !Selected(clip) || clip.value !in m || !m[clip.value].ClipData? ==> d == Idle
    ensures d.Load? ==> (Selected(clip) && clip.value in m && m[clip.value].ClipData?
                         && d.segment < |m[clip.value].chunkData| && m[clip.value].chunkData[d.segment] == Downloaded)
    ensures d.Request? ==> (Selected(clip) && clip.value in m && m[clip.value].ClipData?
                            && d.start <= d.end < |m[clip.value].chunkData|
                            && m[clip.value].chunkData[d.start] != Loaded && m[clip.value].chunkData[d.start] != Downloaded)
  {
    if !Selected(clip) || clip.value !in m || !m[clip.value].ClipData? then Idle
    else Plan(m[clip.value].chunkData, time, hasBuffer)
  }

  /** The debounce of `timeUpdate`: an update runs when there was none yet or
      the time moved by more than a second since the last one. */
  predicate ShouldUpdate(last: Option<real>, time: real) {
    last.None? || time - last.value > 1.0 || last.value - time > 1.0
  }

  /** The first time update always runs one; after one at time t, none runs
      while the time stays within a second of t. */
  lemma DebounceProperties(t: real, time: real)
    ensures ShouldUpdate(None, time)
    ensures (t - 1.0 <= time <= t + 1.0) <==> !ShouldUpdate(Some(t), time)
  {
  }

  /** The state of one preview player. */
  class VideoPreview {
    /** The local copy of the preview table. */
    var previewData: map<string, ClipStatus>
    /** The selected clip. */
    var clip: Option<string>
    /** Whether a source buffer exists. */
    var hasSourceBuffer: bool
    /** The time of the last debounced update; None before the first. */
    var lastTimeUpdate: Option<real>
    /** The source buffer's timestamp offset, in seconds. */
    var timestampOffset: int

    constructor()
      ensures previewData == map[] && clip == None && !hasSourceBuffer
      ensures lastTimeUpdate == None && timestampOffset == 0
    {
      previewData := map[];
      clip := None;
      hasSourceBuffer := false;
      lastTimeUpdate := None;
      timestampOffset := 0;
    }

    /** `videoPreviewDataUpdate` up to the release of the lock: drops the
        clips the snapshot no longer has, then reads every entry. Returns
        whether the selected clip's record was replaced. */
    method VideoPreviewDataUpdate(data: map<string, Remote.VideoPreviewStatus>) returns (refresh: bool)
      modifies this
      ensures previewData == Reconciled(old(previewData), data)
      ensures refresh == Refreshes(old(previewData), data, clip)
      ensures clip == old(clip) && hasSourceBuffer == old(hasSourceBuffer)
      ensures lastTimeUpdate == old(lastTimeUpdate) && timestampOffset == old(timestampOffset)
    {
      var local := previewData;
      var table := local;
      var stale := local.Keys;
      while stale != {}
        invariant stale <= local.Keys
        invariant unchanged(this)
        invariant forall k :: k in table <==> k in local && (k in data || k in stale)
        invariant forall k :: k in table ==> table[k] == local[k]
        decreases |stale|
      {
        var k :| k in stale;
        if k !in data {
          table := table - {k};
        }
        stale := stale - {k};
      }
      refresh := false;
      var remaining := data.Keys;
      while remaining != {}
        invariant remaining <= data.Keys
        invariant unchanged(this)
        invariant forall k :: k in table <==> k in data && (k in local || k !in remaining)
        invariant forall k :: k in remaining && k in local ==> table[k] == local[k]
        invariant forall k :: k in data && k !in remaining ==> table[k] == ReconcileEntry(Lookup(local, k), data[k])
        invariant refresh == (Refreshes(local, data, clip) && clip.value !in remaining)
        decreases |remaining|
      {
        var k :| k in remaining;
        table, refresh := ReadEntry(local, data, clip, remaining, table, refresh, k);
        remaining := remaining - {k};
      }
      ReconciledByEntries(local, data, table);
      previewData := table;
    }

    /** One pass of the entry loop of `videoPreviewDataUpdate`: the entry
        for k read into the table, and the refresh flag raised when it
        replaces the selected clip's record. */
    static method ReadEntry(local: map<string, ClipStatus>, data: map<string, Remote.VideoPreviewStatus>, clip: Option<string>,
                            remaining: set<string>, table: map<string, ClipStatus>, refresh: bool, k: string)
      returns (table': map<string, ClipStatus>, refresh': bool)
      requires k in remaining && remaining <= data.Keys
      requires forall k :: k in table <==> k in data && (k in local || k !in remaining)
      requires forall k :: k in remaining && k in local ==> table[k] == local[k]
      requires forall k :: k in data && k !in remaining ==> table[k] == ReconcileEntry(Lookup(local, k), data[k])
      requires refresh == (Refreshes(local, data, clip) && clip.value !in remaining)
      ensures forall j :: j in table' <==> j in data && (j in local || j !in remaining - {k})
      ensures forall j :: j in remaining - {k} && j in local ==> table'[j] == local[j]
      ensures forall j :: j in data && j !in remaining - {k} ==> table'[j] == ReconcileEntry(Lookup(local, j), data[j])
      ensures refresh' == (Refreshes(local, data, clip) && clip.value !in remaining - {k})
    {
      var v := data[k];
      var existing := if k in table then Some(table[k]) else None;
      assert existing == Lookup(local, k);
      refresh' := refresh;
      if !v.Data? {
        table' := table[k := Received(v)];
      } else if Replaces(existing, v) {
        table' := table[k := Received(v)];
        if clip == Some(k) {
          refresh' := true;
        }
      } else {
        var chunks := MergeChunks(existing.value.chunkData, v.chunks);
        table' := table[k := existing.value.(chunkData := chunks)];
      }
    }

    /** `loadChunk` for a segment of the selected clip: the file it reads,
        the timestamp offset it sets, and the chunk marked `Loaded` once the
        append completed. Without a source buffer the call fails before it
        changes anything; a failed append changes only the offset. */
    method LoadChunk(directory: string, segment: nat, appended: bool) returns (file: string)
      requires clip.Some? && clip.value in previewData && previewData[clip.value].ClipData? ==>
                 segment < |previewData[clip.value].chunkData|
      modifies this
      ensures file == ChunkFileName(directory, segment)
      ensures !old(hasSourceBuffer) ==> previewData == old(previewData) && timestampOffset == old(timestampOffset)
      ensures old(hasSourceBuffer) ==> timestampOffset == segment * CHUNK_LENGTH
      ensures old(hasSourceBuffer) && appended && clip.Some? ==> previewData == AfterLoad(old(previewData), clip.value, segment)
      ensures !appended || clip.None? ==> previewData == old(previewData)
      ensures clip == old(clip) && hasSourceBuffer == old(hasSourceBuffer) && lastTimeUpdate == old(lastTimeUpdate)
    {
      file := ChunkFileName(directory, segment);
      if !hasSourceBuffer {
        return;
      }
      timestampOffset := segment * CHUNK_LENGTH;
      if !appended || clip.None? {
        return;
      }
      var c := clip.value;
      if c in previewData && previewData[c].ClipData? {
        var record := previewData[c];
        previewData := previewData[c := record.(chunkData := record.chunkData[segment := Loaded])];
      }
    }

    /** `videoUpdate`: plans for the selected clip and loads at most one
        chunk. Returns the plan and the file read, if any; a request is
        handed to the Rust side's `request_video_preview`. */
    method VideoUpdate(time: real, outputDirectory: string, appended: bool) returns (d: Decision, file: Option<string>)
      modifies this
      ensures d == PlannedUpdate(old(previewData), old(clip), time, old(hasSourceBuffer))
      ensures d.Load? ==> (clip.Some? && file == Some(ChunkFileName(ClipDirectory(outputDirectory, clip.value), d.segment))
                           && timestampOffset == d.segment * CHUNK_LENGTH
                           && previewData == (if appended then AfterLoad(old(previewData), clip.value, d.segment) else old(previewData)))
      ensures !d.Load? ==> file == None && previewData == old(previewData) && timestampOffset == old(timestampOffset)
      ensures previewData == AfterUpdate(old(previewData), old(clip), d, appended)
      ensures timestampOffset == OffsetAfter(old(timestampOffset), d)
      ensures clip == old(clip) && hasSourceBuffer == old(hasSourceBuffer) && lastTimeUpdate == old(lastTimeUpdate)
    {
      file := None;
      if !Selected(clip) {
        return Idle, None;
      }
      var c := clip.value;
      if c !in previewData || !previewData[c].ClipData? {
        return Idle, None;
      }
      d := Schedule(previewData[c].chunkData, time, hasSourceBuffer);
      if d.Load? {
        var name := LoadChunk(ClipDirectory(outputDirectory, c), d.segment, appended);
        file := Some(name);
      }
    }

    /** `timeUpdate`: runs an update at most once per second of playback
        time, and remembers the time it ran at. */
    method TimeUpdate(time: real, outputDirectory: string, appended: bool) returns (d: Decision, file: Option<string>)
      modifies this
      ensures lastTimeUpdate == if ShouldUpdate(old(lastTimeUpdate), time) then Some(time) else old(lastTimeUpdate)
      ensures !ShouldUpdate(old(lastTimeUpdate), time) ==> (d == Idle && file == None && previewData == old(previewData)
                                                           && timestampOffset == old(timestampOffset))
      ensures ShouldUpdate(old(lastTimeUpdate), time) ==>
                (d == PlannedUpdate(old(previewData), old(clip), time, old(hasSourceBuffer))
                 && previewData == AfterUpdate(old(previewData), old(clip), d, appended)
                 && timestampOffset == OffsetAfter(old(timestampOffset), d)
                 && (d.Load? ==> clip.Some? && file == Some(ChunkFileName(ClipDirectory(outputDirectory, clip.value), d.segment)))
                 && (!d.Load? ==> file == None))
      ensures clip == old(clip) && hasSourceBuffer == old(hasSourceBuffer)
    {
      if ShouldUpdate(lastTimeUpdate, time) {
        d, file := VideoUpdate(time, outputDirectory, appended);
        lastTimeUpdate := Some(time);
      } else {
        d, file := Idle, None;
      }
    }

    /** `onClipChanged`: demotes the previous clip's chunks, selects the new
        clip, and makes a source buffer when the new clip has data with a
        usable codec, followed by an update. A new source buffer starts at
        timestamp offset 0. An earlier source buffer is not dropped when no
        new one is made. */
    method OnClipChanged(newClip: string, time: real, outputDirectory: string, appended: bool)
      returns (setUp: bool, d: Decision, file: Option<string>)
      modifies this
      ensures setUp == SetsUp(AfterClipChange(old(previewData), old(clip)), newClip)
      ensures clip == Some(newClip)
      ensures hasSourceBuffer == (setUp || old(hasSourceBuffer))
      ensures !setUp ==> (d == Idle && file == None && previewData == AfterClipChange(old(previewData), old(clip))
                          && timestampOffset == old(timestampOffset))
      ensures setUp ==> (d == PlannedUpdate(AfterClipChange(old(previewData), old(clip)), Some(newClip), time, true)
                         && previewData == (if d.Load? && appended
                                            then AfterLoad(AfterClipChange(old(previewData), old(clip)), newClip, d.segment)
                                            else AfterClipChange(old(previewData), old(clip))))
      ensures previewData == AfterUpdate(AfterClipChange(old(previewData), old(clip)), Some(newClip), d, appended)
      ensures timestampOffset == OffsetAfter(if setUp then 0 else old(timestampOffset), d)
      ensures lastTimeUpdate == old(lastTimeUpdate)
    {
      if clip.Some? && clip.value in previewData && previewData[clip.value].ClipData? {
        var c := clip.value;
        var record := previewData[c];
        var chunks := Demote(record.chunkData);
        previewData := previewData[c := record.(chunkData := chunks)];
      }
      clip := Some(newClip);
      setUp := newClip in previewData && previewData[newClip].ClipData? && CodecUsable(previewData[newClip].codec);
      d, file := Idle, None;
      if !setUp {
        return;
      }
      hasSourceBuffer := true;
      timestampOffset := 0;
      d, file := VideoUpdate(time, outputDirectory, appended);
    }

    /** The whole of `videoPreviewDataUpdate`: the table is reconciled, the
        player resets when the selected clip's record was replaced, and an
        update follows. The table then has exactly the snapshot's clips.
        `appended0` and `appended1` say whether the first and the second
        update's appends complete. */
    method ReceiveSnapshot(data: map<string, Remote.VideoPreviewStatus>, time: real, outputDirectory: string,
                           appended0: bool, appended1: bool)
      returns (refresh: bool, decisions: seq<Decision>)
      modifies this
      ensures refresh == Refreshes(old(previewData), data, old(clip))
      ensures |decisions| == if refresh then 2 else 1
      ensures previewData.Keys == data.Keys
      ensures clip == old(clip) && lastTimeUpdate == old(lastTimeUpdate)
      ensures var reconciled := Reconciled(old(previewData), data);
              var changed := if refresh then AfterClipChange(reconciled, old(clip)) else reconciled;
              var setUp := refresh && SetsUp(changed, old(clip).value);
              var d0 := if setUp then PlannedUpdate(changed, old(clip), time, true) else Idle;
              var loaded := AfterUpdate(changed, old(clip), d0, appended0);
              var d1 := PlannedUpdate(loaded, old(clip), time, setUp || old(hasSourceBuffer));
              && decisions == (if refresh then [d0] else []) + [d1]
              && hasSourceBuffer == (setUp || old(hasSourceBuffer))
              && previewData == AfterUpdate(loaded, old(clip), d1, appended1)
              && timestampOffset == OffsetAfter(OffsetAfter(if setUp then 0 else old(timestampOffset), d0), d1)
    {
      refresh := VideoPreviewDataUpdate(data);
      decisions := [];
      if refresh {
        ghost var reconciled := previewData;
        ghost var previous := clip;
        ClipChangeEffect(reconciled, previous);
        var _, d0, _ := OnClipChanged(clip.value, time, outputDirectory, appended0);
        if d0.Load? && appended0 {
          LoadEffect(AfterClipChange(reconciled, previous), previous.value, d0.segment);
        }
        decisions := [d0];
      }
      ghost var before := previewData;
      var d1, _ := VideoUpdate(time, outputDirectory, appended1);
      if d1.Load? && appended1 {
        LoadEffect(before, clip.value, d1.segment);
      }
      decisions := decisions + [d1];
    }
  }
}
