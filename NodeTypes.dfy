/** The node and stream-type vocabulary of the shared crate: pipeline nodes,
    the per-stream-type counts (`PipeableType`), the stream types and their
    fixed names, and the GStreamer handle names built from them. */
module NodeTypes {
  import opened Wrappers
  import opened Text

  /** Node, clip and group identifiers are strings in the shared crate. */
  type ID = string

  /** The subset of serde_json values that node properties hold. */
  datatype JsonValue =
    | JNull
    | JBool(b: bool)
    | JNumber(n: real)
    | JString(s: string)
    | JArray(items: seq<JsonValue>)
    | JObject(fields: map<string, JsonValue>)

  datatype Position = Position(x: int, y: int)

  datatype Node = Node(position: Position, id: ID, nodeType: string, properties: map<string, JsonValue>, group: ID)

  /** `Node::new`: the id is a freshly drawn `uniq_id()`, and so is the group when
      none is given; both fresh values are parameters here. */
  function NewNode(nodeType: string, group: Option<ID>, freshId: ID, freshGroup: ID): (n: Node)
    ensures n.id == freshId && n.nodeType == nodeType && n.properties == map[]
    ensures n.position == Position(0, 0)
    ensures n.group == if group.Some? then group.value else freshGroup
  {
    Node(Position(0, 0), freshId, nodeType, map[], if group.Some? then group.value else freshGroup)
  }

  /** `Node::get_gstreamer_handle_id`: "{node}-{property}". */
  function GetGstreamerHandleId(nodeId: ID, property: string): (h: string)
    ensures |h| == |nodeId| + 1 + |property|
    ensures h[..|nodeId|] == nodeId && h[|nodeId|] == '-' && h[|nodeId| + 1..] == property
  {
    nodeId + "-" + property
  }

  /** Node ids drawn by `uniq_id` contain no '-', so the handle id names one
      (node, property) pair. */
  lemma GetGstreamerHandleIdInjective(n1: ID, p1: string, n2: ID, p2: string)
    requires '-' !in n1 && '-' !in n2
    requires GetGstreamerHandleId(n1, p1) == GetGstreamerHandleId(n2, p2)
    ensures n1 == n2 && p1 == p2
  {
    JoinInjective(n1, p1, n2, p2, '-');
  }

  datatype PipeableStreamType = Video | Audio | Subtitles

  /** Number of streams of each kind (i32 fields in the source). */
  datatype PipeableType = PipeableType(video: int, audio: int, subtitles: int)

  /** `PipeableType::of_type`: the count for one stream type. */
  function OfType(t: PipeableType, st: PipeableStreamType): int {
    match st
    case Video => t.video
    case Audio => t.audio
    case Subtitles => t.subtitles
  }

  function MinInt(a: int, b: int): int {
    if a <= b then a else b
  }

  /** `PipeableType::min`: componentwise minimum. */
  function Min(a: PipeableType, b: PipeableType): (r: PipeableType)
    ensures forall st :: OfType(r, st) == MinInt(OfType(a, st), OfType(b, st))
    ensures forall st :: OfType(r, st) <= OfType(a, st) && OfType(r, st) <= OfType(b, st)
  {
    PipeableType(MinInt(a.video, b.video), MinInt(a.audio, b.audio), MinInt(a.subtitles, b.subtitles))
  }

  /** `PipeableType::get_map`: the three counts keyed by stream type. */
  function GetMap(t: PipeableType): (m: map<PipeableStreamType, int>)
    ensures m.Keys == {Video, Audio, Subtitles}
    ensures forall st :: st in m ==> m[st] == OfType(t, st)
  {
    map[Video := t.video, Audio := t.audio, Subtitles := t.subtitles]
  }

  function Positive(n: int): nat {
    if n > 0 then 1 else 0
  }

  /** How many of the three stream kinds are present. */
  function KindsPresent(t: PipeableType): nat {
    Positive(t.video) + Positive(t.audio) + Positive(t.subtitles)
  }

  /** `PipeableType::is_singular_type`: at most one stream kind is present. */
  predicate IsSingularType(t: PipeableType)
    ensures IsSingularType(t) <==> KindsPresent(t) <= 1
  {
    var v := t.video > 0;
    var a := t.audio > 0;
    var s := t.subtitles > 0;
    !((v && a) || (v && s) || (a && s))
  }

  datatype InputOrOutput = Input | Output

  function IoToString(io: InputOrOutput): (s: string)
    ensures s == "input" || s == "output"
  {
    match io
    case Input => "input"
    case Output => "output"
  }

  /** `PipeableStreamType::to_string`. */
  function StreamTypeToString(st: PipeableStreamType): (s: string)
    ensures |s| > 0 && '-' !in s && ':' !in s
    ensures s == "video" || s == "audio" || s == "subtitles"
  {
    match st
    case Video => "video"
    case Audio => "audio"
    case Subtitles => "subtitles"
  }

  lemma StreamTypeToStringInjective(a: PipeableStreamType, b: PipeableStreamType)
    requires StreamTypeToString(a) == StreamTypeToString(b)
    ensures a == b
  {
  }

  /** `PipeableStreamType::stream_linker`: the GStreamer element that converts
      a stream of that type. */
  function StreamLinker(st: PipeableStreamType): (s: string)
    ensures s == "videoconvert" || s == "audioconvert" || s == "subparse"
  {
    match st
    case Video => "videoconvert"
    case Audio => "audioconvert"
    case Subtitles => "subparse"
  }

  /** `PipeableStreamType::encoder`; the subtitles case is `todo!()` in the source. */
  function Encoder(st: PipeableStreamType): string
    requires st != Subtitles
  {
    match st
    case Video => "nvh264enc bitrate=400 ! h264parse"
    case Audio => "avenc_aac"
  }

  datatype PipedType = PipedType(streamType: PipeableType, nodeId: ID, propertyName: string, io: InputOrOutput)

  /** `PipedType::get_number_of_streams`. */
  function GetNumberOfStreams(p: PipedType, st: PipeableStreamType): (n: int)
    ensures n == OfType(p.streamType, st)
  {
    match st
    case Video => p.streamType.video
    case Audio => p.streamType.audio
    case Subtitles => p.streamType.subtitles
  }

  /** "{type}-{index}": the tail of every per-stream GStreamer name. */
  function TypedIndex(st: PipeableStreamType, index: int): string {
    StreamTypeToString(st) + "-" + IntToString(index)
  }

  /** The tail names one stream type and one index. */
  lemma TypedIndexInjective(st1: PipeableStreamType, i1: int, st2: PipeableStreamType, i2: int)
    requires TypedIndex(st1, i1) == TypedIndex(st2, i2)
    ensures st1 == st2 && i1 == i2
  {
    JoinInjective(StreamTypeToString(st1), IntToString(i1), StreamTypeToString(st2), IntToString(i2), '-');
    StreamTypeToStringInjective(st1, st2);
    IntToStringInjective(i1, i2);
  }

  /** The part of a handle that precedes the stream type. */
  function HandlePrefix(p: PipedType): string {
    p.nodeId + "-" + IoToString(p.io) + "-" + p.propertyName + "-"
  }

  /** `PipedType::get_gst_handle`: "{node}-{io}-{prop}-{type}-{index}", or None
      when the index is not below the number of streams of that type. */
  function GetGstHandle(p: PipedType, st: PipeableStreamType, index: int): (h: Option<string>)
    ensures h.None? <==> OfType(p.streamType, st) <= index
    ensures h.Some? ==> StartsWith(h.value, HandlePrefix(p))
    ensures h.Some? ==> h.value == HandlePrefix(p) + TypedIndex(st, index)
  {
    if GetNumberOfStreams(p, st) <= index then None
    else Some(HandlePrefix(p) + TypedIndex(st, index))
  }

  /** Two handles of the same piped value are equal only for the same stream
      type and index, so every stream gets its own GStreamer name. */
  lemma GetGstHandleInjective(p: PipedType, st1: PipeableStreamType, i1: int, st2: PipeableStreamType, i2: int)
    requires GetGstHandle(p, st1, i1).Some? && GetGstHandle(p, st2, i2).Some?
    requires GetGstHandle(p, st1, i1) == GetGstHandle(p, st2, i2)
    ensures st1 == st2 && i1 == i2
  {
    PrefixCancel(HandlePrefix(p), TypedIndex(st1, i1), TypedIndex(st2, i2));
    TypedIndexInjective(st1, i1, st2, i2);
  }
}
