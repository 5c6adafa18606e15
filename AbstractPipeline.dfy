/** The server's intermediate GStreamer description
    (shared/src/abstract_pipeline.rs): nodes keyed by id, links between node
    ids, encoder/decoder aliases that expand into concrete elements, and the
    clean-up passes that remove dead-end nodes and replace aliases. */
module AbstractPipelines {
  import opened Wrappers
  import opened Text
  import opened NodeTypes

  datatype AbstractNode = AbstractNode(id: string, nodeType: string, properties: map<string, string>)

  datatype AbstractLinkEndpoint = AbstractLinkEndpoint(id: string, property: Option<string>)

  datatype AbstractLink = AbstractLink(from: AbstractLinkEndpoint, to: AbstractLinkEndpoint)

  /** The contents of an `AbstractPipeline`, as a value. */
  datatype PipelineValue = PipelineValue(nodes: map<string, AbstractNode>, links: seq<AbstractLink>)

  /** Every node is stored under its own id, as `add_node` does. */
  predicate KeyedById(nodes: map<string, AbstractNode>) {
    forall k :: k in nodes ==> nodes[k].id == k
  }

  const EmptyPipeline: PipelineValue := PipelineValue(map[], [])

  // ---------------------------------------------------------------- nodes

  /** `AbstractNode::new_with_props`; `new` is the case with no properties.
      The `uniq_id()` drawn when no id is given is the parameter freshId. */
  function NewNode(nodeType: string, id: Option<string>, properties: map<string, string>, freshId: string): (n: AbstractNode)
    ensures n.nodeType == nodeType && n.properties == properties
    ensures n.id == if id.Some? then id.value else freshId
  {
    AbstractNode(if id.Some? then id.value else freshId, nodeType, properties)
  }

  /** `AbstractNode::new_encoder`: type "encoder:{stream type}". */
  function NewEncoder(st: PipeableStreamType, freshId: string): (n: AbstractNode)
    ensures n.id == freshId && n.properties == map[]
    ensures IsEncoder(n) && !IsDecoder(n)
  {
    AbstractNode(freshId, "encoder:" + StreamTypeToString(st), map[])
  }

  /** `AbstractNode::new_decoder`: type "decoder:{stream type}". */
  function NewDecoder(st: PipeableStreamType, freshId: string): (n: AbstractNode)
    ensures n.id == freshId && n.properties == map[]
    ensures IsDecoder(n) && !IsEncoder(n)
  {
    AbstractNode(freshId, "decoder:" + StreamTypeToString(st), map[])
  }

  /** `is_linker`: the three converter elements. */
  predicate IsLinker(n: AbstractNode)
    ensures IsLinker(n) <==> exists st :: StreamLinker(st) == n.nodeType
  {
    assert StreamLinker(Video) == "videoconvert" && StreamLinker(Audio) == "audioconvert" && StreamLinker(Subtitles) == "subparse";
    n.nodeType == "videoconvert" || n.nodeType == "audioconvert" || n.nodeType == "subparse"
  }

  /** `linker_to_type`; the source panics on a non-linker. */
  function LinkerToType(n: AbstractNode): (st: PipeableStreamType)
    requires IsLinker(n)
    ensures StreamLinker(st) == n.nodeType
  {
    match n.nodeType
    case "videoconvert" => Video
    case "audioconvert" => Audio
    case _ => Subtitles
  }

  /** The converter of a stream type converts back to that stream type. */
  lemma LinkerToTypeRoundTrip(st: PipeableStreamType, id: string, props: map<string, string>)
    ensures IsLinker(AbstractNode(id, StreamLinker(st), props))
    ensures LinkerToType(AbstractNode(id, StreamLinker(st), props)) == st
  {
  }

  predicate IsDecoder(n: AbstractNode) {
    StartsWith(n.nodeType, "decoder:")
  }

  predicate IsEncoder(n: AbstractNode) {
    StartsWith(n.nodeType, "encoder:")
  }

  /** `is_aliased`: an encoder or decoder placeholder. */
  predicate IsAliased(n: AbstractNode)
    ensures IsAliased(n) <==> StartsWith(n.nodeType, "encoder:") || StartsWith(n.nodeType, "decoder:")
  {
    IsEncoder(n) || IsDecoder(n)
  }

  /** No linker is an alias. */
  lemma LinkerNotAliased(n: AbstractNode)
    requires IsLinker(n)
    ensures !IsAliased(n)
  {
    assert n.nodeType[..8] != "encoder:" && n.nodeType[..8] != "decoder:" by {
      assert n.nodeType[0] != 'e' && n.nodeType[0] != 'd';
    }
  }

  /** Rust `s.split(sep).nth(1)`: the text between the first and the second
      separator, or to the end; None when there is no separator. */
  function SplitSecond(s: string, sep: char): (r: Option<string>)
    ensures r.None? <==> sep !in s
    ensures r.Some? ==> sep !in r.value
  {
    var k := IndexOf(s, sep);
    if k == |s| then None
    else
      var rest := s[k + 1..];
      Some(rest[..IndexOf(rest, sep)])
  }

  lemma SplitSecondOfJoin(a: string, b: string, sep: char)
    requires sep !in a && sep !in b
    ensures SplitSecond(a + [sep] + b, sep) == Some(b)
  {
    IndexOfSeparator(a, b, sep);
    assert (a + [sep] + b)[|a| + 1..] == b;
    assert IndexOf(b, sep) == |b|;
    assert b[..|b|] == b;
  }

  /** The stream-type names `alias_to_pipeline` accepts. */
  function StreamTypeFromName(s: string): (r: Option<PipeableStreamType>)
    ensures r.Some? ==> StreamTypeToString(r.value) == s
    ensures r.None? <==> s != "video" && s != "audio" && s != "subtitles"
  {
    if s == "video" then Some(Video)
    else if s == "audio" then Some(Audio)
    else if s == "subtitles" then Some(Subtitles)
    else None
  }

  lemma StreamTypeNameRoundTrip(st: PipeableStreamType)
    ensures StreamTypeFromName(StreamTypeToString(st)) == Some(st)
  {
  }

  // ------------------------------------------------------ pipeline values

  /** `add_node` on a value: the node is stored under its id, replacing any
      node with that id. */
  function WithNode(p: PipelineValue, n: AbstractNode): (q: PipelineValue)
    ensures q.nodes.Keys == p.nodes.Keys + {n.id} && q.nodes[n.id] == n
    ensures forall k :: k in p.nodes && k != n.id ==> q.nodes[k] == p.nodes[k]
    ensures q.links == p.links
    ensures KeyedById(p.nodes) ==> KeyedById(q.nodes)
  {
    PipelineValue(p.nodes[n.id := n], p.links)
  }

  /** A link between two nodes that names no pad on either side. */
  function PlainIdLink(from: string, to: string): AbstractLink {
    AbstractLink(AbstractLinkEndpoint(from, None), AbstractLinkEndpoint(to, None))
  }

  function PlainLink(from: AbstractNode, to: AbstractNode): AbstractLink {
    PlainIdLink(from.id, to.id)
  }

  /** `link` on a value: one property-less link appended. */
  function WithLink(p: PipelineValue, from: AbstractNode, to: AbstractNode): (q: PipelineValue)
    ensures q.nodes == p.nodes && |q.links| == |p.links| + 1 && q.links[..|p.links|] == p.links
    ensures q.links[|p.links|] == PlainLink(from, to)
  {
    PipelineValue(p.nodes, p.links + [PlainLink(from, to)])
  }

  /** The ids `alias_to_pipeline` draws from `uniq_id()`, in order of use. */
  datatype FreshIds = FreshIds(first: string, second: string, third: string)

  /** What an alias expands to: the elements, and the ids of the element that
      takes the alias's input and the element that produces its output. */
  datatype Expansion = Expansion(pipeline: PipelineValue, input: string, output: string)

  /** Every link of p joins two nodes of p. */
  predicate Closed(p: PipelineValue) {
    forall l :: l in p.links ==> l.from.id in p.nodes && l.to.id in p.nodes
  }

  /** An expansion is well formed: nodes keyed by id, links only between its
      own nodes, and both the input and the output are among them. */
  predicate WellFormed(e: Expansion) {
    KeyedById(e.pipeline.nodes) && Closed(e.pipeline) && e.input in e.pipeline.nodes && e.output in e.pipeline.nodes
  }

  /** The nodes of an expansion are stored under the drawn ids only. */
  predicate UsesOnly(e: Expansion, draws: FreshIds) {
    forall k :: k in e.pipeline.nodes ==> k == draws.first || k == draws.second || k == draws.third
  }

  /** The element types at the two ends of an expansion. */
  predicate Ends(e: Expansion, inputType: string, outputType: string) {
    e.input in e.pipeline.nodes && e.output in e.pipeline.nodes
    && e.pipeline.nodes[e.input].nodeType == inputType && e.pipeline.nodes[e.output].nodeType == outputType
  }

  /** Video encoder: nvh264enc at bitrate 400 into h264parse. */
  function EncodeVideo(draws: FreshIds): (e: Expansion)
    requires draws.first != draws.second
    ensures WellFormed(e) && UsesOnly(e, draws) && Ends(e, "nvh264enc", "h264parse")
    ensures e.input == draws.first && e.output == draws.second
    ensures e.pipeline.nodes.Keys == {draws.first, draws.second}
    ensures e.pipeline.links == [PlainIdLink(draws.first, draws.second)]
    ensures e.pipeline.nodes[e.input].properties == map["bitrate" := "400"]
    ensures e.pipeline.nodes[e.output].properties == map[]
  {
    var enc := NewNode("nvh264enc", None, map["bitrate" := "400"], draws.first);
    var parse := NewNode("h264parse", None, map[], draws.second);
    Expansion(WithNode(WithNode(WithLink(EmptyPipeline, enc, parse), enc), parse), enc.id, parse.id)
  }

  /** Audio encoder: a single avenc_aac. */
  function EncodeAudio(draws: FreshIds): (e: Expansion)
    ensures WellFormed(e) && UsesOnly(e, draws) && Ends(e, "avenc_aac", "avenc_aac")
    ensures e.input == e.output == draws.first
    ensures e.pipeline.nodes.Keys == {draws.first} && e.pipeline.links == []
    ensures e.pipeline.nodes[e.input].properties == map[]
  {
    var enc := NewNode("avenc_aac", None, map[], draws.first);
    Expansion(WithNode(EmptyPipeline, enc), enc.id, enc.id)
  }

  /** Video decoder: h264parse into nvh264dec. */
  function DecodeVideo(draws: FreshIds): (e: Expansion)
    requires draws.first != draws.second
    ensures WellFormed(e) && UsesOnly(e, draws) && Ends(e, "h264parse", "nvh264dec")
    ensures e.input == draws.first && e.output == draws.second
    ensures e.pipeline.nodes.Keys == {draws.first, draws.second}
    ensures e.pipeline.links == [PlainIdLink(draws.first, draws.second)]
    ensures e.pipeline.nodes[e.input].properties == map[] && e.pipeline.nodes[e.output].properties == map[]
  {
    var parse := NewNode("h264parse", None, map[], draws.first);
    var dec := NewNode("nvh264dec", None, map[], draws.second);
    Expansion(WithNode(WithNode(WithLink(EmptyPipeline, parse, dec), parse), dec), parse.id, dec.id)
  }

  /** Audio decoder: avdec_aac into audioconvert into audioresample. */
  function DecodeAudio(draws: FreshIds): (e: Expansion)
    requires draws.first != draws.second && draws.second != draws.third && draws.first != draws.third
    ensures WellFormed(e) && UsesOnly(e, draws) && Ends(e, "avdec_aac", "audioresample")
    ensures e.input == draws.first && e.output == draws.third
    ensures e.pipeline.nodes.Keys == {draws.first, draws.second, draws.third}
    ensures e.pipeline.nodes[draws.second].nodeType == "audioconvert"
    ensures e.pipeline.links == [PlainIdLink(draws.first, draws.second), PlainIdLink(draws.second, draws.third)]
    ensures forall k :: k in e.pipeline.nodes ==> e.pipeline.nodes[k].properties == map[]
  {
    var dec := NewNode("avdec_aac", None, map[], draws.first);
    var convert := NewNode("audioconvert", None, map[], draws.second);
    var resample := NewNode("audioresample", None, map[], draws.third);
    // the three `add_node` calls and the two `link` calls, as one value
    var q := PipelineValue(map[dec.id := dec, convert.id := convert, resample.id := resample],
                           [PlainLink(dec, convert), PlainLink(convert, resample)]);
    Expansion(q, dec.id, resample.id)
  }

  /** `uniq_id()` never repeats itself. */
  predicate Distinct(draws: FreshIds) {
    draws.first != draws.second && draws.second != draws.third && draws.first != draws.third
  }

  /** The stream type an alias names after its ':' ("encoder:video" names
      video), if it names one. */
  function AliasStreamType(n: AbstractNode): (r: Option<PipeableStreamType>)
    requires IsAliased(n)
    ensures SplitSecond(n.nodeType, ':').Some?
    ensures r == StreamTypeFromName(SplitSecond(n.nodeType, ':').value)
  {
    assert n.nodeType[7] == ':';
    StreamTypeFromName(SplitSecond(n.nodeType, ':').value)
  }

  /** `alias_to_pipeline`: the concrete elements of an encoder or decoder
      alias. The source panics on an unknown stream type and leaves the
      subtitles cases `todo!()`; both are Err here. */
  function AliasToPipeline(n: AbstractNode, draws: FreshIds): (r: Result<Expansion>)
    requires IsAliased(n) && Distinct(draws)
    ensures r.Ok? ==> WellFormed(r.value) && UsesOnly(r.value, draws)
  {
    var streamType := AliasStreamType(n);
    if streamType.None? then Err("Cannot determine stream type")
    else if IsEncoder(n) then
      match streamType.value
      case Video => Ok(EncodeVideo(draws))
      case Audio => Ok(EncodeAudio(draws))
      case Subtitles => Err("not yet implemented")
    else
      match streamType.value
      case Video => Ok(DecodeVideo(draws))
      case Audio => Ok(DecodeAudio(draws))
      case Subtitles => Err("not yet implemented")
  }

  /** The expansion exists exactly for video and audio aliases. */
  lemma AliasToPipelineOk(n: AbstractNode, draws: FreshIds)
    requires IsAliased(n) && Distinct(draws)
    ensures SplitSecond(n.nodeType, ':').Some?
    ensures var name := SplitSecond(n.nodeType, ':').value;
            AliasToPipeline(n, draws).Ok? <==> name == "video" || name == "audio"
  {
    ghost var st := AliasStreamType(n);
  }

  /** The encoder and decoder placeholders of video and audio always expand;
      those of subtitles never do. */
  lemma NewAliasesExpand(st: PipeableStreamType, id: string, draws: FreshIds)
    requires Distinct(draws)
    ensures IsAliased(NewEncoder(st, id)) && IsAliased(NewDecoder(st, id))
    ensures AliasToPipeline(NewEncoder(st, id), draws).Ok? <==> st != Subtitles
    ensures AliasToPipeline(NewDecoder(st, id), draws).Ok? <==> st != Subtitles
  {
    NewEncoderStreamType(st, id);
    NewDecoderStreamType(st, id);
  }

  lemma NewEncoderStreamType(st: PipeableStreamType, id: string)
    ensures IsAliased(NewEncoder(st, id)) && AliasStreamType(NewEncoder(st, id)) == Some(st)
  {
    var name := StreamTypeToString(st);
    SplitSecondOfJoin("encoder", name, ':');
    assert "encoder:" + name == "encoder" + [':'] + name;
  }

  lemma NewDecoderStreamType(st: PipeableStreamType, id: string)
    ensures IsAliased(NewDecoder(st, id)) && AliasStreamType(NewDecoder(st, id)) == Some(st)
  {
    var name := StreamTypeToString(st);
    SplitSecondOfJoin("decoder", name, ':');
    assert "decoder:" + name == "decoder" + [':'] + name;
  }

  /** Where the expansion of an alias takes its input and produces its
      output, read off the alias alone: always at the first id drawn, and at
      the last id the expansion draws; None when it does not expand. */
  function AliasEnds(n: AbstractNode, ids: FreshIds): (r: Option<AliasIo>)
    requires IsAliased(n)
    ensures r.Some? <==> AliasStreamType(n).Some? && AliasStreamType(n).value != Subtitles
    ensures r.Some? ==> r.value.input == ids.first && r.value.output in IdSet(ids)
  {
    match AliasStreamType(n)
    case Some(Video) => Some(AliasIo(ids.first, ids.second))
    case Some(Audio) => Some(AliasIo(ids.first, if IsEncoder(n) then ids.first else ids.third))
    case _ => None
  }

  /** The reference agrees with `alias_to_pipeline`: it is defined exactly
      when the expansion succeeds, and names the expansion's two ends. */
  lemma AliasEndsAgree(n: AbstractNode, ids: FreshIds)
    requires IsAliased(n) && Distinct(ids)
    ensures AliasEnds(n, ids).Some? <==> AliasToPipeline(n, ids).Ok?
    ensures AliasToPipeline(n, ids).Ok? ==>
              AliasEnds(n, ids).value == AliasIo(AliasToPipeline(n, ids).value.input, AliasToPipeline(n, ids).value.output)
  {
  }

  // ------------------------------------------------------------- rendering

  /** One end of a link as GStreamer text: "id.property", or "id." without a
      property. */
  function EndpointText(e: AbstractLinkEndpoint): string {
    e.id + "." + (if e.property.Some? then e.property.value else "")
  }

  /** `AbstractLink::to_gstreamer_pipeline`: "from ! to". */
  function LinkToGstreamer(l: AbstractLink): (s: string)
    ensures StartsWith(s, EndpointText(l.from) + " ! ")
    ensures s[|EndpointText(l.from)| + 3..] == EndpointText(l.to)
  {
    EndpointText(l.from) + " ! " + EndpointText(l.to)
  }

  /** The property text of an endpoint: an absent property reads as empty. */
  function PropertyText(e: AbstractLinkEndpoint): string {
    if e.property.Some? then e.property.value else ""
  }

  /** The rendering determines both endpoints' ids and property texts as long
      as ids contain no '.', and the source's id and property contain no ' '.
      An absent property and an empty one render alike. */
  lemma LinkToGstreamerDetermines(a: AbstractLink, b: AbstractLink)
    requires '.' !in a.from.id && '.' !in a.to.id && '.' !in b.from.id && '.' !in b.to.id
    requires ' ' !in a.from.id && ' ' !in PropertyText(a.from)
    requires ' ' !in b.from.id && ' ' !in PropertyText(b.from)
    requires LinkToGstreamer(a) == LinkToGstreamer(b)
    ensures a.from.id == b.from.id && PropertyText(a.from) == PropertyText(b.from)
    ensures a.to.id == b.to.id && PropertyText(a.to) == PropertyText(b.to)
  {
    var fa, fb := EndpointText(a.from), EndpointText(b.from);
    var ta, tb := EndpointText(a.to), EndpointText(b.to);
    assert fa == a.from.id + ['.'] + PropertyText(a.from);
    assert fb == b.from.id + ['.'] + PropertyText(b.from);
    assert ' ' !in fa && ' ' !in fb;
    assert LinkToGstreamer(a) == fa + [' '] + ("! " + ta);
    assert LinkToGstreamer(b) == fb + [' '] + ("! " + tb);
    JoinInjective(fa, "! " + ta, fb, "! " + tb, ' ');
    assert ta == ("! " + ta)[2..];
    assert tb == ("! " + tb)[2..];
    EndpointTextDetermines(a.from, b.from);
    EndpointTextDetermines(a.to, b.to);
  }

  /** One endpoint's text determines its id and property text when ids
      contain no '.'. */
  lemma EndpointTextDetermines(x: AbstractLinkEndpoint, y: AbstractLinkEndpoint)
    requires '.' !in x.id && '.' !in y.id
    requires EndpointText(x) == EndpointText(y)
    ensures x.id == y.id && PropertyText(x) == PropertyText(y)
  {
    assert EndpointText(x) == x.id + ['.'] + PropertyText(x);
    assert EndpointText(y) == y.id + ['.'] + PropertyText(y);
    JoinInjective(x.id, PropertyText(x), y.id, PropertyText(y), '.');
  }

  // ---------------------------------------------------- dangling removal

  /** Node types that are allowed to end a pipeline. */
  predicate IsSink(n: AbstractNode) {
    n.nodeType == "splitmuxsink" || n.nodeType == "filesink"
  }

  predicate HasOutgoing(links: seq<AbstractLink>, id: string) {
    exists l :: l in links && l.from.id == id
  }

  /** A node of start that is no longer in cur. */
  predicate Gone(start: map<string, AbstractNode>, cur: map<string, AbstractNode>, id: string) {
    id in start && id !in cur
  }

  /** cur is start with some nodes removed, each a non-sink whose every
      link out of it went to a removed node, along with every link into a
      removed node. */
  ghost predicate PrunedFrom(start: PipelineValue, cur: PipelineValue) {
    && cur.nodes.Keys <= start.nodes.Keys
    && (forall k :: k in cur.nodes ==> cur.nodes[k] == start.nodes[k])
    && (forall k :: k in start.nodes && IsSink(start.nodes[k]) ==> k in cur.nodes)
    && (forall l :: l in cur.links <==> l in start.links && !Gone(start.nodes, cur.nodes, l.to.id))
    && (forall l :: l in start.links && Gone(start.nodes, cur.nodes, l.from.id) ==> Gone(start.nodes, cur.nodes, l.to.id))
  }

  /** Removing one dangling node, and the links into it, keeps the pruning
      relation with the starting pipeline. */
  lemma PrunedFromStep(start: PipelineValue, before: PipelineValue, next: string)
    requires PrunedFrom(start, before) && IsDangling(before, next)
    ensures PrunedFrom(start, PipelineValue(before.nodes - {next}, LinksNotTo(before.links, next)))
  {
    var after := PipelineValue(before.nodes - {next}, LinksNotTo(before.links, next));
    forall l | l in start.links && Gone(start.nodes, after.nodes, l.from.id)
      ensures Gone(start.nodes, after.nodes, l.to.id)
    {
      if l.from.id == next {
        assert l !in before.links;
      } else {
        assert Gone(start.nodes, before.nodes, l.from.id);
      }
    }
  }

  /** A node that is not a sink and that no link leaves: a dead end. */
  predicate IsDangling(p: PipelineValue, id: string) {
    id in p.nodes && !IsSink(p.nodes[id]) && !HasOutgoing(p.links, id)
  }

  /** One removal: node id goes, and so does every link into it. */
  function RemoveStep(p: PipelineValue, id: string): PipelineValue {
    PipelineValue(p.nodes - {id}, LinksNotTo(p.links, id))
  }

  /** p after the removals of order, one after the other. */
  function RemovedInOrder(p: PipelineValue, order: seq<string>): PipelineValue
    decreases |order|
  {
    if order == [] then p else RemoveStep(RemovedInOrder(p, order[..|order| - 1]), order[|order| - 1])
  }

  /** Each node of order was a dead end when its turn came. */
  ghost predicate DeadEndOrder(p: PipelineValue, order: seq<string>) {
    forall i :: 0 <= i < |order| ==> IsDangling(RemovedInOrder(p, order[..i]), order[i])
  }

  /** A dead end of the current pipeline extends a dead-end order by one
      removal. */
  lemma DeadEndOrderStep(p: PipelineValue, order: seq<string>, next: string)
    requires DeadEndOrder(p, order) && IsDangling(RemovedInOrder(p, order), next)
    ensures DeadEndOrder(p, order + [next])
    ensures RemovedInOrder(p, order + [next]) == RemoveStep(RemovedInOrder(p, order), next)
  {
    var o := order + [next];
    assert o[..|o| - 1] == order;
    forall i | 0 <= i < |o|
      ensures IsDangling(RemovedInOrder(p, o[..i]), o[i])
    {
      if i < |order| {
        assert o[..i] == order[..i];
      }
    }
  }

  /** The first removal is a dead end of the starting pipeline. So a
      pipeline without a dead end, such as a cycle of non-sinks that leads to
      no sink, admits no removal at all and is kept whole. */
  lemma FirstRemovalIsDeadEnd(p: PipelineValue, order: seq<string>)
    requires DeadEndOrder(p, order) && order != []
    ensures IsDangling(p, order[0])
  {
    assert order[..0] == [];
  }

  /** Two queues feeding each other, with no sink: neither is ever a dead
      end, so no removal order exists and both stay. */
  lemma SinkFreeCycleKept(order: seq<string>)
    requires DeadEndOrder(QueueCycle(), order)
    ensures order == [] && RemovedInOrder(QueueCycle(), order) == QueueCycle()
  {
    var p := QueueCycle();
    if order != [] {
      FirstRemovalIsDeadEnd(p, order);
      assert false;
    }
  }

  /** a ⇄ b, both of type "queue". */
  function QueueCycle(): PipelineValue {
    PipelineValue(map["a" := AbstractNode("a", "queue", map[]), "b" := AbstractNode("b", "queue", map[])],
                  [PlainIdLink("a", "b"), PlainIdLink("b", "a")])
  }

  /** The sources of the links into id, in link order. */
  function IncomingSources(links: seq<AbstractLink>, id: string): (r: seq<string>)
    ensures forall x :: x in r <==> exists l :: l in links && l.to.id == id && l.from.id == x
  {
    if links == [] then []
    else
      assert forall l :: l in links <==> l == links[0] || l in links[1..];
      (if links[0].to.id == id then [links[0].from.id] else []) + IncomingSources(links[1..], id)
  }

  /** `links.retain(|x| x.to.id != id)`. */
  function LinksNotTo(links: seq<AbstractLink>, id: string): (r: seq<AbstractLink>)
    ensures forall l :: l in r <==> l in links && l.to.id != id
    ensures |r| <= |links|
  {
    if links == [] then []
    else
      assert forall l :: l in links <==> l == links[0] || l in links[1..];
      (if links[0].to.id != id then [links[0]] else []) + LinksNotTo(links[1..], id)
  }

  // ------------------------------------------------------ alias rewiring

  /** Where the links of an alias are reconnected. */
  datatype AliasIo = AliasIo(input: string, output: string)

  /** The link loop of `convert_aliases`: a link leaving an alias now leaves
      its output element, a link entering an alias now enters its input
      element; properties are kept. */
  function RewireLink(l: AbstractLink, m: map<string, AliasIo>): (r: AbstractLink)
    ensures r.from.property == l.from.property && r.to.property == l.to.property
    ensures r.from.id == if l.from.id in m then m[l.from.id].output else l.from.id
    ensures r.to.id == if l.to.id in m then m[l.to.id].input else l.to.id
  {
    var from := if l.from.id in m then AbstractLinkEndpoint(m[l.from.id].output, l.from.property) else l.from;
    var to := if l.to.id in m then AbstractLinkEndpoint(m[l.to.id].input, l.to.property) else l.to;
    AbstractLink(from, to)
  }

  /** When no alias's input or output is itself an alias, a rewired link
      touches no alias; links between other nodes are unchanged. */
  lemma RewireLinkAvoidsAliases(l: AbstractLink, m: map<string, AliasIo>)
    requires forall k :: k in m ==> m[k].input !in m && m[k].output !in m
    ensures RewireLink(l, m).from.id !in m && RewireLink(l, m).to.id !in m
    ensures RewireLink(l, m).from.property == l.from.property && RewireLink(l, m).to.property == l.to.property
    ensures l.from.id !in m && l.to.id !in m ==> RewireLink(l, m) == l
  {
  }

  /** The expansion of alias n with the given ids succeeds and reconnects
      at io. */
  predicate ExpandsTo(n: AbstractNode, ids: FreshIds, io: AliasIo) {
    IsAliased(n) && Distinct(ids) && AliasEnds(n, ids) == Some(io)
  }

  /** Every alias node has drawn ids and expands with them. */
  predicate AllAliasesExpand(nodes: map<string, AbstractNode>, draws: map<string, FreshIds>) {
    forall k :: k in nodes && IsAliased(nodes[k]) ==> k in draws && Distinct(draws[k]) && AliasEnds(nodes[k], draws[k]).Some?
  }

  /** The aliases of a node map and where the expansions reconnect them. */
  function AliasMap(nodes: map<string, AbstractNode>, draws: map<string, FreshIds>): (m: map<string, AliasIo>)
    ensures forall k :: k in m <==> k in nodes && IsAliased(nodes[k]) && k in draws && Distinct(draws[k]) && AliasEnds(nodes[k], draws[k]).Some?
    ensures forall k :: k in m ==> ExpandsTo(nodes[k], draws[k], m[k])
  {
    map k | k in nodes && IsAliased(nodes[k]) && k in draws && Distinct(draws[k]) && AliasEnds(nodes[k], draws[k]).Some? ::
      AliasEnds(nodes[k], draws[k]).value
  }

  /** The ids drawn for each alias are new: distinct from each other and from
      every node id. */
  predicate DrawsFresh(draws: map<string, FreshIds>, nodes: map<string, AbstractNode>) {
    forall k :: k in draws ==> Distinct(draws[k]) && draws[k].first !in nodes && draws[k].second !in nodes && draws[k].third !in nodes
  }

  /** q keeps every node of p that does not carry one of the given ids, and
      starts with p's links. */
  predicate KeepsExcept(p: PipelineValue, q: PipelineValue, ids: set<string>) {
    (forall k :: k in p.nodes && k !in ids ==> k in q.nodes && q.nodes[k] == p.nodes[k])
    && |q.links| >= |p.links| && q.links[..|p.links|] == p.links
  }

  function IdSet(ids: FreshIds): set<string> {
    {ids.first, ids.second, ids.third}
  }

  /** Different aliases draw different ids, as fresh UUIDs are. */
  predicate DrawsDisjoint(draws: map<string, FreshIds>) {
    forall a, b :: a in draws && b in draws && a != b ==> IdSet(draws[a]) !! IdSet(draws[b])
  }

  /** p holds the expansion of alias n drawn with ids: each of its elements,
      and each of its links. */
  predicate HoldsExpansion(p: PipelineValue, n: AbstractNode, ids: FreshIds)
    requires IsAliased(n) && Distinct(ids)
  {
    && AliasToPipeline(n, ids).Ok?
    && (var e := AliasToPipeline(n, ids).value.pipeline;
        && (forall j :: j in e.nodes ==> j in p.nodes && p.nodes[j] == e.nodes[j])
        && (forall l :: l in e.links ==> l in p.links))
  }

  /** j is an element of the expansion of alias n drawn with ids. */
  predicate ExpansionHasNode(n: AbstractNode, ids: FreshIds, j: string)
    requires IsAliased(n) && Distinct(ids)
  {
    AliasToPipeline(n, ids).Ok? && j in AliasToPipeline(n, ids).value.pipeline.nodes
  }

  /** l is a link of the expansion of alias n drawn with ids. */
  predicate ExpansionHasLink(n: AbstractNode, ids: FreshIds, l: AbstractLink)
    requires IsAliased(n) && Distinct(ids)
  {
    AliasToPipeline(n, ids).Ok? && l in AliasToPipeline(n, ids).value.pipeline.links
  }

  /** The aliases in done are aliases of p with drawn ids. */
  predicate DoneAliases(p: PipelineValue, draws: map<string, FreshIds>, done: set<string>) {
    forall k :: k in done ==> k in p.nodes && IsAliased(p.nodes[k]) && k in draws && Distinct(draws[k])
  }

  /** j is an element of the expansion of one of the aliases in done. */
  predicate NodeOfExpansions(p: PipelineValue, draws: map<string, FreshIds>, done: set<string>, j: string)
    requires DoneAliases(p, draws, done)
  {
    exists k :: k in done && ExpansionHasNode(p.nodes[k], draws[k], j)
  }

  /** l is a link of the expansion of one of the aliases in done. */
  predicate LinkOfExpansions(p: PipelineValue, draws: map<string, FreshIds>, done: set<string>, l: AbstractLink)
    requires DoneAliases(p, draws, done)
  {
    exists k :: k in done && ExpansionHasLink(p.nodes[k], draws[k], l)
  }

  /** q adds to p nothing but the expansions of the aliases in done: each
      node of q outside p, and each link after p's, belongs to one of them. */
  predicate OnlyExpansions(p: PipelineValue, q: PipelineValue, draws: map<string, FreshIds>, done: set<string>)
    requires DoneAliases(p, draws, done)
  {
    && (forall j :: j in q.nodes ==> j in p.nodes || NodeOfExpansions(p, draws, done, j))
    && (forall i :: |p.links| <= i < |q.links| ==> LinkOfExpansions(p, draws, done, q.links[i]))
  }

  /** No element of s occurs twice. */
  predicate NoRepeats(s: seq<string>) {
    forall i, j :: 0 <= i < j < |s| ==> s[i] != s[j]
  }

  lemma NoRepeatsSnoc(s: seq<string>, x: string)
    requires NoRepeats(s) && x !in s
    ensures NoRepeats(s + [x])
  {
    forall i, j | 0 <= i < j < |s + [x]|
      ensures (s + [x])[i] != (s + [x])[j]
    {
      if j < |s| {
        assert (s + [x])[i] == s[i] && (s + [x])[j] == s[j];
      } else {
        assert (s + [x])[i] == s[i];
      }
    }
  }

  /** Every id in order is an alias of p with drawn ids. */
  predicate AliasesInOrder(p: PipelineValue, draws: map<string, FreshIds>, order: seq<string>) {
    forall k :: k in order ==> k in p.nodes && IsAliased(p.nodes[k]) && k in draws && Distinct(draws[k])
  }

  /** The expansions of the aliases of p listed in order, merged into p one
      after another; an alias that does not expand adds nothing. */
  function MergedInOrder(p: PipelineValue, draws: map<string, FreshIds>, order: seq<string>): (q: PipelineValue)
    requires AliasesInOrder(p, draws, order)
    ensures |q.links| >= |p.links| && q.links[..|p.links|] == p.links
    ensures forall j :: j in p.nodes ==> j in q.nodes
    decreases |order|
  {
    if order == [] then p
    else
      var q := MergedInOrder(p, draws, order[..|order| - 1]);
      var k := order[|order| - 1];
      var r := AliasToPipeline(p.nodes[k], draws[k]);
      if r.Ok? then
        assert (q.links + r.value.pipeline.links)[..|p.links|] == q.links[..|p.links|];
        PipelineValue(q.nodes + r.value.pipeline.nodes, q.links + r.value.pipeline.links)
      else q
  }

  /** One more alias at the end of the order merges its expansion, if any,
      into the result for the order before it. */
  lemma MergedInOrderSnoc(p: PipelineValue, draws: map<string, FreshIds>, order: seq<string>, id: string)
    requires AliasesInOrder(p, draws, order)
    requires id in p.nodes && IsAliased(p.nodes[id]) && id in draws && Distinct(draws[id])
    ensures AliasesInOrder(p, draws, order + [id])
    ensures var q := MergedInOrder(p, draws, order);
            var r := AliasToPipeline(p.nodes[id], draws[id]);
            MergedInOrder(p, draws, order + [id])
              == if r.Ok? then PipelineValue(q.nodes + r.value.pipeline.nodes, q.links + r.value.pipeline.links) else q
  {
    assert (order + [id])[..|order|] == order;
  }

  /** Merging the expansions in any order adds nothing but the expansions. */
  lemma {:induction false} MergedInOrderOnlyExpansions(p: PipelineValue, draws: map<string, FreshIds>, order: seq<string>)
    requires AliasesInOrder(p, draws, order)
    ensures DoneAliases(p, draws, set k | k in order)
    ensures OnlyExpansions(p, MergedInOrder(p, draws, order), draws, set k | k in order)
    decreases |order|
  {
    if order != [] {
      var init := order[..|order| - 1];
      var id := order[|order| - 1];
      assert order == init + [id];
      assert (set k | k in order) == (set k | k in init) + {id};
      MergedInOrderOnlyExpansions(p, draws, init);
      var q := MergedInOrder(p, draws, init);
      if AliasToPipeline(p.nodes[id], draws[id]).Ok? {
        OnlyExpansionsStep(p, q, MergedInOrder(p, draws, order), draws, (set k | k in init), id);
      } else {
        OnlyExpansionsWiden(p, q, draws, (set k | k in init), id);
      }
    }
  }

  /** The same, with the aliases merged given as the keys of m. */
  lemma MergedOnlyExpansions(p: PipelineValue, draws: map<string, FreshIds>, order: seq<string>, m: map<string, AliasIo>)
    requires forall k :: k in order <==> k in m
    requires DoneAliases(p, draws, m.Keys)
    ensures AliasesInOrder(p, draws, order)
    ensures OnlyExpansions(p, MergedInOrder(p, draws, order), draws, m.Keys)
  {
    assert (set k | k in order) == m.Keys;
    MergedInOrderOnlyExpansions(p, draws, order);
  }

  /** Allowing the expansion of one more alias keeps the statement true. */
  lemma OnlyExpansionsWiden(p: PipelineValue, q: PipelineValue, draws: map<string, FreshIds>, done: set<string>, id: string)
    requires DoneAliases(p, draws, done + {id}) && OnlyExpansions(p, q, draws, done)
    ensures OnlyExpansions(p, q, draws, done + {id})
  {
    forall j | j in q.nodes && j !in p.nodes
      ensures NodeOfExpansions(p, draws, done + {id}, j)
    {
      var k :| k in done && ExpansionHasNode(p.nodes[k], draws[k], j);
      assert k in done + {id};
    }
    forall i | |p.links| <= i < |q.links|
      ensures LinkOfExpansions(p, draws, done + {id}, q.links[i])
    {
      var k :| k in done && ExpansionHasLink(p.nodes[k], draws[k], q.links[i]);
      assert k in done + {id};
    }
  }

  /** Merging the expansion of one more alias keeps q within p and the
      expansions. */
  lemma OnlyExpansionsStep(p: PipelineValue, q: PipelineValue, r: PipelineValue, draws: map<string, FreshIds>,
                           done: set<string>, id: string)
    requires DoneAliases(p, draws, done) && OnlyExpansions(p, q, draws, done) && |q.links| >= |p.links|
    requires id in p.nodes && IsAliased(p.nodes[id]) && id in draws && Distinct(draws[id])
    requires AliasToPipeline(p.nodes[id], draws[id]).Ok?
    requires r.nodes == q.nodes + AliasToPipeline(p.nodes[id], draws[id]).value.pipeline.nodes
    requires r.links == q.links + AliasToPipeline(p.nodes[id], draws[id]).value.pipeline.links
    ensures DoneAliases(p, draws, done + {id}) && OnlyExpansions(p, r, draws, done + {id})
  {
    NodesOfExpansionsStep(p, q, r, draws, done, id);
    LinksOfExpansionsStep(p, q, r, draws, done, id);
  }

  lemma DoneAliasesAdd(p: PipelineValue, draws: map<string, FreshIds>, done: set<string>, id: string)
    requires DoneAliases(p, draws, done)
    requires id in p.nodes && IsAliased(p.nodes[id]) && id in draws && Distinct(draws[id])
    ensures DoneAliases(p, draws, done + {id})
  {
  }

  lemma NodesOfExpansionsStep(p: PipelineValue, q: PipelineValue, r: PipelineValue, draws: map<string, FreshIds>,
                              done: set<string>, id: string)
    requires DoneAliases(p, draws, done) && OnlyExpansions(p, q, draws, done)
    requires id in p.nodes && IsAliased(p.nodes[id]) && id in draws && Distinct(draws[id])
    requires AliasToPipeline(p.nodes[id], draws[id]).Ok?
    requires r.nodes == q.nodes + AliasToPipeline(p.nodes[id], draws[id]).value.pipeline.nodes
    ensures DoneAliases(p, draws, done + {id})
    ensures forall j :: j in r.nodes ==> j in p.nodes || NodeOfExpansions(p, draws, done + {id}, j)
  {
    DoneAliasesAdd(p, draws, done, id);
    forall j | j in r.nodes && j !in p.nodes
      ensures NodeOfExpansions(p, draws, done + {id}, j)
    {
      if j !in q.nodes {
        assert ExpansionHasNode(p.nodes[id], draws[id], j);
      } else {
        var k :| k in done && ExpansionHasNode(p.nodes[k], draws[k], j);
        assert k in done + {id};
      }
    }
  }

  lemma LinksOfExpansionsStep(p: PipelineValue, q: PipelineValue, r: PipelineValue, draws: map<string, FreshIds>,
                              done: set<string>, id: string)
    requires DoneAliases(p, draws, done) && OnlyExpansions(p, q, draws, done) && |q.links| >= |p.links|
    requires id in p.nodes && IsAliased(p.nodes[id]) && id in draws && Distinct(draws[id])
    requires AliasToPipeline(p.nodes[id], draws[id]).Ok?
    requires r.links == q.links + AliasToPipeline(p.nodes[id], draws[id]).value.pipeline.links
    ensures DoneAliases(p, draws, done + {id})
    ensures forall i :: |p.links| <= i < |r.links| ==> LinkOfExpansions(p, draws, done + {id}, r.links[i])
  {
    DoneAliasesAdd(p, draws, done, id);
    forall i | |p.links| <= i < |r.links|
      ensures LinkOfExpansions(p, draws, done + {id}, r.links[i])
    {
      if i >= |q.links| {
        assert r.links[i] == AliasToPipeline(p.nodes[id], draws[id]).value.pipeline.links[i - |q.links|];
        assert ExpansionHasLink(p.nodes[id], draws[id], r.links[i]);
      } else {
        assert r.links[i] == q.links[i];
        var k :| k in done && ExpansionHasLink(p.nodes[k], draws[k], q.links[i]);
        assert k in done + {id};
      }
    }
  }

  /** The ids of the alias nodes. */
  function AliasKeys(nodes: map<string, AbstractNode>): (r: set<string>)
    ensures forall k :: k in r <==> k in nodes && IsAliased(nodes[k])
  {
    set k | k in nodes && IsAliased(nodes[k])
  }

  /** Rewiring leaves a link of an expansion alone when no id it drew is
      rewired. */
  lemma ExpansionLinkNotRewired(n: AbstractNode, ids: FreshIds, m: map<string, AliasIo>, l: AbstractLink)
    requires IsAliased(n) && Distinct(ids) && ExpansionHasLink(n, ids, l) && IdSet(ids) !! m.Keys
    ensures RewireLink(l, m) == l
  {
    assert l.from.id in IdSet(ids) && l.to.id in IdSet(ids);
  }

  /** Merging one more alias's expansion keeps the expansions merged before
      it, since different aliases draw different ids. */
  lemma ExpansionsKept(p: PipelineValue, q: PipelineValue, nodes: map<string, AbstractNode>, draws: map<string, FreshIds>,
                       done: set<string>, id: string)
    requires forall k :: k in done ==> k in nodes && IsAliased(nodes[k]) && k in draws && Distinct(draws[k])
    requires forall k :: k in done ==> HoldsExpansion(p, nodes[k], draws[k])
    requires id in draws && id !in done && DrawsDisjoint(draws) && KeepsExcept(p, q, IdSet(draws[id]))
    ensures forall k :: k in done ==> HoldsExpansion(q, nodes[k], draws[k])
  {
    forall k | k in done
      ensures HoldsExpansion(q, nodes[k], draws[k])
    {
      HoldsExpansionKept(p, q, nodes[k], draws[k], IdSet(draws[id]));
    }
  }

  /** Fresh draws avoid every node id, so in particular every alias id. */
  lemma DrawsAvoidNodes(draws: map<string, FreshIds>, nodes: map<string, AbstractNode>, ids: set<string>, k: string)
    requires DrawsFresh(draws, nodes) && ids <= nodes.Keys && k in draws
    ensures IdSet(draws[k]) !! ids
  {
  }

  /** Removing the aliases and rewiring the links keeps every expansion:
      its elements and links carry drawn ids only, and no alias has one. */
  lemma ExpansionSurvivesConversion(merged: PipelineValue, final: PipelineValue, n: AbstractNode, ids: FreshIds,
                                    m: map<string, AliasIo>)
    requires IsAliased(n) && Distinct(ids) && HoldsExpansion(merged, n, ids)
    requires IdSet(ids) !! m.Keys
    requires final.nodes == merged.nodes - m.Keys
    requires |final.links| == |merged.links|
    requires forall i :: 0 <= i < |final.links| ==> final.links[i] == RewireLink(merged.links[i], m)
    ensures HoldsExpansion(final, n, ids)
  {
    var e := AliasToPipeline(n, ids).value.pipeline;
    forall l | l in e.links
      ensures l in final.links
    {
      var i :| 0 <= i < |merged.links| && merged.links[i] == l;
      assert l.from.id in IdSet(ids) && l.to.id in IdSet(ids);
      assert final.links[i] == l;
    }
  }

  /** After the aliases are expanded into merged and removed, every
      expansion is still held, the aliases are gone and the other nodes are
      as they were. */
  lemma ConversionKeepsNodes(p: PipelineValue, merged: PipelineValue, final: PipelineValue,
                             draws: map<string, FreshIds>, m: map<string, AliasIo>)
    requires DrawsFresh(draws, p.nodes) && m.Keys == AliasKeys(p.nodes)
    requires forall k :: k in m ==> k in draws && HoldsExpansion(merged, p.nodes[k], draws[k])
    requires KeepsExcept(p, merged, {})
    requires final.nodes == merged.nodes - m.Keys
    requires |final.links| == |merged.links|
    requires forall i :: 0 <= i < |final.links| ==> final.links[i] == RewireLink(merged.links[i], m)
    ensures forall k :: k in p.nodes && IsAliased(p.nodes[k]) ==> HoldsExpansion(final, p.nodes[k], draws[k])
    ensures forall k :: k in p.nodes && IsAliased(p.nodes[k]) ==> k !in final.nodes
    ensures forall k :: k in p.nodes && !IsAliased(p.nodes[k]) ==> k in final.nodes && final.nodes[k] == p.nodes[k]
  {
    ExpansionsSurviveConversion(p, merged, final, draws, m);
  }

  /** Nor does removing the aliases add a node: what is left is a non-alias
      node of p or an element of an expansion. */
  lemma ConversionAddsNoNodes(p: PipelineValue, merged: PipelineValue, final: PipelineValue,
                              draws: map<string, FreshIds>, m: map<string, AliasIo>, order: seq<string>)
    requires m.Keys == AliasKeys(p.nodes) && DoneAliases(p, draws, m.Keys)
    requires (forall k :: k in order <==> k in m) && AliasesInOrder(p, draws, order) && merged == MergedInOrder(p, draws, order)
    requires final.nodes == merged.nodes - m.Keys
    ensures forall j :: j in final.nodes ==>
              (j in p.nodes && !IsAliased(p.nodes[j])) || NodeOfExpansions(p, draws, AliasKeys(p.nodes), j)
  {
    MergedOnlyExpansions(p, draws, order, m);
  }

  /** The links after the old ones are links of the expansions, which
      rewiring leaves alone. */
  lemma ConversionAddsNoLinks(p: PipelineValue, merged: PipelineValue, final: PipelineValue,
                              draws: map<string, FreshIds>, m: map<string, AliasIo>, order: seq<string>)
    requires DrawsFresh(draws, p.nodes) && m.Keys == AliasKeys(p.nodes) && DoneAliases(p, draws, m.Keys)
    requires (forall k :: k in order <==> k in m) && AliasesInOrder(p, draws, order) && merged == MergedInOrder(p, draws, order)
    requires |final.links| == |merged.links|
    requires forall i :: 0 <= i < |final.links| ==> final.links[i] == RewireLink(merged.links[i], m)
    ensures forall i :: |p.links| <= i < |final.links| ==> LinkOfExpansions(p, draws, AliasKeys(p.nodes), final.links[i])
  {
    MergedOnlyExpansions(p, draws, order, m);
    forall i | |p.links| <= i < |final.links|
      ensures LinkOfExpansions(p, draws, m.Keys, final.links[i])
    {
      assert LinkOfExpansions(p, draws, m.Keys, merged.links[i]);
      var k :| k in m.Keys && ExpansionHasLink(p.nodes[k], draws[k], merged.links[i]);
      DrawsAvoidNodes(draws, p.nodes, m.Keys, k);
      ExpansionLinkNotRewired(p.nodes[k], draws[k], m, merged.links[i]);
    }
  }

  /** The old links are rewired in place. */
  lemma ConversionRewiresLinks(p: PipelineValue, merged: PipelineValue, final: PipelineValue, m: map<string, AliasIo>)
    requires KeepsExcept(p, merged, {})
    requires |final.links| == |merged.links|
    requires forall i :: 0 <= i < |final.links| ==> final.links[i] == RewireLink(merged.links[i], m)
    ensures |final.links| >= |p.links|
    ensures forall i :: 0 <= i < |p.links| ==> final.links[i] == RewireLink(p.links[i], m)
  {
    assert forall i :: 0 <= i < |p.links| ==> merged.links[i] == p.links[i] by {
      assert merged.links[..|p.links|] == p.links;
    }
  }

  /** After rewiring no link touches an alias, since every alias is in m and
      fresh draws never reconnect to one. */
  lemma RewiredLinksAvoidAliases(p: PipelineValue, merged: PipelineValue, final: PipelineValue,
                                 draws: map<string, FreshIds>, m: map<string, AliasIo>)
    requires DrawsFresh(draws, p.nodes) && AllAliasesExpand(p.nodes, draws) && m == AliasMap(p.nodes, draws)
    requires |final.links| == |merged.links|
    requires forall i :: 0 <= i < |final.links| ==> final.links[i] == RewireLink(merged.links[i], m)
    ensures forall i :: 0 <= i < |final.links| ==> !IsAliasIn(p.nodes, final.links[i].from.id) && !IsAliasIn(p.nodes, final.links[i].to.id)
  {
    AliasMapAvoidsAliases(p.nodes, draws);
    forall i | 0 <= i < |final.links|
      ensures !IsAliasIn(p.nodes, final.links[i].from.id) && !IsAliasIn(p.nodes, final.links[i].to.id)
    {
      RewireLinkAvoidsAliases(merged.links[i], m);
    }
  }

  /** The same for every alias of p at once. */
  lemma ExpansionsSurviveConversion(p: PipelineValue, merged: PipelineValue, final: PipelineValue,
                                    draws: map<string, FreshIds>, m: map<string, AliasIo>)
    requires DrawsFresh(draws, p.nodes) && m.Keys <= p.nodes.Keys
    requires forall k :: k in m ==> IsAliased(p.nodes[k]) && k in draws && HoldsExpansion(merged, p.nodes[k], draws[k])
    requires final.nodes == merged.nodes - m.Keys
    requires |final.links| == |merged.links|
    requires forall i :: 0 <= i < |final.links| ==> final.links[i] == RewireLink(merged.links[i], m)
    ensures forall k :: k in m ==> HoldsExpansion(final, p.nodes[k], draws[k])
  {
    forall k | k in m
      ensures HoldsExpansion(final, p.nodes[k], draws[k])
    {
      DrawsAvoidNodes(draws, p.nodes, m.Keys, k);
      ExpansionSurvivesConversion(merged, final, p.nodes[k], draws[k], m);
    }
  }

  /** An expansion held by p is still held by a q that keeps p's links and
      every node of p outside ids, when the expansion draws none of ids. */
  lemma HoldsExpansionKept(p: PipelineValue, q: PipelineValue, n: AbstractNode, draws: FreshIds, ids: set<string>)
    requires IsAliased(n) && Distinct(draws)
    requires HoldsExpansion(p, n, draws) && KeepsExcept(p, q, ids) && IdSet(draws) !! ids
    ensures HoldsExpansion(q, n, draws)
  {
    var e := AliasToPipeline(n, draws).value.pipeline;
    forall l | l in e.links
      ensures l in q.links
    {
      assert l in q.links[..|p.links|];
    }
  }

  lemma KeepsExceptTrans(p: PipelineValue, q: PipelineValue, r: PipelineValue, ids: set<string>)
    requires KeepsExcept(p, q, {}) && KeepsExcept(q, r, ids)
    requires forall k :: k in ids ==> k !in p.nodes
    ensures KeepsExcept(p, r, {})
  {
    assert r.links[..|p.links|] == r.links[..|q.links|][..|p.links|];
  }

  predicate IsAliasIn(nodes: map<string, AbstractNode>, id: string) {
    id in nodes && IsAliased(nodes[id])
  }

  /** With fresh draws no alias reconnects to an alias: inputs and outputs are
      drawn ids, and those are not node ids. */
  lemma AliasMapAvoidsAliases(nodes: map<string, AbstractNode>, draws: map<string, FreshIds>)
    requires DrawsFresh(draws, nodes)
    ensures var m := AliasMap(nodes, draws);
            forall k :: k in m ==> m[k].input !in m && m[k].output !in m
  {
    var m := AliasMap(nodes, draws);
    forall k | k in m
      ensures m[k].input !in m && m[k].output !in m
    {
      assert m[k].input in IdSet(draws[k]) && m[k].output in IdSet(draws[k]);
    }
  }

  /** Expansions recorded for exactly the alias nodes make up the alias map. */
  lemma AliasMapOfExpansions(nodes: map<string, AbstractNode>, draws: map<string, FreshIds>, io: map<string, AliasIo>)
    requires forall k :: k in io <==> k in nodes && IsAliased(nodes[k])
    requires forall k :: k in io ==> k in draws && ExpandsTo(nodes[k], draws[k], io[k])
    ensures AllAliasesExpand(nodes, draws)
    ensures io == AliasMap(nodes, draws)
  {
    assert forall k :: k in io <==> k in AliasMap(nodes, draws);
  }

  class AbstractPipeline {
    var nodes: map<string, AbstractNode>
    var links: seq<AbstractLink>

    function Value(): PipelineValue
      reads this
    {
      PipelineValue(nodes, links)
    }

    /** Maintained by every operation: each node is stored under its own id. */
    predicate Valid()
      reads this
    {
      KeyedById(nodes)
    }

    constructor()
      ensures nodes == map[] && links == [] && Valid()
    {
      nodes := map[];
      links := [];
    }

    /** `add_node`. */
    method AddNode(node: AbstractNode)
      modifies this
      ensures Value() == WithNode(old(Value()), node)
      ensures old(Valid()) ==> Valid()
    {
      nodes := nodes[node.id := node];
    }

    /** `link`: a property-less link between the two nodes' ids. */
    method Link(from: AbstractNode, to: AbstractNode)
      modifies this
      ensures Value() == WithLink(old(Value()), from, to)
    {
      links := links + [PlainLink(from, to)];
    }

    /** `link_abstract`. */
    method LinkAbstract(link: AbstractLink)
      modifies this
      ensures nodes == old(nodes) && links == old(links) + [link]
    {
      links := links + [link];
    }

    /** `merge`: every node of other is added (in the map's iteration order,
        which cannot matter since each is stored under its own id), then its
        links are appended in order. */
    method Merge(other: PipelineValue)
      requires KeyedById(other.nodes)
      modifies this
      ensures nodes == old(nodes) + other.nodes
      ensures links == old(links) + other.links
      ensures old(Valid()) ==> Valid()
    {
      AddNodes(other.nodes);
      AppendLinks(other.links);
    }

    /** The node loop of `merge`. */
    method AddNodes(m: map<string, AbstractNode>)
      requires KeyedById(m)
      modifies this
      ensures nodes == old(nodes) + m && links == old(links)
      ensures old(Valid()) ==> Valid()
    {
      var remaining := m.Keys;
      while remaining != {}
        invariant remaining <= m.Keys
        invariant forall k :: k in nodes <==> k in old(nodes) || (k in m && k !in remaining)
        invariant forall k :: k in nodes ==> nodes[k] == if k in m && k !in remaining then m[k] else old(nodes)[k]
        invariant links == old(links)
        invariant old(Valid()) ==> Valid()
        decreases |remaining|
      {
        var id :| id in remaining;
        nodes := nodes[id := m[id]];
        remaining := remaining - {id};
      }
      assert nodes == old(nodes) + m;
    }

    /** The link loop of `merge`. */
    method AppendLinks(ls: seq<AbstractLink>)
      modifies this
      ensures links == old(links) + ls && nodes == old(nodes)
    {
      for i := 0 to |ls|
        invariant nodes == old(nodes)
        invariant links == old(links) + ls[..i]
      {
        links := links + [ls[i]];
        assert ls[..i + 1] == ls[..i] + [ls[i]];
      }
      assert ls[..|ls|] == ls;
    }

    /** `check_and_remove_dangling_node`: a dead-end node is removed together
        with the links into it, and the sources of those links are returned;
        a missing node, a sink or a node with an outgoing link gives None and
        no change. */
    method CheckAndRemoveDanglingNode(id: string) returns (r: Option<seq<string>>)
      modifies this
      ensures r.None? <==> !IsDangling(old(Value()), id)
      ensures r.None? ==> nodes == old(nodes) && links == old(links)
      ensures r.Some? ==> nodes == old(nodes) - {id} && links == LinksNotTo(old(links), id)
      ensures r.Some? ==> r.value == IncomingSources(old(links), id)
      ensures old(Valid()) ==> Valid()
    {
      if id !in nodes {
        return None;
      }
      var node := nodes[id];
      if node.nodeType == "splitmuxsink" || node.nodeType == "filesink" {
        return None;
      }
      var linksFromNode := LinksFrom(links, id);
      if |linksFromNode| > 0 {
        assert linksFromNode[0] in links;
        return None;
      }
      var incoming := IncomingSources(links, id);
      nodes := nodes - {id};
      links := LinksNotTo(links, id);
      r := Some(incoming);
    }

    /** `remove_dangling`: checks every node, and re-checks the sources of
        every node it removes, until no dead end is left. Sinks are kept, and
        nothing is added. order lists the removals: each was a dead end when
        it was removed. */
    method RemoveDangling() returns (ghost order: seq<string>)
      modifies this
      ensures DeadEndOrder(old(Value()), order) && Value() == RemovedInOrder(old(Value()), order)
      ensures forall id :: !IsDangling(Value(), id)
      ensures nodes.Keys <= old(nodes).Keys && forall k :: k in nodes ==> nodes[k] == old(nodes)[k]
      ensures forall k :: k in old(nodes) && IsSink(old(nodes)[k]) ==> k in nodes
      ensures forall l :: l in links <==> l in old(links) && !Gone(old(nodes), nodes, l.to.id)
      ensures forall l :: l in old(links) && Gone(old(nodes), nodes, l.from.id) ==> Gone(old(nodes), nodes, l.to.id)
      ensures old(Valid()) ==> Valid()
    {
      var toCheck := KeysInSomeOrder(nodes);
      order := [];
      while |toCheck| > 0
        invariant forall id :: IsDangling(Value(), id) ==> id in toCheck
        invariant DeadEndOrder(old(Value()), order) && Value() == RemovedInOrder(old(Value()), order)
        invariant PrunedFrom(old(Value()), Value())
        invariant old(Valid()) ==> Valid()
        decreases |nodes.Keys|, |toCheck|
      {
        var next := toCheck[0];
        toCheck := toCheck[1..];
        ghost var before := Value();
        var removed := CheckAndRemoveDanglingNode(next);
        if removed.Some? {
          assert nodes.Keys == before.nodes.Keys - {next};
          PrunedFromStep(old(Value()), before, next);
          DeadEndOrderStep(old(Value()), order, next);
          order := order + [next];
          toCheck := toCheck + removed.value;
          forall id | IsDangling(Value(), id)
            ensures id in toCheck
          {
            if HasOutgoing(before.links, id) {
              var l :| l in before.links && l.from.id == id;
              assert l.to.id == next;
            } else {
              assert IsDangling(before, id);
            }
          }
        }
      }
    }

    /** `convert_aliases`: every alias node is expanded into its concrete
        elements (merged in), the alias nodes are removed, and every link is
        reconnected from an alias's output element and to its input element.
        The source panics when an alias does not expand; ok is then false. */
    method ConvertAliases(draws: map<string, FreshIds>) returns (ok: bool)
      requires Valid()
      requires forall k :: k in nodes && IsAliased(nodes[k]) ==> k in draws
      requires DrawsFresh(draws, nodes) && DrawsDisjoint(draws)
      modifies this
      ensures ok <==> AllAliasesExpand(old(nodes), draws)
      ensures ok ==> forall k :: k in old(nodes) && IsAliased(old(nodes)[k]) ==> HoldsExpansion(Value(), old(nodes)[k], draws[k])
      ensures ok ==> forall k :: k in old(nodes) && IsAliased(old(nodes)[k]) ==> k !in nodes
      ensures ok ==> forall k :: k in old(nodes) && !IsAliased(old(nodes)[k]) ==> k in nodes && nodes[k] == old(nodes)[k]
      ensures ok ==> forall j :: j in nodes ==>
                       (j in old(nodes) && !IsAliased(old(nodes)[j])) || NodeOfExpansions(old(Value()), draws, AliasKeys(old(nodes)), j)
      ensures ok ==> |links| >= |old(links)|
      ensures ok ==> forall i :: 0 <= i < |old(links)| ==> links[i] == RewireLink(old(links)[i], AliasMap(old(nodes), draws))
      ensures ok ==> forall i :: 0 <= i < |links| ==> !IsAliasIn(old(nodes), links[i].from.id) && !IsAliasIn(old(nodes), links[i].to.id)
      ensures ok ==> forall i :: |old(links)| <= i < |links| ==>
                       LinkOfExpansions(old(Value()), draws, AliasKeys(old(nodes)), links[i])
      ensures Valid()
    {
      var aliasIo;
      ghost var order;
      ok, aliasIo, order := ExpandAliases(draws);
      if !ok {
        return;
      }
      ghost var expanded := Value();
      RemoveNodes(aliasIo.Keys);
      RewireLinks(aliasIo);
      assert aliasIo.Keys == AliasKeys(old(nodes));
      ConversionKeepsNodes(old(Value()), expanded, Value(), draws, aliasIo);
      ConversionAddsNoNodes(old(Value()), expanded, Value(), draws, aliasIo, order);
      ConversionAddsNoLinks(old(Value()), expanded, Value(), draws, aliasIo, order);
      ConversionRewiresLinks(old(Value()), expanded, Value(), aliasIo);
      RewiredLinksAvoidAliases(old(Value()), expanded, Value(), draws, aliasIo);
    }

    /** The first loop of `convert_aliases`: the expansion of every alias is
        merged in, and the input and output of each is recorded. */
    method ExpandAliases(draws: map<string, FreshIds>) returns (ok: bool, aliasIo: map<string, AliasIo>, ghost order: seq<string>)
      requires Valid()
      requires forall k :: k in nodes && IsAliased(nodes[k]) ==> k in draws
      requires DrawsFresh(draws, nodes) && DrawsDisjoint(draws)
      modifies this
      ensures ok <==> AllAliasesExpand(old(nodes), draws)
      ensures ok ==> aliasIo == AliasMap(old(nodes), draws)
      ensures ok ==> forall k :: k in aliasIo ==> HoldsExpansion(Value(), old(nodes)[k], draws[k])
      ensures ok ==> (forall k :: k in order <==> k in aliasIo) && NoRepeats(order)
      ensures ok ==> AliasesInOrder(old(Value()), draws, order) && Value() == MergedInOrder(old(Value()), draws, order)
      ensures KeepsExcept(old(Value()), Value(), {})
      ensures Valid()
    {
      ghost var start := Value();
      var aliases := set k | k in nodes && IsAliased(nodes[k]);
      aliasIo := map[];
      var remaining := aliases;
      order := [];
      while remaining != {}
        invariant remaining <= aliases
        invariant forall k :: k in aliasIo <==> k in aliases && k !in remaining
        invariant forall k :: k in aliasIo ==>
                    ExpandsTo(start.nodes[k], draws[k], aliasIo[k]) && HoldsExpansion(Value(), start.nodes[k], draws[k])
        invariant KeepsExcept(start, Value(), {})
        invariant (forall k :: k in order <==> k in aliasIo) && NoRepeats(order)
        invariant AliasesInOrder(start, draws, order) && Value() == MergedInOrder(start, draws, order)
        invariant Valid()
        decreases remaining
      {
        var id :| id in remaining;
        var io := ExpandOne(start, draws, id, aliasIo.Keys);
        if io.None? {
          return false, aliasIo, order;
        }
        NoRepeatsSnoc(order, id);
        MergedInOrderSnoc(start, draws, order, id);
        aliasIo := aliasIo[id := io.value];
        order := order + [id];
        remaining := remaining - {id};
      }
      ok := true;
      AliasMapOfExpansions(start.nodes, draws, aliasIo);
    }

    /** One pass of that loop, for the alias stored under id: its expansion,
        if any, merged in beside those of the aliases done before; without
        one not every alias expands. */
    method ExpandOne(ghost start: PipelineValue, draws: map<string, FreshIds>, id: string, ghost done: set<string>)
      returns (io: Option<AliasIo>)
      requires Valid() && KeepsExcept(start, Value(), {})
      requires id in start.nodes && IsAliased(start.nodes[id]) && id in draws && id !in done
      requires DrawsFresh(draws, start.nodes) && DrawsDisjoint(draws)
      requires forall k :: k in done ==> k in start.nodes && IsAliased(start.nodes[k]) && k in draws
      requires forall k :: k in done ==> HoldsExpansion(Value(), start.nodes[k], draws[k])
      modifies this
      ensures io.Some? ==> ExpandsTo(start.nodes[id], draws[id], io.value)
      ensures io.Some? ==> HoldsExpansion(Value(), start.nodes[id], draws[id])
      ensures io.Some? ==> forall k :: k in done ==> HoldsExpansion(Value(), start.nodes[k], draws[k])
      ensures io.Some? ==> nodes == old(nodes) + AliasToPipeline(start.nodes[id], draws[id]).value.pipeline.nodes
                           && links == old(links) + AliasToPipeline(start.nodes[id], draws[id]).value.pipeline.links
      ensures io.None? ==> nodes == old(nodes) && links == old(links)
      ensures io.None? ==> !AllAliasesExpand(start.nodes, draws)
      ensures KeepsExcept(start, Value(), {})
      ensures KeepsExcept(old(Value()), Value(), IdSet(draws[id]))
      ensures Valid()
    {
      ghost var before := Value();
      var ids := draws[id];
      assert forall k :: k in IdSet(ids) ==> k !in start.nodes;
      io := MergeAlias(nodes[id], ids);
      KeepsExceptTrans(start, before, Value(), IdSet(ids));
      if io.Some? {
        var e := AliasToPipeline(start.nodes[id], ids).value.pipeline;
        forall l | l in e.links
          ensures l in links
        {
          assert l in links[|before.links|..];
        }
        ExpansionsKept(before, Value(), start.nodes, draws, done, id);
      }
    }

    /** One pass of that loop: the expansion of alias n, if any, merged in. */
    method MergeAlias(n: AbstractNode, ids: FreshIds) returns (io: Option<AliasIo>)
      requires IsAliased(n) && Distinct(ids) && Valid()
      modifies this
      ensures io.Some? <==> AliasToPipeline(n, ids).Ok?
      ensures io.Some? ==> ExpandsTo(n, ids, io.value)
      ensures io.Some? ==> nodes == old(nodes) + AliasToPipeline(n, ids).value.pipeline.nodes
                           && links == old(links) + AliasToPipeline(n, ids).value.pipeline.links
      ensures io.None? ==> nodes == old(nodes) && links == old(links)
      ensures KeepsExcept(old(Value()), Value(), IdSet(ids))
      ensures Valid()
    {
      var expansion := AliasToPipeline(n, ids);
      if expansion.Err? {
        AliasEndsAgree(n, ids);
        return None;
      }
      AliasEndsAgree(n, ids);
      Merge(expansion.value.pipeline);
      io := Some(AliasIo(expansion.value.input, expansion.value.output));
    }

    /** The second loop of `convert_aliases`: the given nodes are removed. */
    method RemoveNodes(ids: set<string>)
      modifies this
      ensures nodes == old(nodes) - ids && links == old(links)
      ensures old(Valid()) ==> Valid()
    {
      var toRemove := ids;
      while toRemove != {}
        invariant toRemove <= ids
        invariant nodes == old(nodes) - (ids - toRemove) && links == old(links)
        invariant old(Valid()) ==> Valid()
        decreases |toRemove|
      {
        var id :| id in toRemove;
        nodes := nodes - {id};
        toRemove := toRemove - {id};
      }
    }

    /** The last loop of `convert_aliases`: every link is reconnected. */
    method RewireLinks(m: map<string, AliasIo>)
      modifies this
      ensures nodes == old(nodes)
      ensures |links| == |old(links)| && forall i :: 0 <= i < |links| ==> links[i] == RewireLink(old(links)[i], m)
    {
      for i := 0 to |links|
        invariant nodes == old(nodes) && |links| == |old(links)|
        invariant forall j :: 0 <= j < i ==> links[j] == RewireLink(old(links)[j], m)
        invariant forall j :: i <= j < |links| ==> links[j] == old(links)[j]
      {
        links := links[i := RewireLink(links[i], m)];
      }
    }
  }

  /** The links leaving id (the source's `links_from_node`). */
  function LinksFrom(links: seq<AbstractLink>, id: string): (r: seq<AbstractLink>)
    ensures forall l :: l in r <==> l in links && l.from.id == id
    ensures |r| == 0 <==> !HasOutgoing(links, id)
  {
    if links == [] then []
    else
      assert forall l :: l in links <==> l == links[0] || l in links[1..];
      (if links[0].from.id == id then [links[0]] else []) + LinksFrom(links[1..], id)
  }

  /** The keys of a map in the map's (unspecified) iteration order. */
  method KeysInSomeOrder(m: map<string, AbstractNode>) returns (s: seq<string>)
    ensures forall k :: k in s <==> k in m
  {
    s := [];
    var remaining := m.Keys;
    while remaining != {}
      invariant remaining <= m.Keys
      invariant forall k :: k in s <==> k in m.Keys - remaining
      decreases |remaining|
    {
      var k :| k in remaining;
      s := s + [k];
      remaining := remaining - {k};
    }
  }
}
