/** Store edits (shared/src/task.rs): each task changes the store's nodes,
    clips or links and, unless it is skipped, emits the network job that
    tells the other side. */
module Tasks {
  import opened Wrappers
  import opened NodeTypes
  import opened Clips
  import opened ClientPipeline

  /** What a JSON clip value deserialises to as each clip kind; None when
      `serde_json::from_value` rejects it. */
  datatype ClipValue = ClipValue(asSource: Option<SourceClip>, asComposited: Option<CompositedClip>)

  /** `Task`. The ids `CreateCompositedClip` draws for its output node
      (`Uuid::new_v4()` and `uniq_id()`) are fields of the task. */
  datatype Task =
    | UpdateNode(id: ID, node: Node)
    | AddNode(node: Node)
    | AddLink(link: Link)
    | DeleteLinks(id: ID, property: Option<string>)
    | DeleteNode(id: ID)
    | UpdateClip(id: ID, clipType: ClipType, value: ClipValue)
    | CreateSourceClip(source: SourceClip)
    | CreateCompositedClip(composited: CompositedClip, outputNodeId: ID, outputGroup: ID)

  /** `NetworkTask`: the job that reports an applied task. */
  datatype NetworkTask =
    | GetSourceClipId(id: ID)
    | GetCompositedClipId(id: ID)
    | GetNodeId(id: ID)
    | UpdateNodeJob(id: ID)
    | AddLinkJob(link: Link)
    | DeleteLinksJob(id: ID, property: Option<string>)
    | DeleteNodeJob(id: ID)
    | UpdateClipJob(id: ID, clipType: ClipType)

  /** The parts of `Store` that tasks touch (the media table is never
      changed by a task). */
  datatype StoreValue = StoreValue(
    nodes: map<ID, Node>,
    sourceClips: map<ID, SourceClip>,
    compositedClips: map<ID, CompositedClip>,
    links: seq<Link>)

  datatype Outcome = Outcome(store: StoreValue, jobs: seq<NetworkTask>)

  // ------------------------------------------------------------ filters

  /** The links l with keep(l), in their order. */
  function Filter(links: seq<Link>, keep: Link -> bool): (r: seq<Link>)
    ensures forall l :: l in r <==> l in links && keep(l)
    ensures |r| <= |links|
    ensures (forall l :: l in links ==> keep(l)) ==> r == links
  {
    if links == [] then []
    else
      assert forall l :: l in links <==> l == links[0] || l in links[1..];
      assert links == [links[0]] + links[1..];
      (if keep(links[0]) then [links[0]] else []) + Filter(links[1..], keep)
  }

  /** Every input endpoint has at most one link into it. */
  predicate UniqueTargets(links: seq<Link>) {
    forall i, j :: 0 <= i < |links| && 0 <= j < |links| && EndpointId(links[i].to) == EndpointId(links[j].to) ==> i == j
  }

  /** Filtering keeps targets unique. */
  lemma {:induction false} FilterKeepsUniqueTargets(links: seq<Link>, keep: Link -> bool)
    requires UniqueTargets(links)
    ensures UniqueTargets(Filter(links, keep))
  {
    if links != [] {
      var rest := links[1..];
      assert UniqueTargets(rest) by {
        forall i, j | 0 <= i < |rest| && 0 <= j < |rest| && EndpointId(rest[i].to) == EndpointId(rest[j].to)
          ensures i == j
        {
          assert links[i + 1] == rest[i] && links[j + 1] == rest[j];
        }
      }
      FilterKeepsUniqueTargets(rest, keep);
      var tail := Filter(rest, keep);
      if keep(links[0]) {
        var r := [links[0]] + tail;
        forall i, j | 0 <= i < |r| && 0 <= j < |r| && EndpointId(r[i].to) == EndpointId(r[j].to)
          ensures i == j
        {
          if i == 0 && j > 0 {
            NotTargetedAgain(links, r[j]);
          } else if j == 0 && i > 0 {
            NotTargetedAgain(links, r[i]);
          }
        }
      }
    }
  }

  /** With unique targets, no later link shares the first link's target. */
  lemma NotTargetedAgain(links: seq<Link>, l: Link)
    requires UniqueTargets(links) && |links| > 0 && l in links[1..]
    ensures EndpointId(l.to) != EndpointId(links[0].to)
  {
    var k :| 0 <= k < |links[1..]| && links[1..][k] == l;
    assert links[k + 1] == l;
  }

  /** The `AddLink` filter: drop links into the new link's target endpoint. */
  function LinksNotToEndpoint(links: seq<Link>, target: LinkEndpoint): (r: seq<Link>)
    ensures forall l :: l in r <==> l in links && EndpointId(l.to) != EndpointId(target)
  {
    Filter(links, (l: Link) => EndpointId(l.to) != EndpointId(target))
  }

  /** `AddLink`: the new link comes last and is the only link into its
      target endpoint; targets that were unique stay unique. */
  lemma AddLinkUniqueTargets(links: seq<Link>, link: Link)
    requires UniqueTargets(links)
    ensures var r := LinksNotToEndpoint(links, link.to) + [link];
            UniqueTargets(r) && r[|r| - 1] == link
            && forall l :: l in r && EndpointId(l.to) == EndpointId(link.to) ==> l == link
  {
    var kept := LinksNotToEndpoint(links, link.to);
    FilterKeepsUniqueTargets(links, (l: Link) => EndpointId(l.to) != EndpointId(link.to));
    var r := kept + [link];
    forall i, j | 0 <= i < |r| && 0 <= j < |r| && EndpointId(r[i].to) == EndpointId(r[j].to)
      ensures i == j
    {
      if i < |kept| && j < |kept| {
      } else if i < |kept| || j < |kept| {
        assert false;
      }
    }
  }

  /** `DeleteLinks(id, Some(prop))` as written: a link survives only if its
      target node is not id AND its target property is not prop. */
  function DeleteLinksToPropertyAsWritten(links: seq<Link>, id: ID, prop: string): (r: seq<Link>)
    ensures forall l :: l in r <==> l in links && l.to.nodeId != id && l.to.property != prop
  {
    Filter(links, (l: Link) => l.to.nodeId != id && l.to.property != prop)
  }

  /** As written, removing the links into one input of one node also removes
      every link into that node and every link into a same-named input of
      any other node. */
  lemma DeleteLinksToPropertyAsWrittenOverdeletes()
    ensures var other := Link(LinkEndpoint("a", "out"), LinkEndpoint("b", "video"));
            var sibling := Link(LinkEndpoint("a", "out"), LinkEndpoint("n", "audio"));
            var r := DeleteLinksToPropertyAsWritten([other, sibling], "n", "video");
            other !in r && sibling !in r
  {
  }

  /** `DeleteLinks(id, Some(prop))` as its caller documents it: remove exactly
      the links into input prop of node id. */
  function DeleteLinksToProperty(links: seq<Link>, id: ID, prop: string): (r: seq<Link>)
    ensures forall l :: l in r <==> l in links && !(l.to.nodeId == id && l.to.property == prop)
  {
    Filter(links, (l: Link) => !(l.to.nodeId == id && l.to.property == prop))
  }

  /** The intended filter removes the links into input prop of node id and
      no other; the filter as written removes all of those and more. */
  lemma DeleteLinksToPropertyIntended(links: seq<Link>, id: ID, prop: string)
    ensures var r := DeleteLinksToProperty(links, id, prop);
            (forall l :: l in links && (l.to.nodeId != id || l.to.property != prop) ==> l in r)
            && (forall l :: l in r ==> l.to != LinkEndpoint(id, prop))
            && (forall l :: l in DeleteLinksToPropertyAsWritten(links, id, prop) ==> l in r)
  {
  }

  /** On the links of the counterexample the intended filter keeps both. */
  lemma DeleteLinksToPropertyKeepsOtherInputs()
    ensures var other := Link(LinkEndpoint("a", "out"), LinkEndpoint("b", "video"));
            var sibling := Link(LinkEndpoint("a", "out"), LinkEndpoint("n", "audio"));
            DeleteLinksToProperty([other, sibling], "n", "video") == [other, sibling]
  {
    var other := Link(LinkEndpoint("a", "out"), LinkEndpoint("b", "video"));
    var sibling := Link(LinkEndpoint("a", "out"), LinkEndpoint("n", "audio"));
    var r := DeleteLinksToProperty([other, sibling], "n", "video");
    assert other in r && sibling in r;
    assert |r| <= 2;
  }

  /** `DeleteLinks(id, None)`: remove the links into node id. */
  function DeleteLinksToNode(links: seq<Link>, id: ID): (r: seq<Link>)
    ensures forall l :: l in r <==> l in links && l.to.nodeId != id
  {
    Filter(links, (l: Link) => l.to.nodeId != id)
  }

  /** `DeleteNode`'s filter: remove the links touching node id at either end. */
  function LinksNotTouchingNode(links: seq<Link>, id: ID): (r: seq<Link>)
    ensures forall l :: l in r <==> l in links && l.to.nodeId != id && l.from.nodeId != id
  {
    Filter(links, (l: Link) => l.to.nodeId != id && l.from.nodeId != id)
  }

  // ------------------------------------------------------- composited clip

  /** `serde_json::to_value` of a `ClipIdentifier`. */
  function ClipIdentifierJson(c: ClipIdentifier): JsonValue {
    JObject(map["id" := JString(c.id), "clip_type" := JString(if c.clipType == Source then "Source" else "Composited")])
  }

  /** Reading a `ClipIdentifier` back from its JSON form. */
  function ClipIdentifierFromJson(v: JsonValue): (r: Option<ClipIdentifier>)
    ensures r.Some? ==> ClipIdentifierJson(r.value) == v
  {
    if v.JObject? && v.fields.Keys == {"id", "clip_type"} && v.fields["id"].JString?
       && v.fields["clip_type"] in {JString("Source"), JString("Composited")}
    then
      var c := ClipIdentifier(v.fields["id"].s, if v.fields["clip_type"] == JString("Source") then Source else Composited);
      assert ClipIdentifierJson(c).fields == v.fields;
      Some(c)
    else None
  }

  lemma ClipIdentifierRoundTrip(c: ClipIdentifier)
    ensures ClipIdentifierFromJson(ClipIdentifierJson(c)) == Some(c)
  {
    var v := ClipIdentifierJson(c);
    assert v.fields.Keys == {"id", "clip_type"};
  }

  /** The output node `CreateCompositedClip` adds for a clip. */
  function OutputNode(clip: CompositedClip, nodeId: ID, group: ID): (n: Node)
    ensures n.id == nodeId && n.nodeType == "output" && n.group == group
    ensures n.properties.Keys == {"clip"}
    ensures ClipIdentifierFromJson(n.properties["clip"]) == Some(ClipIdentifier(clip.id, Composited))
  {
    var n := NewNode("output", Some(group), nodeId, group);
    ClipIdentifierRoundTrip(ClipIdentifier(clip.id, Composited));
    n.(properties := n.properties["clip" := ClipIdentifierJson(ClipIdentifier(clip.id, Composited))])
  }

  // ---------------------------------------------------------- one task

  /** One pass of the loop of `Task::apply_tasks`: the new store and the job
      emitted, if any. */
  function ApplyTask(s: StoreValue, t: Task): (o: Outcome)
    ensures |o.jobs| <= 1
    ensures o.jobs == [] ==> o.store == s
  {
    match t
    case UpdateNode(id, node) =>
      if id in s.nodes then Outcome(s.(nodes := s.nodes[id := node]), [NetworkTask.UpdateNodeJob(id)])
      else Outcome(s, [])
    case AddNode(node) =>
      Outcome(s.(nodes := s.nodes[node.id := node]), [NetworkTask.GetNodeId(node.id)])
    case AddLink(link) =>
      Outcome(s.(links := LinksNotToEndpoint(s.links, link.to) + [link]), [NetworkTask.AddLinkJob(link)])
    case DeleteLinks(id, property) =>
      var kept := if property.None? then DeleteLinksToNode(s.links, id) else DeleteLinksToPropertyAsWritten(s.links, id, property.value);
      Outcome(s.(links := kept), [NetworkTask.DeleteLinksJob(id, property)])
    case DeleteNode(id) =>
      Outcome(s.(links := LinksNotTouchingNode(s.links, id), nodes := s.nodes - {id}), [NetworkTask.DeleteNodeJob(id)])
    case CreateSourceClip(clip) =>
      Outcome(s.(sourceClips := s.sourceClips[clip.id := clip]), [NetworkTask.GetSourceClipId(clip.id)])
    case CreateCompositedClip(clip, outputNodeId, outputGroup) =>
      var output := OutputNode(clip, outputNodeId, outputGroup);
      Outcome(s.(compositedClips := s.compositedClips[clip.id := clip], nodes := s.nodes[output.id := output]),
              [NetworkTask.GetCompositedClipId(clip.id)])
    case UpdateClip(id, clipType, value) =>
      match clipType
      case Source =>
        if value.asSource.None? || id !in s.sourceClips then Outcome(s, [])
        else Outcome(s.(sourceClips := s.sourceClips[id := value.asSource.value.(id := id)]), [NetworkTask.UpdateClipJob(id, Source)])
      case Composited =>
        if value.asComposited.None? || id !in s.compositedClips then Outcome(s, [])
        else Outcome(s.(compositedClips := s.compositedClips[id := value.asComposited.value.(id := id)]), [NetworkTask.UpdateClipJob(id, Composited)])
  }

  /** `UpdateNode` replaces an existing node and reports it; an unknown id
      changes nothing and emits no job. */
  lemma UpdateNodeEffect(s: StoreValue, id: ID, node: Node)
    ensures var o := ApplyTask(s, UpdateNode(id, node));
            o.store.nodes.Keys == s.nodes.Keys
            && (id in s.nodes ==> o.store.nodes[id] == node && o.jobs == [NetworkTask.UpdateNodeJob(id)])
            && (id !in s.nodes ==> o.store == s && o.jobs == [])
            && (forall k :: k in s.nodes && k != id ==> o.store.nodes[k] == s.nodes[k])
            && o.store.links == s.links && o.store.sourceClips == s.sourceClips && o.store.compositedClips == s.compositedClips
  {
  }

  /** `AddNode` stores the node under its id and asks for an id for it. */
  lemma AddNodeEffect(s: StoreValue, node: Node)
    ensures var o := ApplyTask(s, AddNode(node));
            o.store.nodes.Keys == s.nodes.Keys + {node.id} && o.store.nodes[node.id] == node
            && (forall k :: k in s.nodes && k != node.id ==> o.store.nodes[k] == s.nodes[k])
            && o.jobs == [NetworkTask.GetNodeId(node.id)]
            && o.store.links == s.links && o.store.sourceClips == s.sourceClips && o.store.compositedClips == s.compositedClips
  {
  }

  /** `AddLink` replaces whatever link went into the new link's target
      endpoint: the old links into other endpoints stay, in order, and the new
      link comes last. */
  lemma AddLinkEffect(s: StoreValue, link: Link)
    ensures var o := ApplyTask(s, AddLink(link));
            |o.store.links| > 0 && o.store.links[|o.store.links| - 1] == link
            && (forall l :: l in o.store.links[..|o.store.links| - 1] <==> l in s.links && EndpointId(l.to) != EndpointId(link.to))
            && o.store.nodes == s.nodes && o.store.sourceClips == s.sourceClips && o.store.compositedClips == s.compositedClips
            && o.jobs == [NetworkTask.AddLinkJob(link)]
  {
    var kept := LinksNotToEndpoint(s.links, link.to);
    assert (kept + [link])[..|kept|] == kept;
  }

  /** `CreateSourceClip` stores the clip under its id and asks for an id for
      it. */
  lemma CreateSourceClipEffect(s: StoreValue, clip: SourceClip)
    ensures var o := ApplyTask(s, CreateSourceClip(clip));
            o.store.sourceClips.Keys == s.sourceClips.Keys + {clip.id} && o.store.sourceClips[clip.id] == clip
            && (forall k :: k in s.sourceClips && k != clip.id ==> o.store.sourceClips[k] == s.sourceClips[k])
            && o.store.nodes == s.nodes && o.store.links == s.links && o.store.compositedClips == s.compositedClips
            && o.jobs == [NetworkTask.GetSourceClipId(clip.id)]
  {
  }

  /** `DeleteLinks`: without a property the links into the node go; with one,
      as written, every link into the node and every link into an input of
      that name on any node goes; nodes and clips are untouched. */
  lemma DeleteLinksEffect(s: StoreValue, id: ID, property: Option<string>)
    ensures var o := ApplyTask(s, DeleteLinks(id, property));
            (property.None? ==> forall l :: l in o.store.links <==> l in s.links && l.to.nodeId != id)
            && (property.Some? ==> forall l :: l in o.store.links <==> l in s.links && l.to.nodeId != id && l.to.property != property.value)
            && o.store.nodes == s.nodes && o.store.sourceClips == s.sourceClips && o.store.compositedClips == s.compositedClips
            && o.jobs == [NetworkTask.DeleteLinksJob(id, property)]
  {
  }

  /** `DeleteNode` removes the node and every link touching it, and no link
      left refers to it. */
  lemma DeleteNodeEffect(s: StoreValue, id: ID)
    ensures var o := ApplyTask(s, DeleteNode(id));
            o.store.nodes.Keys == s.nodes.Keys - {id}
            && (forall k :: k in o.store.nodes ==> o.store.nodes[k] == s.nodes[k])
            && (forall l :: l in o.store.links <==> l in s.links && l.from.nodeId != id && l.to.nodeId != id)
            && o.store.sourceClips == s.sourceClips && o.store.compositedClips == s.compositedClips
            && o.jobs == [NetworkTask.DeleteNodeJob(id)]
  {
  }

  /** `CreateCompositedClip` stores the clip and one output node whose "clip"
      property names it. */
  lemma CreateCompositedClipEffect(s: StoreValue, clip: CompositedClip, outputNodeId: ID, group: ID)
    ensures var o := ApplyTask(s, CreateCompositedClip(clip, outputNodeId, group));
            o.store.compositedClips == s.compositedClips[clip.id := clip]
            && o.store.nodes.Keys == s.nodes.Keys + {outputNodeId}
            && o.store.nodes[outputNodeId].nodeType == "output"
            && ClipIdentifierFromJson(o.store.nodes[outputNodeId].properties["clip"]) == Some(ClipIdentifier(clip.id, Composited))
            && o.store.links == s.links && o.store.sourceClips == s.sourceClips
            && o.jobs == [NetworkTask.GetCompositedClipId(clip.id)]
  {
  }

  /** `UpdateClip` is skipped, with no job, when the value does not parse as
      that kind or the id is unknown; otherwise the clip under id is the
      parsed one, carrying id. */
  lemma UpdateClipEffect(s: StoreValue, id: ID, clipType: ClipType, value: ClipValue)
    ensures var o := ApplyTask(s, UpdateClip(id, clipType, value));
            o.store.nodes == s.nodes && o.store.links == s.links
            && (clipType == Source ==>
                  o.store.compositedClips == s.compositedClips
                  && (o.jobs == [] <==> value.asSource.None? || id !in s.sourceClips)
                  && (o.jobs == [] ==> o.store == s)
                  && (o.jobs != [] ==> (o.store.sourceClips == s.sourceClips[id := value.asSource.value.(id := id)]
                                        && o.jobs == [NetworkTask.UpdateClipJob(id, Source)])))
            && (clipType == Composited ==>
                  o.store.sourceClips == s.sourceClips
                  && (o.jobs == [] <==> value.asComposited.None? || id !in s.compositedClips)
                  && (o.jobs == [] ==> o.store == s)
                  && (o.jobs != [] ==> (o.store.compositedClips == s.compositedClips[id := value.asComposited.value.(id := id)]
                                        && o.jobs == [NetworkTask.UpdateClipJob(id, Composited)])))
  {
  }

  /** No task gives an input endpoint a second link. */
  lemma ApplyTaskKeepsUniqueTargets(s: StoreValue, t: Task)
    requires UniqueTargets(s.links)
    ensures UniqueTargets(ApplyTask(s, t).store.links)
  {
    match t
    case AddLink(link) => AddLinkUniqueTargets(s.links, link);
    case DeleteLinks(id, property) =>
      if property.None? {
        FilterKeepsUniqueTargets(s.links, (l: Link) => l.to.nodeId != id);
      } else {
        FilterKeepsUniqueTargets(s.links, (l: Link) => l.to.nodeId != id && l.to.property != property.value);
      }
    case DeleteNode(id) => FilterKeepsUniqueTargets(s.links, (l: Link) => l.to.nodeId != id && l.from.nodeId != id);
    case _ =>
  }

  // ---------------------------------------------------------- task lists

  /** `Task::apply_tasks`: the tasks in order, with their jobs in order. */
  function ApplyAll(s: StoreValue, tasks: seq<Task>): (o: Outcome)
    ensures |o.jobs| <= |tasks|
  {
    if tasks == [] then Outcome(s, [])
    else
      var before := ApplyAll(s, tasks[..|tasks| - 1]);
      var last := ApplyTask(before.store, tasks[|tasks| - 1]);
      Outcome(last.store, before.jobs + last.jobs)
  }

  lemma ConcatAssoc<T>(a: seq<T>, b: seq<T>, c: seq<T>)
    ensures (a + b) + c == a + (b + c)
  {
  }

  /** Applying one task more of the same list: its jobs come after those of
      the tasks before it. */
  lemma ApplyAllPrefix(s: StoreValue, tasks: seq<Task>, i: nat)
    requires i < |tasks|
    ensures var before := ApplyAll(s, tasks[..i]);
            var last := ApplyTask(before.store, tasks[i]);
            ApplyAll(s, tasks[..i + 1]) == Outcome(last.store, before.jobs + last.jobs)
  {
    assert tasks[..i + 1][..i] == tasks[..i];
  }

  lemma ApplyAllSnoc(s: StoreValue, tasks: seq<Task>, t: Task)
    ensures var before := ApplyAll(s, tasks);
            var last := ApplyTask(before.store, t);
            ApplyAll(s, tasks + [t]) == Outcome(last.store, before.jobs + last.jobs)
  {
    assert (tasks + [t])[..|tasks|] == tasks;
  }

  /** Applying a + b leaves the store that applying a, then b, leaves. */
  lemma {:induction false} ApplyAllAppendStore(s: StoreValue, a: seq<Task>, b: seq<Task>)
    ensures ApplyAll(s, a + b).store == ApplyAll(ApplyAll(s, a).store, b).store
    decreases |b|
  {
    if b == [] {
      assert a + b == a;
    } else {
      var b', t := b[..|b| - 1], b[|b| - 1];
      assert b == b' + [t];
      assert a + b == (a + b') + [t];
      ApplyAllAppendStore(s, a, b');
      ApplyAllSnoc(s, a + b', t);
      ApplyAllSnoc(ApplyAll(s, a).store, b', t);
    }
  }

  /** Applying a + b emits the jobs of a followed by those of b. */
  lemma {:induction false} ApplyAllAppendJobs(s: StoreValue, a: seq<Task>, b: seq<Task>)
    ensures ApplyAll(s, a + b).jobs == ApplyAll(s, a).jobs + ApplyAll(ApplyAll(s, a).store, b).jobs
    decreases |b|
  {
    if b == [] {
      assert a + b == a;
    } else {
      var b', t := b[..|b| - 1], b[|b| - 1];
      assert b == b' + [t];
      assert a + b == (a + b') + [t];
      ApplyAllAppendJobs(s, a, b');
      ApplyAllAppendStore(s, a, b');
      ApplyAllSnoc(s, a + b', t);
      var x := ApplyAll(s, a);
      ApplyAllSnoc(x.store, b', t);
      var q := ApplyAll(x.store, b');
      var last := ApplyTask(q.store, t).jobs;
      assert ApplyAll(s, a + b).jobs == (x.jobs + q.jobs) + last;
      ConcatAssoc(x.jobs, q.jobs, last);
    }
  }

  /** Applying a + b is applying a, then b to the result: the same store,
      and the jobs of a followed by those of b. */
  lemma ApplyAllAppend(s: StoreValue, a: seq<Task>, b: seq<Task>)
    ensures ApplyAll(s, a + b).store == ApplyAll(ApplyAll(s, a).store, b).store
    ensures ApplyAll(s, a + b).jobs == ApplyAll(s, a).jobs + ApplyAll(ApplyAll(s, a).store, b).jobs
  {
    ApplyAllAppendStore(s, a, b);
    ApplyAllAppendJobs(s, a, b);
  }

  /** At most one link per input endpoint is an invariant of every task list. */
  lemma {:induction false} ApplyAllKeepsUniqueTargets(s: StoreValue, tasks: seq<Task>)
    requires UniqueTargets(s.links)
    ensures UniqueTargets(ApplyAll(s, tasks).store.links)
    decreases |tasks|
  {
    if tasks != [] {
      ApplyAllKeepsUniqueTargets(s, tasks[..|tasks| - 1]);
      ApplyTaskKeepsUniqueTargets(ApplyAll(s, tasks[..|tasks| - 1]).store, tasks[|tasks| - 1]);
    }
  }

  /** The store: nodes, both clip tables and the pipeline's links. */
  class Store {
    var nodes: map<ID, Node>
    var sourceClips: map<ID, SourceClip>
    var compositedClips: map<ID, CompositedClip>
    var links: seq<Link>

    function Value(): StoreValue
      reads this
    {
      StoreValue(nodes, sourceClips, compositedClips, links)
    }

    constructor(s: StoreValue)
      ensures Value() == s
    {
      nodes, sourceClips, compositedClips, links := s.nodes, s.sourceClips, s.compositedClips, s.links;
    }

    /** `Task::apply_tasks`: the loop over the tasks, collecting the jobs. */
    method ApplyTasks(tasks: seq<Task>) returns (networkJobs: seq<NetworkTask>)
      modifies this
      ensures Value() == ApplyAll(old(Value()), tasks).store
      ensures networkJobs == ApplyAll(old(Value()), tasks).jobs
      ensures UniqueTargets(old(links)) ==> UniqueTargets(links)
    {
      networkJobs := [];
      for i := 0 to |tasks|
        invariant Value() == ApplyAll(old(Value()), tasks[..i]).store
        invariant networkJobs == ApplyAll(old(Value()), tasks[..i]).jobs
      {
        ApplyAllPrefix(old(Value()), tasks, i);
        var jobs := Apply(tasks[i]);
        networkJobs := networkJobs + jobs;
      }
      assert tasks[..|tasks|] == tasks;
      if UniqueTargets(old(links)) {
        ApplyAllKeepsUniqueTargets(old(Value()), tasks);
      }
    }

    /** One task applied in place. */
    method Apply(task: Task) returns (jobs: seq<NetworkTask>)
      modifies this
      ensures Value() == ApplyTask(old(Value()), task).store
      ensures jobs == ApplyTask(old(Value()), task).jobs
    {
      match task
      case UpdateNode(id, node) =>
        if id in nodes {
          nodes := nodes[id := node];
          jobs := [NetworkTask.UpdateNodeJob(id)];
        } else {
          jobs := [];
        }
      case AddNode(node) =>
        jobs := [NetworkTask.GetNodeId(node.id)];
        nodes := nodes[node.id := node];
      case AddLink(link) =>
        var newLinks := LinksNotToEndpoint(links, link.to);
        jobs := [NetworkTask.AddLinkJob(link)];
        links := newLinks + [link];
      case DeleteLinks(id, property) =>
        links := if property.None? then DeleteLinksToNode(links, id) else DeleteLinksToPropertyAsWritten(links, id, property.value);
        jobs := [NetworkTask.DeleteLinksJob(id, property)];
      case DeleteNode(id) =>
        links := LinksNotTouchingNode(links, id);
        nodes := nodes - {id};
        jobs := [NetworkTask.DeleteNodeJob(id)];
      case CreateSourceClip(clip) =>
        jobs := [NetworkTask.GetSourceClipId(clip.id)];
        sourceClips := sourceClips[clip.id := clip];
      case CreateCompositedClip(clip, outputNodeId, outputGroup) =>
        var output := OutputNode(clip, outputNodeId, outputGroup);
        jobs := [NetworkTask.GetCompositedClipId(clip.id)];
        compositedClips := compositedClips[clip.id := clip];
        nodes := nodes[output.id := output];
      case UpdateClip(id, clipType, value) =>
        jobs := [];
        match clipType
        case Source =>
          if value.asSource.Some? && id in sourceClips {
            sourceClips := sourceClips[id := value.asSource.value.(id := id)];
            jobs := [NetworkTask.UpdateClipJob(id, Source)];
          }
        case Composited =>
          if value.asComposited.Some? && id in compositedClips {
            compositedClips := compositedClips[id := value.asComposited.value.(id := id)];
            jobs := [NetworkTask.UpdateClipJob(id, Composited)];
          }
    }
  }
}
