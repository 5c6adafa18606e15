/** The client's link list (client/src/classes/Pipeline.ts): endpoint and link
    ids, deserialisation from JSON, the per-property link lookup, and the
    cycle pre-check a new link must pass. */
module ClientPipeline {
  import opened Wrappers
  import opened Text
  import opened NodeTypes
  import opened Graphs
  import opened Utils

  /** One end of a link: a node and one of its inputs or outputs. */
  datatype LinkEndpoint = LinkEndpoint(nodeId: ID, property: string)

  datatype Link = Link(from: LinkEndpoint, to: LinkEndpoint)

  datatype Pipeline = Pipeline(links: seq<Link>)

  /** `LinkEndpoint.id`: "{node_id}.{property}". */
  function EndpointId(e: LinkEndpoint): (s: string)
    ensures |s| == |e.nodeId| + 1 + |e.property|
    ensures s[..|e.nodeId|] == e.nodeId && s[|e.nodeId|] == '.' && s[|e.nodeId| + 1..] == e.property
  {
    e.nodeId + "." + e.property
  }

  /** Node ids have no '.', so the endpoint id names one endpoint. */
  lemma EndpointIdInjective(a: LinkEndpoint, b: LinkEndpoint)
    requires '.' !in a.nodeId && '.' !in b.nodeId
    requires EndpointId(a) == EndpointId(b)
    ensures a == b
  {
    JoinInjective(a.nodeId, a.property, b.nodeId, b.property, '.');
  }

  /** `Link.id`: "{from.id}-{to.id}". */
  function LinkId(l: Link): (s: string)
    ensures |s| == |EndpointId(l.from)| + 1 + |EndpointId(l.to)|
    ensures s[..|EndpointId(l.from)|] == EndpointId(l.from) && s[|EndpointId(l.from)|] == '-'
    ensures s[|EndpointId(l.from)| + 1..] == EndpointId(l.to)
  {
    EndpointId(l.from) + "-" + EndpointId(l.to)
  }

  /** With '-' and '.' kept out of the source endpoint's node id and property
      and '.' out of the target's node id, the link id names one link. */
  lemma LinkIdInjective(a: Link, b: Link)
    requires '-' !in a.from.nodeId && '-' !in a.from.property && '.' !in a.from.nodeId
    requires '-' !in b.from.nodeId && '-' !in b.from.property && '.' !in b.from.nodeId
    requires '.' !in a.to.nodeId && '.' !in b.to.nodeId
    requires LinkId(a) == LinkId(b)
    ensures a == b
  {
    assert '-' !in EndpointId(a.from) by {
      assert EndpointId(a.from) == a.from.nodeId + "." + a.from.property;
    }
    assert '-' !in EndpointId(b.from) by {
      assert EndpointId(b.from) == b.from.nodeId + "." + b.from.property;
    }
    JoinInjective(EndpointId(a.from), EndpointId(a.to), EndpointId(b.from), EndpointId(b.to), '-');
    EndpointIdInjective(a.from, b.from);
    EndpointIdInjective(a.to, b.to);
  }

  /** JavaScript `obj.name`: `undefined` (None) unless obj is an object with
      that field. */
  function Field(obj: JsonValue, name: string): (r: Option<JsonValue>)
    ensures r.Some? <==> obj.JObject? && name in obj.fields
  {
    if obj.JObject? && name in obj.fields then Some(obj.fields[name]) else None
  }

  /** A defined field holding a string. */
  predicate IsStringField(obj: JsonValue, name: string) {
    Field(obj, name).Some? && Field(obj, name).value.JString?
  }

  const DESERIALISE_ERROR: string := "Could not deserialise"

  /** `LinkEndpoint.deserialise`. */
  function DeserialiseEndpoint(obj: JsonValue): (r: Result<LinkEndpoint>)
    ensures r.Ok? <==> IsStringField(obj, "node_id") && IsStringField(obj, "property")
    ensures r.Ok? ==> r.value == LinkEndpoint(Field(obj, "node_id").value.s, Field(obj, "property").value.s)
    ensures Field(obj, "node_id").None? || Field(obj, "property").None? ==> r == Err(DESERIALISE_ERROR)
  {
    var nodeId := Field(obj, "node_id");
    var property := Field(obj, "property");
    var props := [nodeId, property];
    assert props[0] == nodeId && props[1] == property;
    if PropsUndefined(props) then Err(DESERIALISE_ERROR)
    else if nodeId.value.JString? && property.value.JString? then Ok(LinkEndpoint(nodeId.value.s, property.value.s))
    else Err("endpoint fields are not strings")
  }

  /** `Link.deserialise`. */
  function DeserialiseLink(obj: JsonValue): (r: Result<Link>)
    ensures r.Ok? <==> Field(obj, "from").Some? && Field(obj, "to").Some?
                       && DeserialiseEndpoint(Field(obj, "from").value).Ok?
                       && DeserialiseEndpoint(Field(obj, "to").value).Ok?
    ensures r.Ok? ==> r.value == Link(DeserialiseEndpoint(Field(obj, "from").value).value,
                                      DeserialiseEndpoint(Field(obj, "to").value).value)
    ensures Field(obj, "from").None? || Field(obj, "to").None? ==> r == Err(DESERIALISE_ERROR)
  {
    var from := Field(obj, "from");
    var to := Field(obj, "to");
    var props := [from, to];
    assert props[0] == from && props[1] == to;
    if PropsUndefined(props) then Err(DESERIALISE_ERROR)
    else
      var f := DeserialiseEndpoint(from.value);
      var t := DeserialiseEndpoint(to.value);
      if f.Err? then Err(f.message)
      else if t.Err? then Err(t.message)
      else Ok(Link(f.value, t.value))
  }

  /** What `for (let o of obj.links)` iterates over: the elements of an array,
      or the one-character strings of a string; anything else throws. */
  function Iterated(v: JsonValue): Option<seq<JsonValue>> {
    match v
    case JArray(items) => Some(items)
    case JString(s) => Some(seq(|s|, i requires 0 <= i < |s| => JString([s[i]])))
    case _ => None
  }

  /** `Pipeline.deserialise`: fails when `links` is undefined or not iterable,
      or when any element fails; otherwise one link per element, in order. */
  method DeserialisePipeline(obj: JsonValue) returns (r: Result<Pipeline>)
    ensures Field(obj, "links").None? ==> r == Err(DESERIALISE_ERROR)
    ensures r.Ok? <==> Field(obj, "links").Some? && Iterated(Field(obj, "links").value).Some?
                       && forall o :: o in Iterated(Field(obj, "links").value).value ==> DeserialiseLink(o).Ok?
    ensures r.Ok? ==> var items := Iterated(Field(obj, "links").value).value;
                      |r.value.links| == |items|
                      && forall i :: 0 <= i < |items| ==> r.value.links[i] == DeserialiseLink(items[i]).value
    ensures forall p :: obj == SerialisePipeline(p) ==> r == Ok(p)
  {
    var links := Field(obj, "links");
    assert [links][0] == links;
    if PropsUndefined([links]) {
      r := Err(DESERIALISE_ERROR);
      SerialisedPipelineHasLinks(obj);
      return;
    }
    var items := Iterated(links.value);
    if items.None? {
      r := Err("links is not iterable");
      SerialisedPipelineHasLinks(obj);
      return;
    }
    var result: seq<Link> := [];
    for i := 0 to |items.value|
      invariant |result| == i
      invariant forall k :: 0 <= k < i ==> DeserialiseLink(items.value[k]).Ok? && result[k] == DeserialiseLink(items.value[k]).value
    {
      var l := DeserialiseLink(items.value[i]);
      if l.Err? {
        r := Err(l.message);
        SerialisedPipelineHasLinks(obj);
        return;
      }
      result := result + [l.value];
    }
    r := Ok(Pipeline(result));
    forall p | obj == SerialisePipeline(p)
      ensures r == Ok(p)
    {
      PipelineRoundTrip(p);
      assert result == p.links;
    }
  }

  /** The JSON the server sends for an endpoint. */
  function SerialiseEndpoint(e: LinkEndpoint): JsonValue {
    JObject(map["node_id" := JString(e.nodeId), "property" := JString(e.property)])
  }

  function SerialiseLink(l: Link): JsonValue {
    JObject(map["from" := SerialiseEndpoint(l.from), "to" := SerialiseEndpoint(l.to)])
  }

  function SerialisePipeline(p: Pipeline): JsonValue {
    JObject(map["links" := JArray(seq(|p.links|, i requires 0 <= i < |p.links| => SerialiseLink(p.links[i])))])
  }

  lemma LinkRoundTrip(l: Link)
    ensures DeserialiseLink(SerialiseLink(l)) == Ok(l)
  {
    assert DeserialiseEndpoint(SerialiseEndpoint(l.from)) == Ok(l.from);
    assert DeserialiseEndpoint(SerialiseEndpoint(l.to)) == Ok(l.to);
  }

  /** Every element of a serialised pipeline deserialises back to its link. */
  lemma PipelineRoundTrip(p: Pipeline)
    ensures Field(SerialisePipeline(p), "links").Some?
    ensures var items := Iterated(Field(SerialisePipeline(p), "links").value);
            items.Some? && |items.value| == |p.links|
            && forall i :: 0 <= i < |p.links| ==> DeserialiseLink(items.value[i]) == Ok(p.links[i])
  {
    forall i | 0 <= i < |p.links|
      ensures DeserialiseLink(SerialiseLink(p.links[i])) == Ok(p.links[i])
    {
      LinkRoundTrip(p.links[i]);
    }
  }

  lemma SerialisedPipelineHasLinks(obj: JsonValue)
    ensures forall p :: obj == SerialisePipeline(p) ==>
              (Field(obj, "links").Some? && Iterated(Field(obj, "links").value).Some?
               && forall o :: o in Iterated(Field(obj, "links").value).value ==> DeserialiseLink(o).Ok?)
  {
    forall p | obj == SerialisePipeline(p)
      ensures Field(obj, "links").Some? && Iterated(Field(obj, "links").value).Some?
              && forall o :: o in Iterated(Field(obj, "links").value).value ==> DeserialiseLink(o).Ok?
    {
      PipelineRoundTrip(p);
    }
  }

  /** The link has the endpoint (node, property) at one of its two ends. */
  predicate Touches(l: Link, nodeId: ID, property: string) {
    (l.from.nodeId == nodeId && l.from.property == property)
    || (l.to.nodeId == nodeId && l.to.property == property)
  }

  /** `containsLinkForNodeProperty`. */
  function ContainsLinkForNodeProperty(links: seq<Link>, nodeId: ID, property: string): (r: bool)
    ensures r <==> exists i :: 0 <= i < |links| && Touches(links[i], nodeId, property)
  {
    if links == [] then false
    else if Touches(links[0], nodeId, property) then true
    else
      assert forall i :: 0 < i < |links| ==> links[i] == links[1..][i - 1];
      ContainsLinkForNodeProperty(links[1..], nodeId, property)
  }

  /** The graph edge a link contributes: node to node. */
  function LinkEdge(l: Link): Edge {
    Edge(l.from.nodeId, l.to.nodeId)
  }

  /** The `links_done` key of a node pair. */
  function PairKey(e: Edge): string {
    e.from + "_" + e.to
  }

  function EdgeKeys(es: seq<Edge>): (r: seq<string>)
    ensures |r| == |es| && forall i :: 0 <= i < |es| ==> r[i] == PairKey(es[i])
  {
    if es == [] then [] else EdgeKeys(es[..|es| - 1]) + [PairKey(es[|es| - 1])]
  }

  /** The edges of the existing links `hasCyclesWithLink` keeps: those not
      ending at the new link's target endpoint. */
  function KeptEdges(links: seq<Link>, toAdd: Link): (r: seq<Edge>)
    ensures forall e :: e in r <==> exists i :: 0 <= i < |links| && EndpointId(links[i].to) != EndpointId(toAdd.to) && e == LinkEdge(links[i])
  {
    if links == [] then []
    else
      var last := links[|links| - 1];
      assert forall i :: 0 <= i < |links| - 1 ==> links[i] == links[..|links| - 1][i];
      KeptEdges(links[..|links| - 1], toAdd) + (if EndpointId(last.to) != EndpointId(toAdd.to) then [LinkEdge(last)] else [])
  }

  /** The graph `hasCyclesWithLink` tests, up to repeated edges. */
  function CandidateEdges(links: seq<Link>, toAdd: Link): seq<Edge> {
    KeptEdges(links, toAdd) + [LinkEdge(toAdd)]
  }

  /** No source node id contains the key separator '_'. */
  predicate SourcesFree(links: seq<Link>, toAdd: Link) {
    '_' !in toAdd.from.nodeId && forall i :: 0 <= i < |links| ==> '_' !in links[i].from.nodeId
  }

  lemma PairKeyInjective(a: Edge, b: Edge)
    requires '_' !in a.from && '_' !in b.from
    requires PairKey(a) == PairKey(b)
    ensures a == b
  {
    JoinInjective(a.from, a.to, b.from, b.to, '_');
  }

  /** Cycles and roots depend only on which edges occur, not on order or
      repetition. */
  lemma SameEdgesSameVerdict(ns: seq<ID>, a: seq<Edge>, b: seq<Edge>)
    requires forall e :: e in a <==> e in b
    ensures HasCycle(a) <==> HasCycle(b)
    ensures Rooted(ns, a) <==> Rooted(ns, b)
  {
    forall c | IsCycle(a, c)
      ensures IsCycle(b, c)
    {
      forall i | 0 <= i < |c|
        ensures StepIn(b, c, i)
      {
        assert StepIn(a, c, i);
      }
    }
    forall c | IsCycle(b, c)
      ensures IsCycle(a, c)
    {
      forall i | 0 <= i < |c|
        ensures StepIn(a, c, i)
      {
        assert StepIn(b, c, i);
      }
    }
  }

  /** `hasCyclesWithLink`: builds a graph of all store nodes and the node pairs
      of the kept links plus the new one, and reports whether it fails the
      acyclicity check. */
  method HasCyclesWithLink(p: Pipeline, storeNodeIds: seq<ID>, toAdd: Link) returns (b: bool)
    ensures SourcesFree(p.links, toAdd) ==>
              (b <==> HasCycle(CandidateEdges(p.links, toAdd)) || !Rooted(storeNodeIds, CandidateEdges(p.links, toAdd)))
  {
    var g := new Graph();
    for i := 0 to |storeNodeIds|
      invariant g.nodes == storeNodeIds[..i] && g.edges == []
    {
      g.AddNode(storeNodeIds[i]);
    }
    assert storeNodeIds[..|storeNodeIds|] == storeNodeIds;
    var linksDone: seq<string> := [];
    for i := 0 to |p.links|
      invariant g.nodes == storeNodeIds
      invariant linksDone == EdgeKeys(g.edges)
      invariant forall e :: e in g.edges ==> e in KeptEdges(p.links[..i], toAdd)
      invariant forall e :: e in KeptEdges(p.links[..i], toAdd) ==> PairKey(e) in linksDone
    {
      linksDone := AddKeptLink(g, p.links, i, toAdd, linksDone);
    }
    assert p.links[..|p.links|] == p.links;
    var newId := toAdd.from.nodeId + "_" + toAdd.to.nodeId;
    assert newId == PairKey(LinkEdge(toAdd));
    ghost var keptEdges := g.edges;
    if newId !in linksDone {
      g.AddEdge(toAdd.from.nodeId, toAdd.to.nodeId);
    }
    var acyclic := g.IsAcyclic();
    b := !acyclic;
    if SourcesFree(p.links, toAdd) {
      BuiltGraphHasCandidateEdges(p.links, toAdd, keptEdges, g.edges);
      SameEdgesSameVerdict(storeNodeIds, g.edges, CandidateEdges(p.links, toAdd));
    }
  }

  /** One pass of the link loop of `hasCyclesWithLink`: link i adds its node
      pair, unless it enters the new link's target or its pair key is done. */
  method AddKeptLink(g: Graph, links: seq<Link>, i: nat, toAdd: Link, linksDone: seq<string>) returns (done: seq<string>)
    requires i < |links|
    requires linksDone == EdgeKeys(g.edges)
    requires forall e :: e in g.edges ==> e in KeptEdges(links[..i], toAdd)
    requires forall e :: e in KeptEdges(links[..i], toAdd) ==> PairKey(e) in linksDone
    modifies g
    ensures g.nodes == old(g.nodes)
    ensures done == EdgeKeys(g.edges)
    ensures forall e :: e in g.edges ==> e in KeptEdges(links[..i + 1], toAdd)
    ensures forall e :: e in KeptEdges(links[..i + 1], toAdd) ==> PairKey(e) in done
  {
    var link := links[i];
    assert links[..i + 1] == links[..i] + [link];
    assert forall k :: 0 <= k < i ==> links[..i + 1][k] == links[..i][k];
    done := linksDone;
    if EndpointId(link.to) == EndpointId(toAdd.to) {
      return;
    }
    var id := link.from.nodeId + "_" + link.to.nodeId;
    if id !in linksDone {
      g.AddEdge(link.from.nodeId, link.to.nodeId);
      done := linksDone + [id];
      assert EdgeKeys(g.edges)[..|g.edges| - 1] == EdgeKeys(g.edges[..|g.edges| - 1]);
    }
  }

  /** The graph built from the kept links, deduplicated by pair key, plus the
      new link's edge unless its key was already done, has exactly the
      candidate edges. */
  lemma BuiltGraphHasCandidateEdges(links: seq<Link>, toAdd: Link, kept: seq<Edge>, built: seq<Edge>)
    requires SourcesFree(links, toAdd)
    requires forall e :: e in kept ==> e in KeptEdges(links, toAdd)
    requires forall e :: e in KeptEdges(links, toAdd) ==> PairKey(e) in EdgeKeys(kept)
    requires built == kept + [LinkEdge(toAdd)] || (built == kept && PairKey(LinkEdge(toAdd)) in EdgeKeys(kept))
    ensures forall e :: e in built <==> e in CandidateEdges(links, toAdd)
  {
    var keys := EdgeKeys(kept);
    forall e | e in CandidateEdges(links, toAdd)
      ensures e in built
    {
      if e in KeptEdges(links, toAdd) {
        var k :| 0 <= k < |kept| && keys[k] == PairKey(e);
        var w :| 0 <= w < |links| && EndpointId(links[w].to) != EndpointId(toAdd.to) && e == LinkEdge(links[w]);
        assert kept[k] in KeptEdges(links, toAdd);
        var w2 :| 0 <= w2 < |links| && EndpointId(links[w2].to) != EndpointId(toAdd.to) && kept[k] == LinkEdge(links[w2]);
        PairKeyInjective(kept[k], e);
      } else if built == kept {
        assert e == LinkEdge(toAdd);
        var k :| 0 <= k < |kept| && keys[k] == PairKey(e);
        assert kept[k] in KeptEdges(links, toAdd);
        var w2 :| 0 <= w2 < |links| && EndpointId(links[w2].to) != EndpointId(toAdd.to) && kept[k] == LinkEdge(links[w2]);
        PairKeyInjective(kept[k], e);
      }
    }
  }
}
