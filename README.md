# cs310 preview buffer, store tasks and pipeline helpers in Dafny

This project models the parts of the cs310 video editor that keep
composited-clip previews in step between three processes.

- **The front end's segment preview buffer** (`VideoPreview.tsx`). It
  merges the snapshots of the preview table that the Rust client pushes,
  and never lets a remote `Downloaded` overwrite a chunk it has already
  `Loaded` into the media source. It decides which chunk range to request,
  or which single chunk to load, in a ten-chunk look-ahead window. It
  demotes `Loaded` chunks when the selected clip changes, and it debounces
  time updates at one second.
- **The Rust client's chunk-status machine**:
  - the preview commands (`request_video_length`, `request_video_preview`,
    `get_video_preview_data`);
  - the sweeps of both preview threads;
  - the scan for the first run of `Generating` chunks;
  - the record updates on length, new-chunk and download replies.
- **The shared store task application** (`Task::apply_tasks`). Each task
  edits nodes, clips or links and emits its network job. At most one link
  per input endpoint is an invariant of every task list.
- **The graph and type helpers**:
  - the client's directed graph with its Kahn-style acyclicity check;
  - the link list (ids, deserialisation, property lookup, the cycle
    pre-check for a new link);
  - the stream-count restriction arithmetic;
  - the node, stream-type and clip naming helpers of the shared crate;
  - the server's abstract pipeline: node and link editing, merging, the
    removal of dead-end nodes, encoder/decoder alias expansion and
    rewiring, and link rendering.

The code works by mutating state, and the model keeps that form.

- **Classes.** Each class holds the fields the source updates in place,
  and each method states its new state:
  - `VideoPreviews.VideoPreview`;
  - `PreviewState.SharedState`;
  - `Tasks.Store`;
  - `Graphs.Graph`;
  - `AbstractPipelines.AbstractPipeline`.
- **Loops.** The source's loops are `while`/`for` loops with invariants.
  Each method is proved against a specification function, for example
  `Reconciled`, `Plan`, `SweptTable`, `RequestedRange` or `ApplyAll`.
- **Lemmas.** The promised properties are lemmas about those functions:
  - idempotence of a snapshot, sweep or request;
  - the no-downgrade rule;
  - the window bounds;
  - the "nothing else changes" rules of every task;
  - the iff of the acyclicity check;
  - the injectivity of every generated name.

Modules follow the source files:
- `VideoPreviews`: `VideoPreview.tsx`;
- `PreviewState`: `state.rs`;
- `TauriCommands`: `tauri_commands.rs`;
- `PreviewHandler`: `video_preview_handler_thread.rs`;
- `Tasks`: `task.rs`;
- `Graphs`: `Graph.ts`;
- `ClientPipeline`: `Pipeline.ts`;
- `Utils`: `Utils.ts`;
- `NodeTypes`: `node.rs`;
- `Clips`: `clip.rs`;
- `AbstractPipelines`: `abstract_pipeline.rs`;
- `Text`: decimal rendering and padding helpers;
- `Wrappers`: `Option` and `Result`.

Values the source draws from outside are parameters of the model:
- `uniq_id()` and `Uuid::new_v4()` results (`freshId`, `FreshIds`,
  `CreateCompositedClip`'s node and group ids);
- the data directory behind `media_output_location`;
- the output directory the front end asks the Rust side for;
- the GStreamer discoverer's codec probe;
- whether a source-buffer append completes.

Several code paths that the source reaches by panicking or throwing are
`Err`/`None` results, or `false` outcomes:
- `todo!()`;
- an unknown stream type;
- a failed deserialisation;
- a failed alias expansion.

## Model

| member | source | states |
|---|---|---|
| VideoPreviews.FromRemote | client/src/components/VideoPreview.tsx:46-63 | an incoming chunk status never reads as the front end's own `Loaded` |
| VideoPreviews.FromRemoteInjective | client/src/components/VideoPreview.tsx:46-63 | different incoming chunk statuses stay different |
| VideoPreviews.Received | client/src/components/VideoPreview.tsx:140-157 | sentinel strings are stored verbatim; a Data record keeps its duration, codec, flag and chunk list, and holds no `Loaded` chunk |
| VideoPreviews.Merged | client/src/components/VideoPreview.tsx:164-172 | no downgrade: a local `Loaded` stays `Loaded` against an incoming `Downloaded`; every other incoming status overwrites the local one |
| VideoPreviews.Reconciled | client/src/components/VideoPreview.tsx:129-133 | after a snapshot the table holds exactly the snapshot's clips |
| VideoPreviews.Replaces | client/src/components/VideoPreview.tsx:150-151 | an incoming record replaces the local one when there is none, it is a sentinel, or the chunk count, codec or flag differ; its effect is stated by ReconciledEntries |
| VideoPreviews.ReconcileEntry | client/src/components/VideoPreview.tsx:138-172 | one entry: a sentinel or a replacing record is taken as received, otherwise the chunk lists are merged; its meaning is stated by ReconciledEntries |
| VideoPreviews.ReconciledEntries | client/src/components/VideoPreview.tsx:129-172 | per clip: sentinels as sent; replaced wholesale when there is no record, a sentinel, or a differing chunk count, codec or flag; otherwise merged chunkwise, keeping the local duration |
| VideoPreviews.ReconcileEntryIdempotent | client/src/components/VideoPreview.tsx:138-172 | reading the same entry twice leaves every record as reading it once |
| VideoPreviews.ReconciledIdempotent | client/src/components/VideoPreview.tsx:129-175 | applying the same snapshot twice gives the table applying it once gives |
| VideoPreviews.MergeChunks | client/src/components/VideoPreview.tsx:164-172 | the in-place merge loop computes the no-downgrade merge |
| VideoPreviews.Segment | client/src/components/VideoPreview.tsx:274-276 | the current chunk is floor(time / CHUNK_LENGTH): the chunk whose interval holds the time |
| VideoPreviews.WindowEnd | client/src/components/VideoPreview.tsx:276-284 | the window ends at min(current + 10, len - 1) and is empty exactly when current is past the last chunk |
| VideoPreviews.FirstNotLoaded | client/src/components/VideoPreview.tsx:287-288 | the first index in the range that is not `Loaded`, or none when all are |
| VideoPreviews.Plan | client/src/components/VideoPreview.tsx:274-308 | the first non-`Loaded` chunk from 0 decides: not downloaded requests [it, window end]; downloaded loads it alone, and only with a source buffer; otherwise nothing |
| VideoPreviews.PlanPastEnd | client/src/components/VideoPreview.tsx:281-284 | when the time is past the last chunk nothing is requested or loaded |
| VideoPreviews.Schedule | client/src/components/VideoPreview.tsx:287-308 | the early-exit scan loop computes the plan |
| VideoPreviews.LoadEffect | client/src/components/VideoPreview.tsx:223-226 | a completed load marks exactly that chunk of that clip `Loaded` and changes nothing else |
| VideoPreviews.AfterLoad | client/src/components/VideoPreview.tsx:223-226 | a completed load keeps the table's clips and changes no other clip |
| VideoPreviews.ChunkFileName | client/src/components/VideoPreview.tsx:195 | the chunk file is the directory, `\segment`, the segment number zero-padded to six digits (a longer number written without a leading zero), and `.ts`; those digits read back as the segment |
| VideoPreviews.ChunkFileNameDetermines | client/src/components/VideoPreview.tsx:195 | within one directory different segments read different files |
| VideoPreviews.ClipDirectory | client/src/components/VideoPreview.tsx:267-271 | the clip directory is the output directory, `\composited-clip-` and the clip id |
| VideoPreviews.Demoted | client/src/components/VideoPreview.tsx:359-366 | every `Loaded` chunk becomes `Downloaded`, every other chunk is kept |
| VideoPreviews.AfterClipChange | client/src/components/VideoPreview.tsx:359-366 | the clip change keeps the table's clips; its effect is stated by ClipChangeEffect |
| VideoPreviews.DemotedProperties | client/src/components/VideoPreview.tsx:359-366 | after a demotion nothing is `Loaded`; demoting again changes nothing; a record with no `Loaded` chunk is untouched |
| VideoPreviews.Demote | client/src/components/VideoPreview.tsx:359-366 | the in-place demotion loop computes the demotion |
| VideoPreviews.ClipChangeEffect | client/src/components/VideoPreview.tsx:359-366 | on a clip change only the previous clip's `Loaded` chunks change, each to `Downloaded`; durations, codecs, flags and chunk counts are kept |
| VideoPreviews.PlannedUpdate | client/src/components/VideoPreview.tsx:249-263 | no selected clip, or no Data record for it, plans nothing; otherwise the plan of its chunks |
| VideoPreviews.AfterUpdate | client/src/components/VideoPreview.tsx:223-226 | a decision changes the table only when it loads a chunk of the selected clip and the append completes |
| VideoPreviews.OffsetAfter | client/src/components/VideoPreview.tsx:208 | a load moves the timestamp offset to the start of its segment; any other decision keeps it |
| VideoPreviews.DebounceProperties | client/src/components/VideoPreview.tsx:329-338 | the first time update always runs; afterwards none runs while the time stays within a second of the last one |
| VideoPreviews.ShouldUpdate | client/src/components/VideoPreview.tsx:329-338 | an update runs when none ran yet or the time moved more than a second either way; its properties are stated by DebounceProperties |
| VideoPreviews.SetsUp | client/src/components/VideoPreview.tsx:390-403 | a source buffer is made for the clip exactly when it has a Data record with a usable codec; OnClipChanged states what follows |
| VideoPreviews.CodecUsable | client/src/components/VideoPreview.tsx:395-400 | a source buffer is made only for a codec that is present, non-empty and not an `ERROR` report |
| VideoPreviews.VideoPreview.constructor | client/src/components/VideoPreview.tsx:81-95 | empty table, no clip, no source buffer, no update yet |
| VideoPreviews.VideoPreview.VideoPreviewDataUpdate | client/src/components/VideoPreview.tsx:127-176 | the deletion and reading loops leave the reconciled table and report whether the selected clip's record was replaced; nothing else changes |
| VideoPreviews.VideoPreview.ReadEntry | client/src/components/VideoPreview.tsx:139-174 | one entry of the snapshot read: the table gains its reconciled record and the refresh flag follows the selected clip |
| VideoPreviews.VideoPreview.LoadChunk | client/src/components/VideoPreview.tsx:194-232 | reads the segment's file; with a source buffer sets the offset to segment * CHUNK_LENGTH and marks the chunk `Loaded` only once the append completed; without one changes nothing |
| VideoPreviews.VideoPreview.VideoUpdate | client/src/components/VideoPreview.tsx:249-309 | the decision is the planned update of the state before; only a load touches the state: it reads from the selected clip's directory, moves the offset to the segment start and, once appended, marks the chunk `Loaded`; a request or no decision leaves the state alone |
| VideoPreviews.VideoPreview.TimeUpdate | client/src/components/VideoPreview.tsx:329-338 | runs the planned update only when the debounce lets it, and remembers that time; then the table, offset and file read follow that decision as in VideoUpdate; otherwise nothing changes |
| VideoPreviews.VideoPreview.OnClipChanged | client/src/components/VideoPreview.tsx:351-409 | demotes the previous clip, selects the new one, sets up a source buffer only for a Data record with a non-empty codec not starting with "ERROR", and then runs the planned update with a buffer; a new buffer starts at offset 0, and the offset and table follow that decision |
| VideoPreviews.VideoPreview.ReceiveSnapshot | client/src/components/VideoPreview.tsx:127-182 | the table is reconciled; when the selected clip's record was replaced its chunks are demoted and, if a buffer is set up, a first update runs; then a second update runs; both decisions, the final table, buffer flag and offset are given by the planned updates over those intermediate tables, each append with its own completion, and a newly set-up buffer starts at offset 0 |
| PreviewState.SharedState.constructor | client/src-tauri/src/state.rs:36-47 | the shared preview table starts as given |
| PreviewState.Swept | client/src-tauri/src/video_preview_handler_thread.rs:29-36 | every chunk in the swept-from status takes the target status; all others are kept |
| PreviewState.SweptProperties | client/src-tauri/src/video_preview_handler_thread.rs:29-36 | no chunk is left in the swept-from status, sweeping again changes nothing, other chunks are untouched |
| PreviewState.SweptStatus | client/src-tauri/src/video_preview_handler_thread.rs:27-39 | only Data records have chunks to sweep |
| TauriCommands.LengthRequestEffect | client/src-tauri/src/tauri_commands.rs:331-343 | a length request marks a clip `LengthRequested` exactly when it is absent or not requested; every other clip and status is unchanged; asking twice is asking once |
| TauriCommands.AfterLengthRequest | client/src-tauri/src/tauri_commands.rs:331-343 | a length request adds the clip if missing and leaves every other clip as it was |
| TauriCommands.RequestVideoLength | client/src-tauri/src/tauri_commands.rs:331-343 | the command leaves the table as the length request specifies |
| TauriCommands.RequestedRange | client/src-tauri/src/tauri_commands.rs:363-367 | inside [start, end] NotRequested becomes Requested; everything else is kept |
| TauriCommands.RequestedRangeProperties | client/src-tauri/src/tauri_commands.rs:363-367 | no chunk of the range is left NotRequested; chunks outside it and chunks past NotRequested are unchanged; requesting again changes nothing |
| TauriCommands.PreviewRequestEffect | client/src-tauri/src/tauri_commands.rs:345-369 | exactly the four guard cases (unknown clip, no Data, start > end, end not below the u32 chunk count) are no-ops; otherwise only that clip's range changes; the command is idempotent |
| TauriCommands.AfterPreviewRequest | client/src-tauri/src/tauri_commands.rs:345-369 | a preview request keeps the table's clips and leaves every other clip as it was |
| TauriCommands.PreviewGuardSmall | client/src-tauri/src/tauri_commands.rs:360 | below 2^32 chunks the u32 guard is the plain bound check |
| TauriCommands.RequestVideoPreview | client/src-tauri/src/tauri_commands.rs:345-369 | the command's loop leaves the table as the preview request specifies |
| TauriCommands.GetVideoPreviewData | client/src-tauri/src/tauri_commands.rs:371-376 | returns the table and changes nothing |
| PreviewHandler.SweptTable | client/src-tauri/src/video_preview_handler_thread.rs:25-40 | the swept table has the same clips |
| PreviewHandler.SweptTableProperties | client/src-tauri/src/video_preview_handler_thread.rs:25-40 | after a table sweep every chunk in the swept-from status of every Data record is in the swept-to status, every other chunk and every sentinel is kept, durations, codecs and flags are kept, and sweeping again changes nothing |
| PreviewHandler.SweptTableIdempotent | client/src-tauri/src/video_preview_handler_thread.rs:25-40 | a second sweep of the same statuses changes nothing |
| PreviewHandler.SweepChunks | client/src-tauri/src/video_preview_handler_thread.rs:77-87 | the inner loop computes the chunk sweep and reports whether any chunk moved |
| PreviewHandler.HandlerSweep | client/src-tauri/src/video_preview_handler_thread.rs:25-40 | every Requested chunk of every clip becomes Generating; nothing else changes |
| PreviewHandler.DownloaderSweep | client/src-tauri/src/video_preview_handler_thread.rs:71-91 | every Generated chunk becomes Downloading, and exactly the clips that had one are listed, each once |
| PreviewHandler.SweepTable | client/src-tauri/src/video_preview_handler_thread.rs:71-91 | the table loop, in any iteration order, sweeps every clip and lists each affected clip once |
| PreviewHandler.GeneratingRun | client/src-tauri/src/video_preview_handler_thread.rs:232-249 | start is the first Generating index and end the last index of that first contiguous run; no run gives no range |
| PreviewHandler.LengthReplyStatus | client/src-tauri/src/video_preview_handler_thread.rs:205-209 | a length reply's record: the duration, that many NotRequested chunks, no codec, not video |
| PreviewHandler.OnLengthReply | client/src-tauri/src/video_preview_handler_thread.rs:200-209 | the clip's record becomes the fresh Data record, whatever was there; other clips are unchanged |
| PreviewHandler.NewChunkStatus | client/src-tauri/src/video_preview_handler_thread.rs:277-281 | exactly the reported chunk becomes Generated; the rest of the record is kept |
| PreviewHandler.OnNewChunk | client/src-tauri/src/video_preview_handler_thread.rs:270-281 | the reply updates only the reported clip's record |
| PreviewHandler.DownloadedStatus | client/src-tauri/src/video_preview_handler_thread.rs:145-159 | the chunk becomes Downloaded; codec and video flag are filled from the probe only when no codec was known |
| PreviewHandler.CodecSetOnce | client/src-tauri/src/video_preview_handler_thread.rs:151-158 | a later download never replaces a codec once known |
| PreviewHandler.OnChunkDownloaded | client/src-tauri/src/video_preview_handler_thread.rs:145-159 | the completed download updates only that clip's record |
| Tasks.Filter | shared/src/task.rs:58-93 | a link filter keeps exactly the matching links, in order |
| Tasks.NotTargetedAgain | shared/src/task.rs:54-65 | with unique targets, no later link enters the first link's target endpoint |
| Tasks.LinksNotToEndpoint | shared/src/task.rs:58-62 | the AddLink filter removes exactly the links into the new link's target endpoint |
| Tasks.AddLinkUniqueTargets | shared/src/task.rs:54-65 | after AddLink the new link is last and is the only link into its target; unique targets stay unique |
| Tasks.DeleteLinksToPropertyAsWritten | shared/src/task.rs:74-77 | as written, a link survives only if both its target node and its target property differ |
| Tasks.DeleteLinksToPropertyAsWrittenOverdeletes | shared/src/task.rs:74-77 | as written, deleting one input's links also deletes an unrelated link into the same node and one into a same-named input elsewhere |
| Tasks.DeleteLinksToProperty | client/src/components/NodeEditor/NodeEditor.tsx:163-165 | the intended filter removes exactly the links into that input of that node |
| Tasks.DeleteLinksToPropertyIntended | client/src/components/NodeEditor/NodeEditor.tsx:163-165 | the intended filter keeps every link not into that input of that node, keeps none into it, and keeps everything the as-written filter keeps |
| Tasks.DeleteLinksToPropertyKeepsOtherInputs | client/src/components/NodeEditor/NodeEditor.tsx:163-165 | on the counterexample links the intended filter keeps both a.out→b.video and a.out→n.audio |
| Tasks.DeleteLinksToNode | shared/src/task.rs:70-72 | DeleteLinks without a property removes exactly the links into the node |
| Tasks.LinksNotTouchingNode | shared/src/task.rs:86-88 | DeleteNode's filter removes exactly the links touching the node at either end |
| Tasks.ClipIdentifierFromJson | shared/src/task.rs:105-108 | a clip identifier read from JSON serialises back to that JSON |
| Tasks.ClipIdentifierRoundTrip | shared/src/task.rs:105-108 | a serialised clip identifier reads back as itself |
| Tasks.OutputNode | shared/src/task.rs:100-110 | the added output node has the given ids, type "output", and one "clip" property naming the composited clip |
| Tasks.UpdateNodeEffect | shared/src/task.rs:41-48 | UpdateNode replaces only an existing node and emits UpdateNode; an unknown id changes nothing and emits nothing |
| Tasks.AddNodeEffect | shared/src/task.rs:49-53 | AddNode stores the node under its id, changes nothing else, and emits GetNodeID for it |
| Tasks.AddLinkEffect | shared/src/task.rs:54-65 | AddLink keeps the links into other endpoints, appends the new one last, changes no node or clip, and emits AddLink |
| Tasks.CreateSourceClipEffect | shared/src/task.rs:94-97 | CreateSourceClip stores the clip under its id, changes nothing else, and emits GetSourceClipID |
| Tasks.DeleteLinksEffect | shared/src/task.rs:66-81 | without a property exactly the links into the node go; with one, as written, every link into the node and every link into an input of that name goes; nodes and clips are untouched; one DeleteLinks job |
| Tasks.ApplyTask | shared/src/task.rs:40-148 | every task emits at most one network job, and one that emits none leaves the store as it was |
| Tasks.DeleteNodeEffect | shared/src/task.rs:82-93 | DeleteNode removes the node and every link touching it, and no remaining link refers to it |
| Tasks.CreateCompositedClipEffect | shared/src/task.rs:98-112 | CreateCompositedClip stores the clip plus one output node whose "clip" property identifies it |
| Tasks.UpdateClipEffect | shared/src/task.rs:113-147 | UpdateClip is skipped with no job when the value does not parse or the id is unknown; otherwise it replaces the clip, keeping the given id |
| Tasks.ApplyTaskKeepsUniqueTargets | shared/src/task.rs:37-151 | no task gives an input endpoint a second link |
| Tasks.ApplyAll | shared/src/task.rs:37-151 | applying a task list emits at most one job per task |
| Tasks.ApplyAllSnoc | shared/src/task.rs:37-151 | one more task: its store follows, and its jobs follow those of the tasks before |
| Tasks.ApplyAllAppendStore | shared/src/task.rs:37-151 | applying a + b leaves the store applying a, then b, leaves |
| Tasks.ApplyAllAppendJobs | shared/src/task.rs:37-151 | applying a + b emits the jobs of a followed by those of b |
| Tasks.ApplyAllAppend | shared/src/task.rs:37-151 | applying a + b is applying a, then b to its result, with the jobs concatenated |
| Tasks.ApplyAllKeepsUniqueTargets | shared/src/task.rs:37-151 | at most one link per input endpoint is preserved by every task list |
| Tasks.FilterKeepsUniqueTargets | shared/src/task.rs:58-93 | filtering links keeps targets unique |
| Tasks.Store.constructor | shared/src/store.rs:22-28 | the store starts with the given contents |
| Tasks.Store.ApplyTasks | shared/src/task.rs:37-151 | the loop leaves the store and the job list that applying the whole list specifies, and keeps targets unique |
| Tasks.Store.Apply | shared/src/task.rs:40-148 | one task applied in place gives the specified store and jobs |
| Graphs.IncomingNodes | client/src/classes/Graph.ts:31-33 | exactly the sources of the edges into the node; empty iff no edge enters it |
| Graphs.OutgoingNodes | client/src/classes/Graph.ts:34-36 | exactly the targets of the edges out of the node |
| Graphs.RemoveEdge | client/src/classes/Graph.ts:51 | removes exactly that edge, and shortens the list when it was there |
| Graphs.NodesWithoutIncoming | client/src/classes/Graph.ts:44 | the registered nodes no edge enters |
| Graphs.Graph.constructor | client/src/classes/Graph.ts:15-18 | no nodes and no edges |
| Graphs.Graph.AddNode | client/src/classes/Graph.ts:20-22 | appends the node and nothing else |
| Graphs.Graph.AddEdge | client/src/classes/Graph.ts:24-29 | appends the edge and nothing else |
| Graphs.Graph.IsAcyclic | client/src/classes/Graph.ts:38-63 | true iff the edges have no cycle and every edge source without incoming edges was added as a node; the stored edges are not changed |
| Graphs.ReleaseSuccessors | client/src/classes/Graph.ts:49-56 | the inner loop removes the popped node's edges and queues only ready targets |
| Graphs.NotOnCycle | client/src/classes/Graph.ts:46-57 | a node taken off the worklist lies on no cycle |
| Graphs.AllProcessedMeansAcyclic | client/src/classes/Graph.ts:59-62 | an emptied edge copy means no cycle and a registered root for every edge |
| Graphs.StuckMeansCycleOrUnrooted | client/src/classes/Graph.ts:59-62 | edges left over mean a cycle or an unregistered root |
| Graphs.CycleFromPredecessors | client/src/classes/Graph.ts:59-62 | a finite set where every vertex has a predecessor inside it contains a cycle |
| Graphs.ClosedWalkIsCycle | client/src/classes/Graph.ts:59-62 | a backward walk closed by an edge is, reversed, a cycle |
| Graphs.ReadyGrows | client/src/classes/Graph.ts:46-57 | a ready vertex stays ready as more vertices are processed |
| Graphs.JustifiedAfterPop | client/src/classes/Graph.ts:47-48 | popping a ready vertex keeps the processing order justified |
| Graphs.NoEdgesAcyclic | client/src/classes/Graph.ts:38-63 | a graph with no edges is acyclic |
| Graphs.SelfLoopIsCycle | client/src/classes/Graph.ts:38-63 | a self-loop makes the graph cyclic |
| Graphs.UnregisteredRootNotRooted | client/src/classes/Graph.ts:44 | an edge from a never-added node that nothing enters keeps the graph from being acyclic |
| ClientPipeline.EndpointId | client/src/classes/Pipeline.ts:19-21 | the endpoint id is node id, ".", property |
| ClientPipeline.EndpointIdInjective | client/src/classes/Pipeline.ts:19-21 | with no "." in node ids, the endpoint id names one endpoint |
| ClientPipeline.LinkId | client/src/classes/Pipeline.ts:45-47 | the link id is the source endpoint id, "-", the target endpoint id |
| ClientPipeline.LinkIdInjective | client/src/classes/Pipeline.ts:45-47 | with "-" and "." kept out of the parts that would blur it, the link id names one link |
| ClientPipeline.Field | client/src/classes/Pipeline.ts:23-29 | a field is defined exactly when the object has it |
| ClientPipeline.DeserialiseEndpoint | client/src/classes/Pipeline.ts:23-29 | succeeds iff both fields are strings, with their values; an undefined field fails |
| ClientPipeline.DeserialiseLink | client/src/classes/Pipeline.ts:49-55 | succeeds iff both endpoints are defined and deserialise; an undefined one fails |
| ClientPipeline.DeserialisePipeline | client/src/classes/Pipeline.ts:68-78 | fails on undefined or non-iterable links or on any failing element; otherwise one link per element in order; every serialised pipeline reads back as itself |
| ClientPipeline.LinkRoundTrip | client/src/classes/Pipeline.ts:49-55 | a serialised link deserialises to itself |
| ClientPipeline.PipelineRoundTrip | client/src/classes/Pipeline.ts:68-78 | every element of a serialised pipeline deserialises to its link |
| ClientPipeline.SerialisedPipelineHasLinks | client/src/classes/Pipeline.ts:68-78 | a serialised pipeline passes every deserialisation guard |
| ClientPipeline.ContainsLinkForNodeProperty | client/src/classes/Pipeline.ts:84-92 | true iff some link has (node, property) at either end |
| ClientPipeline.EdgeKeys | client/src/classes/Pipeline.ts:109-113 | the done keys are the node-pair keys of the added edges |
| ClientPipeline.KeptEdges | client/src/classes/Pipeline.ts:106-108 | the kept edges are those of links not into the new link's target endpoint |
| ClientPipeline.PairKeyInjective | client/src/classes/Pipeline.ts:109 | with no "_" in source ids, a pair key names one node pair |
| ClientPipeline.SameEdgesSameVerdict | client/src/classes/Pipeline.ts:110-118 | repeated edges and their order do not change the cycle and root verdicts |
| ClientPipeline.HasCyclesWithLink | client/src/classes/Pipeline.ts:98-121 | true iff the kept links plus the new one have a cycle or an unregistered root over all store nodes, i.e. the negation of the acyclicity check |
| ClientPipeline.AddKeptLink | client/src/classes/Pipeline.ts:107-114 | one pass of the link loop: an edge is added only for a kept link with a new pair key, and the done keys stay those of the edges |
| ClientPipeline.BuiltGraphHasCandidateEdges | client/src/classes/Pipeline.ts:106-118 | the deduplicated graph has exactly the kept edges plus the new link's edge |
| Utils.PropsUndefined | client/src/classes/Utils.ts:8-15 | true iff some argument is undefined |
| Utils.PipeableTypeEqual | client/src/classes/Utils.ts:30-33 | true iff all three counts are equal |
| Utils.MeetsMinReq | client/src/classes/Utils.ts:55-57 | true iff every count is at least the minimum |
| Utils.AboveMaxReq | client/src/classes/Utils.ts:61-63 | true iff some count exceeds the maximum |
| Utils.MatchesRestrictionsAsWritten | client/src/classes/Utils.ts:68-74 | as written, the last test compares the video count with the subtitles minimum |
| Utils.MatchesRestrictionsAsWrittenIgnoresSubtitlesMin | client/src/classes/Utils.ts:68-74 | as written, a type with too few subtitle streams passes the check |
| Utils.MatchesRestrictions | client/src/classes/Utils.ts:65-74 | the corrected check holds iff every count is within both bounds, i.e. meets the minimum and is not above the maximum |
| Utils.Downgrade | client/src/classes/Utils.ts:40-49 | a matching type is kept; otherwise the componentwise minimum with the maximum; the result never exceeds the maximum or the type |
| Utils.DowngradeAsWritten | client/src/classes/Utils.ts:40-49 | the downgrade over the faulty matching test; DowngradeUnaffectedByMatchesBug shows it equals Downgrade |
| Utils.DowngradeUnaffectedByMatchesBug | client/src/classes/Utils.ts:40-49 | the faulty comparison never changes the downgrade's result |
| Utils.DowngradeDocExample | client/src/classes/Utils.ts:36-39 | the doc comment's example holds for any minimum |
| Utils.DowngradeIdempotent | client/src/classes/Utils.ts:40-49 | downgrading twice is downgrading once |
| Utils.GetColour | client/src/classes/Utils.ts:79-84 | several video streams give Container, one Video, no video and some audio Audio, otherwise Subtitles |
| NodeTypes.NewNode | shared/src/node.rs:30-44 | a new node has the drawn id, its type, no properties, position (0, 0), and the given group or a drawn one |
| NodeTypes.GetGstreamerHandleId | shared/src/node.rs:46-48 | the handle id is node, "-", property |
| NodeTypes.GetGstreamerHandleIdInjective | shared/src/node.rs:46-48 | with "-"-free node ids the handle id names one pair |
| NodeTypes.Min | shared/src/node.rs:74-80 | every count of the minimum is the smaller of the two |
| NodeTypes.GetMap | shared/src/node.rs:82-88 | the map has the three stream types, each with its count |
| NodeTypes.IsSingularType | shared/src/node.rs:108-113 | true iff at most one stream kind is present |
| NodeTypes.IoToString | shared/src/node.rs:122-133 | "input" or "output" |
| NodeTypes.StreamTypeToString | shared/src/node.rs:173-179 | "video", "audio" or "subtitles" |
| NodeTypes.StreamTypeToStringInjective | shared/src/node.rs:173-179 | different stream types have different names |
| NodeTypes.StreamLinker | shared/src/node.rs:181-187 | the linker is videoconvert, audioconvert or subparse |
| NodeTypes.Encoder | shared/src/node.rs:188-194 | the encoder chain of video and of audio as GStreamer text; subtitles have none |
| NodeTypes.GetNumberOfStreams | shared/src/node.rs:144-150 | the count of the piped type for the stream type |
| NodeTypes.OfType | shared/src/node.rs:144-150 | the count of one stream type in a pipeable type |
| NodeTypes.GetGstHandle | shared/src/node.rs:198-211 | None iff the index is not below the stream count; otherwise exactly "{node}-{io}-{prop}-" followed by "{type}-{index}" |
| NodeTypes.GetGstHandleInjective | shared/src/node.rs:198-211 | within one piped value every stream type and index has its own handle |
| Clips.AsI32 | shared/src/clip.rs:58-60 | Rust's `as i32`: in range, congruent mod 2^32, and the identity below 2^31 |
| Clips.ToPipeableType | shared/src/clip.rs:56-62 | the three counts are the stream list lengths, below 2^31 |
| Clips.GetClipType | shared/src/clip.rs:91-101 | the probed counts, or -1 for every count when not probed |
| Clips.ClipGstreamerId | shared/src/clip.rs:193-200 | the kind's prefix followed by the stream suffix id-type-index, shared by both clip kinds |
| Clips.SourceGstreamerId | shared/src/clip.rs:193-200 | "source-clip-" followed by id, type and index |
| Clips.CompositedGstreamerId | shared/src/clip.rs:217-224 | "composited-clip-" followed by id, type and index |
| Clips.StreamSuffixInjective | shared/src/clip.rs:193-200 | within one clip the id determines stream type and index |
| Clips.SourceAndCompositedIdsDiffer | shared/src/clip.rs:193-224 | a source clip's elements and a composited clip's elements never share an id |
| Clips.SourceGstreamerIdInjective | shared/src/clip.rs:193-200 | every stream of a source clip has its own id |
| Clips.GetOutputLocation | shared/src/clip.rs:225-227 | the data location, `/output/composited-clip-` and the clip id, with every backslash turned into a slash; exactly their concatenation when neither input holds a backslash |
| Clips.GetOutputLocationDeterminesClip | shared/src/clip.rs:225-227 | under one data location, clips with backslash-free ids share an output location only when their ids are equal |
| Clips.MediaOutputLocation | shared/src/constants.rs:12-14 | the media output directory is the data location followed by `\output` |
| Clips.GetOutputLocationTemplate | shared/src/clip.rs:229-235 | the template is the output location followed by "/segment%06d.mp4" |
| AbstractPipelines.NewNode | shared/src/abstract_pipeline.rs:16-41 | the type and properties as given, the id as given or drawn |
| AbstractPipelines.NewEncoder | shared/src/abstract_pipeline.rs:43-49 | an encoder placeholder under the drawn id with no properties; it is an encoder and not a decoder |
| AbstractPipelines.NewDecoder | shared/src/abstract_pipeline.rs:61-67 | a decoder placeholder under the drawn id with no properties; it is a decoder and not an encoder |
| AbstractPipelines.IsLinker | shared/src/abstract_pipeline.rs:87-94 | true iff the type is a stream type's linker |
| AbstractPipelines.LinkerToType | shared/src/abstract_pipeline.rs:96-107 | the stream type whose linker the node is |
| AbstractPipelines.LinkerToTypeRoundTrip | shared/src/abstract_pipeline.rs:87-107 | a stream type's linker is a linker and converts back to that type |
| AbstractPipelines.IsEncoder | shared/src/abstract_pipeline.rs:115-117 | an encoder placeholder's type starts with "encoder:"; IsAliased and NewEncoder state its use |
| AbstractPipelines.IsDecoder | shared/src/abstract_pipeline.rs:112-114 | a decoder placeholder's type starts with "decoder:"; IsAliased and NewDecoder state its use |
| AbstractPipelines.IsAliased | shared/src/abstract_pipeline.rs:109-117 | true iff the type starts with "encoder:" or "decoder:" |
| AbstractPipelines.LinkerNotAliased | shared/src/abstract_pipeline.rs:87-117 | no linker is an alias |
| AbstractPipelines.SplitSecond | shared/src/abstract_pipeline.rs:124-130 | Rust's `split(sep).nth(1)`: None iff there is no separator, else a separator-free part |
| AbstractPipelines.SplitSecondOfJoin | shared/src/abstract_pipeline.rs:124-130 | splitting "a:b" gives b |
| AbstractPipelines.StreamTypeFromName | shared/src/abstract_pipeline.rs:125-129 | only "video", "audio" and "subtitles" name a stream type, and it is the one so named |
| AbstractPipelines.AliasStreamType | shared/src/abstract_pipeline.rs:124-130 | the stream type named by the text after an alias's first ':' |
| AbstractPipelines.StreamTypeNameRoundTrip | shared/src/abstract_pipeline.rs:125-129 | every stream type's name reads back as that type |
| AbstractPipelines.WithNode | shared/src/abstract_pipeline.rs:259-261 | add_node stores the node under its id, replacing any node with it, and keeps the rest |
| AbstractPipelines.WithLink | shared/src/abstract_pipeline.rs:262-267 | link appends exactly one property-less link and changes nothing else |
| AbstractPipelines.EncodeVideo | shared/src/abstract_pipeline.rs:134-151 | exactly two nodes under the first two drawn ids, nvh264enc with bitrate 400 (the input) and a property-less h264parse (the output), and the one link between them |
| AbstractPipelines.EncodeAudio | shared/src/abstract_pipeline.rs:152-163 | exactly one node, a property-less avenc_aac under the first drawn id, that is both input and output, and no link |
| AbstractPipelines.DecodeVideo | shared/src/abstract_pipeline.rs:169-183 | exactly two nodes under the first two drawn ids, h264parse (the input) and nvh264dec (the output), and the one link between them |
| AbstractPipelines.DecodeAudio | shared/src/abstract_pipeline.rs:184-201 | exactly three nodes under the three drawn ids, avdec_aac (the input), audioconvert and audioresample (the output), and the two links dec→convert and convert→resample in that order |
| AbstractPipelines.AliasToPipeline | shared/src/abstract_pipeline.rs:119-205 | a successful expansion is well formed over the drawn ids only |
| AbstractPipelines.AliasToPipelineOk | shared/src/abstract_pipeline.rs:119-205 | the expansion exists exactly for video and audio aliases |
| AbstractPipelines.NewAliasesExpand | shared/src/abstract_pipeline.rs:43-67 | encoder and decoder placeholders of video and audio expand; those of subtitles do not |
| AbstractPipelines.AliasEnds | shared/src/abstract_pipeline.rs:119-205 | independent reference for where an expansion is reconnected: defined exactly for video and audio, input at the first drawn id, output at a drawn id |
| AbstractPipelines.AliasEndsAgree | shared/src/abstract_pipeline.rs:119-205 | the reference is defined iff `alias_to_pipeline` succeeds, and then names the expansion's input and output |
| AbstractPipelines.LinkToGstreamer | shared/src/abstract_pipeline.rs:233-243 | "from ! to", each end "id.property" or "id." |
| AbstractPipelines.EndpointText | shared/src/abstract_pipeline.rs:234-241 | one end as "id.property", or "id." without a property; LinkToGstreamerDetermines and EndpointTextDetermines state that it can be read back |
| AbstractPipelines.LinkToGstreamerDetermines | shared/src/abstract_pipeline.rs:233-243 | the rendering determines both ends' ids and property texts |
| AbstractPipelines.IncomingSources | shared/src/abstract_pipeline.rs:450-456 | exactly the sources of the links into the node |
| AbstractPipelines.LinksNotTo | shared/src/abstract_pipeline.rs:458-459 | the retained links are exactly those not into the node |
| AbstractPipelines.RewireLinkAvoidsAliases | shared/src/abstract_pipeline.rs:386-396 | a rewired link touches no alias and keeps its properties; links between other nodes are unchanged |
| AbstractPipelines.RewireLink | shared/src/abstract_pipeline.rs:386-396 | a link out of an alias leaves from its expansion's output and a link into one enters its expansion's input; pads and all other ends are kept |
| AbstractPipelines.AliasMap | shared/src/abstract_pipeline.rs:373-381 | the aliases that expand, each with the ends of its expansion |
| AbstractPipelines.KeepsExceptTrans | shared/src/abstract_pipeline.rs:373-381 | keeping the old nodes and links composes over the expansion loop |
| AbstractPipelines.AliasMapAvoidsAliases | shared/src/abstract_pipeline.rs:373-396 | with fresh draws no alias reconnects to an alias |
| AbstractPipelines.AliasMapOfExpansions | shared/src/abstract_pipeline.rs:373-381 | expansions recorded for exactly the alias nodes are the alias map |
| AbstractPipelines.AbstractPipeline.constructor | shared/src/abstract_pipeline.rs:253-258 | no nodes and no links |
| AbstractPipelines.AbstractPipeline.AddNode | shared/src/abstract_pipeline.rs:259-261 | the pipeline becomes the one with the node added, and stays keyed by id |
| AbstractPipelines.AbstractPipeline.Link | shared/src/abstract_pipeline.rs:262-267 | one property-less link appended |
| AbstractPipelines.AbstractPipeline.LinkAbstract | shared/src/abstract_pipeline.rs:268-270 | the link appended and nothing else |
| AbstractPipelines.AbstractPipeline.Merge | shared/src/abstract_pipeline.rs:272-279 | all of the other pipeline's nodes are added and its links appended in order |
| AbstractPipelines.AbstractPipeline.AddNodes | shared/src/abstract_pipeline.rs:273-275 | the node loop adds exactly the other nodes and keeps the pipeline keyed by id |
| AbstractPipelines.AbstractPipeline.AppendLinks | shared/src/abstract_pipeline.rs:276-278 | the link loop appends the links in order |
| AbstractPipelines.AbstractPipeline.CheckAndRemoveDanglingNode | shared/src/abstract_pipeline.rs:425-462 | None with no change iff the node is missing, a sink or has an outgoing link; otherwise removes it and its incoming links and returns their sources |
| AbstractPipelines.AbstractPipeline.RemoveDangling | shared/src/abstract_pipeline.rs:400-419 | terminates with no dead end left and every sink kept; the result is the start with a sequence of removals applied in order, each node a dead end when its turn came; the nodes left are unchanged; a link survives iff it was there and its target was not removed |
| AbstractPipelines.IsDangling | shared/src/abstract_pipeline.rs:425-449 | a node is removable when it exists, is not a sink and no link leaves it; CheckAndRemoveDanglingNode states its use |
| AbstractPipelines.RemoveStep | shared/src/abstract_pipeline.rs:457-458 | one removal takes the node and every link into it; CheckAndRemoveDanglingNode performs it |
| AbstractPipelines.DeadEndOrderStep | shared/src/abstract_pipeline.rs:406-417 | removing a current dead end extends a valid removal order by one step |
| AbstractPipelines.FirstRemovalIsDeadEnd | shared/src/abstract_pipeline.rs:406-417 | the first removal is a dead end of the starting pipeline, so a pipeline without dead ends loses nothing |
| AbstractPipelines.SinkFreeCycleKept | shared/src/abstract_pipeline.rs:400-462 | two queues feeding each other with no sink admit no removal: both stay |
| AbstractPipelines.PrunedFromStep | shared/src/abstract_pipeline.rs:425-462 | removing one dead end and the links into it keeps the pruning relation with the starting pipeline |
| AbstractPipelines.IsSink | shared/src/abstract_pipeline.rs:433 | splitmuxsink and filesink are the sinks never removed as dead ends |
| AbstractPipelines.AbstractPipeline.ConvertAliases | shared/src/abstract_pipeline.rs:371-398 | succeeds iff every alias expands; then the alias nodes are gone and other nodes kept; every alias's expansion elements and links are present; every node is an old non-alias or an element of some expansion; every old link is repointed from an alias's output and into its input; every link after them is a link of some expansion; and no link touches an alias |
| AbstractPipelines.AbstractPipeline.ExpandAliases | shared/src/abstract_pipeline.rs:373-381 | succeeds iff every alias expands; then each alias's ends are recorded and the pipeline is exactly the start with every alias's expansion merged in, one alias at a time in the returned order of all aliases; every expansion's elements and links are present and the old contents kept |
| AbstractPipelines.AbstractPipeline.ExpandOne | shared/src/abstract_pipeline.rs:374-380 | one pass of the expansion loop: exactly the alias's expansion nodes added and its links appended, beside the earlier expansions, and its ends recorded; or no change and evidence that not every alias expands |
| AbstractPipelines.AbstractPipeline.MergeAlias | shared/src/abstract_pipeline.rs:374-380 | when the alias expands, its expansion's nodes are added and its links appended; otherwise nothing changes |
| AbstractPipelines.MergedInOrder | shared/src/abstract_pipeline.rs:373-381 | the start with the expansions of the given aliases merged in, in that order; the old links stay a prefix and the old nodes stay present |
| AbstractPipelines.MergedInOrderSnoc | shared/src/abstract_pipeline.rs:374-380 | merging one more alias extends the merged pipeline by exactly that alias's expansion |
| AbstractPipelines.MergedInOrderOnlyExpansions | shared/src/abstract_pipeline.rs:373-381 | the merged pipeline holds nothing beyond the start but elements of the merged aliases' expansions, and appends only their links |
| AbstractPipelines.MergedOnlyExpansions | shared/src/abstract_pipeline.rs:373-381 | the same for an order holding exactly the recorded aliases |
| AbstractPipelines.OnlyExpansionsStep | shared/src/abstract_pipeline.rs:374-380 | merging one more expansion keeps "only expansions added", now counting that alias |
| AbstractPipelines.NodesOfExpansionsStep | shared/src/abstract_pipeline.rs:374-380 | the node half of that step |
| AbstractPipelines.LinksOfExpansionsStep | shared/src/abstract_pipeline.rs:374-380 | the link half of that step |
| AbstractPipelines.OnlyExpansionsWiden | shared/src/abstract_pipeline.rs:373-381 | "only expansions added" stays true when more aliases are counted |
| AbstractPipelines.DoneAliasesAdd | shared/src/abstract_pipeline.rs:374-380 | one more expanding alias joins the set of aliases already merged |
| AbstractPipelines.NoRepeatsSnoc | shared/src/abstract_pipeline.rs:373 | each alias is visited once by the loop over the alias map |
| AbstractPipelines.AliasKeys | shared/src/abstract_pipeline.rs:373 | exactly the ids of the alias nodes |
| AbstractPipelines.ExpansionLinkNotRewired | shared/src/abstract_pipeline.rs:386-396 | a link of an expansion is left alone by the rewiring, since its ends are fresh ids and not aliases |
| AbstractPipelines.ConversionKeepsNodes | shared/src/abstract_pipeline.rs:382-397 | after removal and rewiring, every expansion is present, every alias is gone and every other node kept |
| AbstractPipelines.ConversionAddsNoNodes | shared/src/abstract_pipeline.rs:371-398 | every node after conversion is an old non-alias or an element of some alias's expansion |
| AbstractPipelines.ConversionAddsNoLinks | shared/src/abstract_pipeline.rs:371-398 | every link after the rewired old ones is a link of some alias's expansion |
| AbstractPipelines.ConversionRewiresLinks | shared/src/abstract_pipeline.rs:386-396 | the links keep their number and the old ones come first, each rewired |
| AbstractPipelines.RewiredLinksAvoidAliases | shared/src/abstract_pipeline.rs:386-396 | no link of the converted pipeline touches an alias |
| AbstractPipelines.ExpansionsSurviveConversion | shared/src/abstract_pipeline.rs:382-397 | every alias's expansion survives the removal and the rewiring |
| AbstractPipelines.HoldsExpansionKept | shared/src/abstract_pipeline.rs:373-381 | a later merge drawing other ids keeps an earlier expansion in place |
| AbstractPipelines.ExpansionsKept | shared/src/abstract_pipeline.rs:373-381 | merging one more alias keeps every expansion merged before it |
| AbstractPipelines.ExpansionSurvivesConversion | shared/src/abstract_pipeline.rs:382-397 | removing the aliases and repointing the links leaves every expansion's elements and links in place |
| AbstractPipelines.AbstractPipeline.RemoveNodes | shared/src/abstract_pipeline.rs:382-384 | exactly the given nodes removed |
| AbstractPipelines.AbstractPipeline.RewireLinks | shared/src/abstract_pipeline.rs:386-396 | every link rewired, in place and in order |
| AbstractPipelines.LinksFrom | shared/src/abstract_pipeline.rs:439-448 | exactly the links leaving the node; empty iff it has no outgoing link |
| AbstractPipelines.KeysInSomeOrder | shared/src/abstract_pipeline.rs:401-406 | the map's keys, in an unspecified order |

## Left out

- The MediaSource, SourceBuffer and video element in `VideoPreview.tsx` are abstracted. Whether an append completes is the parameter `appended` (in `ReceiveSnapshot`, `appended0` and `appended1` for its two updates), and a failed `abort()` on a stale buffer counts as an append that does not complete.
- The async mutex in `VideoPreview.tsx` is left out, as is `Lock.ts`. Each locked section is one method run to completion.
- React state and rendering, `setTimeout` and the playback controls are left out.
- The `EventBus` dispatch of a clip's duration is left out, because it only notifies the UI.
- The Communicator invocations that ask the Rust side for a length or a chunk range are left out as IPC. The effect of those commands is `TauriCommands.RequestVideoLength` and `TauriCommands.RequestVideoPreview`, and `VideoUpdate` returns the range it would request.
- `get_output_directory` is left out as IPC. Its answer is the `outputDirectory` parameter.
- A `readFile` failure in `loadChunk` is left out. It happens before the `try` and never releases the lock.
- `VideoPreviews.VideoPreview.LoadChunk` sets the timestamp offset whenever there is a source buffer. In the source, an `abort()` that throws at `VideoPreview.tsx:203` skips the assignment at line 208 and leaves the offset as it was; the model counts that case only as an append that does not complete.
- JavaScript arrays grow when written past their end. `VideoPreviews.VideoPreview.LoadChunk` therefore requires `segment` below the chunk count, which its only caller guarantees.
- The `VideoPreview.tsx` snapshot type is modelled with the four-field `Data(duration, codec, is_video, chunks)` that the handler thread builds. `state.rs` and `tauri_commands.rs` show an older two-field `Data`, and the four-field form is what `VideoPreview.tsx` reads.
- Two quirks of `VideoPreview.tsx` are kept on purpose: the merge branch keeps the local duration, and `onClipChanged` never clears an existing source buffer flag.
- The sockets, files, sleeps, `emit` calls and logging of `video_preview_handler_thread.rs` are left out, as is the dispatch between its threads. The downloaded file's codec probe is a parameter.
- `PreviewHandler.OnNewChunk` requires the record to exist and the chunk to be in range, because the source unwraps the record and indexes after only logging.
- `PreviewHandler.OnChunkDownloaded` requires the same, for the same reason.
- The `medias` table of `Store` (shared/src/store.rs:27) is not part of `Tasks.StoreValue`, because no task reads or changes it.
- Parsing a clip value with serde is a parameter, `ClipValue`: what the JSON parses to as each clip kind.
- `ClientPipeline.HasCyclesWithLink` is stated only when no source node id contains `_`. The source's `links_done` key joins the two ids with `_`, so other ids can collide.
- `ClientPipeline.DeserialiseEndpoint` rejects a defined field that is not a string. The source would store it anyway and fail later. A `TypeError` thrown while reading a field and the "Could not deserialise" error are both the same `Err`.
- `Clips.GetClipType` does not give an iff for counts of 2^31 or more, which wrap around through `as i32`.
- `AbstractPipelines.AbstractPipeline.Merge` requires the other pipeline to be keyed by id, which every pipeline built by `add_node` is.
- `AbstractPipelines.AbstractPipeline.ConvertAliases` requires fresh draws that differ between aliases (`DrawsFresh`, `DrawsDisjoint`), because `uniq_id()` never repeats.
- `AbstractPipelines.AbstractPipeline.ExpandAliases` returns the order in which it merged the aliases as a ghost value, and the result is exact for that order. The order itself is not fixed, because the source takes it from the HashMap's iteration order.
- The `i32` counts of `PipeableType` in `node.rs` are unbounded integers, because no modelled operation on them can overflow. `Clips.AsI32` models the one `as i32` cast, where a list length becomes a count.
- `PipeableStreamType::encoder` is `todo!()` for subtitles and is modelled only for the other two types.
- `AbstractPipeline::to_gstreamer_pipeline` and `Node::to_gstreamer_pipeline` are left out. They iterate a `HashMap`, so their output order is unspecified; the single-link rendering they are built from is modelled.
- `handle_splits` and `optimise` are left out, because they are not among the operations modelled.
- `uniq_id()` and `Uuid::new_v4()` randomness becomes parameters.
- `create_timeline`, `get_file_info`, the GES and GStreamer node wrappers, the server, the networking, and the older `src/` and `src-tauri/` snapshots are not part of this model.

## Findings

| source | as written | input that shows it | evidently intended | confidence | as-written member | corrected member |
|---|---|---|---|---|---|---|
| client/src/classes/Utils.ts:71 | the last test of `pipeableTypeMatchesRestrictions` compares `t.video` with `min.subtitles` | type (video 1, audio 0, subtitles 0) with minimum (0, 0, 1) passes | compare `t.subtitles` with `min.subtitles`, as the doc comment's "within bounds" says | not executed; `Utils.DowngradeUnaffectedByMatchesBug` shows the downgrade result is unaffected | Utils.MatchesRestrictionsAsWritten (Utils.MatchesRestrictionsAsWrittenIgnoresSubtitlesMin) | Utils.MatchesRestrictions |
| shared/src/task.rs:74-77 | `DeleteLinks(id, Some(prop))` keeps a link only if its target node is not id and its target property is not prop | deleting the links into input "video" of node "n" also removes the link a.out→n.audio and the link a.out→b.video | remove only the links into input prop of node id, as the caller at client/src/components/NodeEditor/NodeEditor.tsx:163-165 intends | not executed | Tasks.DeleteLinksToPropertyAsWritten (Tasks.DeleteLinksToPropertyAsWrittenOverdeletes) | Tasks.DeleteLinksToProperty (Tasks.DeleteLinksToPropertyIntended, Tasks.DeleteLinksToPropertyKeepsOtherInputs) |

`Tasks.ApplyTask` and `Tasks.Store.Apply` apply `DeleteLinks` with the filter as written, so every task lemma describes the store as the source leaves it. The intended filter is kept beside it, with its own lemmas.
