# Verified model of the Lookout for Vision GStreamer plugin

This project models the stateful protocol behind the plugin and proves properties of whole
runs: the inference element (properties, caps events, frames), the inference client it
drives (shared-memory or inline bitmaps, start-and-poll), the metadata it attaches to
buffers, and the sample MQTT publisher downstream. `dafny verify dfyconfig.toml` checks it
with Dafny 4.11.

## Layout

| file | contents |
|---|---|
| `Basics.dfy` | options, bytes, the C conversions of a frame's dimensions |
| `SharedMemory.dfy` | the segment on values, its whole-run properties, and the kernel object with `ftruncate`, `mmap`, `munmap` and the copy loop |
| `AgentLifecycle.dfy`, `Polling.dfy` | the agent's model lifecycle, one start-and-poll call over real time, and its bounds |
| `Client.dfy` | the inference client as an object, with a log of every RPC it attempts |
| `Results.dfy`, `Metadata.dfy` | results on the free store; adding, copying, freeing and reading metadata |
| `Protocol.dfy` | the whole system as a transition system over traces of events |
| `History.dfy`, `Streams.dfy`, `Traffic.dfy` | what any trace makes of configuration, frames' bytes, results, publications, metadata, segment and RPCs, told from its events and the state each of them meets |
| `MetaHistory.dfy` | what each event does to the metadata on buffers, position by position, and to what is published; what becomes of a meta over a run |
| `OneAgent.dfy` | one agent behind all calls of a run: starts and stops followed from one call to the next |
| `Elements.dfy`, `Pipeline.dfy` | the two elements as objects, each callback proved against the transition system, and the refinement over whole traces |

The imperative parts of the program are classes whose methods are proved against functions
on values; the lemmas about those functions then hold of the objects. `Pipeline.RunTrace`
closes the gap for whole runs: for every trace of property sets, caps events, frames,
metadata traffic and RPC outcomes, the objects show exactly `Protocol.Run`.

## Assumptions

Everything the environment decides is an input: RPC outcomes, the agent's moves, clock
readings, publish outcomes, whether a meta can be had. What is assumed of it:

- instants never go back, a sleep lasts at least 5 seconds, and `std::time` is the floor of
  the instant (`Polling.Call.Valid`);
- an agent grants a start request only to a model that is STOPPED or FAILED, and moves on its
  own only as `AgentLifecycle.Spontaneous` allows; a status is sampled while its RPC runs;
- a start request that reaches the agent does so before every status sampled in the same
  call (`Polling.Call.Round`);
- each call brings its own account of the agent; only in `OneAgent` are these parts of one
  history (`OneAgent.Agent.Serves`), in which nobody else is granted a start;
- one live client uses the segment name; `ftruncate` and `mmap` succeed and behave as in the
  System Interfaces volume of POSIX.1-2017, at byte granularity;
- buffers can be mapped for reading, property strings are not NULL, element callbacks are
  atomic steps, and the publisher is linked directly behind the inference element.

## Findings

- Superseded mappings are never unmapped: deleting a client leaves one behind per growth, so
  it leaves none if and only if no frame it wrote was longer than 11059200 bytes
  (`SharedMemory.LeakedMappings`, `Streams.SegmentAccounts`). `Streams.LeakingRun` is a run
  that leaks. Unmapping before remapping keeps exactly one mapping and changes nothing an
  agent reads (`SharedMemory.UnmappingKeepsOneMapping`).
- The repository's README describes `model-status-timeout` as the seconds to wait for the
  model. A model that becomes RUNNING within that time can still be missed; with the first
  reading in budget it is certain to be found if it is RUNNING from `timeout - 1 - gap`
  seconds on, `gap` being the longest distance between clock readings
  (`Polling.BoundedCompleteness`). For every gap from 5 seconds on and every timeout from
  `gap + 1` on, that bound cannot be moved by any amount: a model RUNNING at all times later
  than a bound set however little later can be missed (`Polling.CompletenessBoundTight`).
- The repository's README says no action is required when StartModel is refused because the
  model is RUNNING. That is right (`Polling.RunningModelIsLeftAlone`), but a refusal because
  the model is STOPPING makes the call fail whatever follows (`Polling.StoppingModelFails`),
  since the request is never repeated. With an agent that otherwise serves well, the call
  succeeds if and only if its request does not meet a STOPPING model
  (`Polling.SucceedsUnlessStopping`); `Polling.StoppingIsTheCulprit` gives a call for each
  side.
- The publisher reads the first meta of a buffer. That is the result of the element just
  upstream if and only if a meta could be had and either GStreamer adds metas at the head of
  its list or the buffer arrived without inference metadata
  (`Streams.PublisherReadsOwnResult`). `Streams.ForeignResultPublished` is a run in which
  another producer's result is published instead.

## Model

| member | source | states |
|---|---|---|
| Basics.DimensionSurvives | src/gst/lookoutvision/gstlookoutvision.cc:229-230 | a gint dimension passed as size_t and set as protobuf int32 arrives unchanged, negative values included |
| SharedMemory.HandleShowsFrame | src/lookoutvision-client/LookoutVisionInferenceClient.cc:73-79 | for every sequence of frame sizes, offset 0 and size bytes_size show exactly the frame just written, with nothing left from a longer one |
| SharedMemory.HighWaterMark | src/lookoutvision-client/LookoutVisionInferenceClient.cc:103-110 | after any run the size is the maximum of the initial size and all frames, descriptor and current mapping have that length, and the mappings made are the initial one plus one per record frame, strictly increasing, all still in place |
| SharedMemory.GrowsExactlyAtRecords | src/lookoutvision-client/LookoutVisionInferenceClient.cc:104-108 | the segment grows and is mapped again exactly at frames longer than the initial size and than all before |
| SharedMemory.SegmentContents | src/lookoutvision-client/LookoutVisionInferenceClient.cc:35-42 | byte i after any run is byte i of the most recent frame longer than i, or what setupSHM left there; bytes added by growth are always covered by a frame |
| SharedMemory.LeakedMappings | src/lookoutvision-client/LookoutVisionInferenceClient.cc:45-53 | the destructor unmaps the newest mapping only and leaves as many as there were growths, so it leaves none if and only if no frame was longer than 11059200 bytes |
| SharedMemory.NeverMappedAgain | src/lookoutvision-client/LookoutVisionInferenceClient.h:30 | the segment starts at 11059200 bytes, and the first mapping is the only one ever made if and only if no frame is longer than that |
| SharedMemory.RecordsEmpty | src/lookoutvision-client/LookoutVisionInferenceClient.cc:104 | the growth branch is never taken if and only if no frame is longer than the initial size |
| SharedMemory.OneLongFrameLeaks | src/lookoutvision-client/LookoutVisionInferenceClient.cc:45-53 | one frame longer than the initial size is enough: the first mapping outlives the destructor |
| SharedMemory.UnmappingKeepsOneMapping | src/lookoutvision-client/LookoutVisionInferenceClient.cc:104-108 | a variant that unmaps before remapping has one live mapping at all times, none after the destructor, and the same contents |
| SharedMemory.SharedObject.Ftruncate | src/lookoutvision-client/LookoutVisionInferenceClient.cc:106 | the object is cut or extended to the length asked for: every old byte that fits stays, every new one is zero |
| SharedMemory.SharedObject.Memcpy | src/lookoutvision-client/LookoutVisionInferenceClient.cc:109 | the copy stays inside mapping and object, replaces the prefix and keeps the rest |
| AgentLifecycle.SpontaneousIsReachable | src/lookoutvision-client/Inference.proto:96-102 | what the agent may do of itself in one step is exactly what some sequence of single moves of a model does: loading that ends well, fails or is called off, a stop, a crash, and stopping that ends |
| Polling.LeftDecreases | src/lookoutvision-client/LookoutVisionInferenceClient.cc:146-154 | each round takes at least five whole seconds off the truncated clock, which is the loop's termination measure |
| Polling.PollsProfile | src/lookoutvision-client/LookoutVisionInferenceClient.cc:144-155 | polling stops at the first reply with the expected status or at the first reading over budget, and succeeds exactly when some poll in budget replies with that status |
| Polling.PollsBounded | src/lookoutvision-client/LookoutVisionInferenceClient.cc:144-155 | at most ceil(timeout/5) polls, none for a timeout that is not positive |
| Polling.PollsBoundAttained | src/lookoutvision-client/LookoutVisionInferenceClient.cc:15 | for every timeout there is an environment in which exactly ceil(timeout/5) polls are made |
| Polling.RealTimeBounds | src/lookoutvision-client/LookoutVisionInferenceClient.cc:144-155 | every poll starts less than timeout real seconds after the start reading, and failure comes more than timeout - 1 seconds after it, however long RPCs and sleeps take |
| Polling.FailureIsPrompt | src/lookoutvision-client/LookoutVisionInferenceClient.cc:144-155 | with readings at most gap apart, a call that polls and fails does so less than timeout plus one round after the start reading |
| Polling.BoundedCompleteness | src/lookoutvision-client/LookoutVisionInferenceClient.cc:113-156 | with the first reading in budget, replies, and readings at most gap apart, a model RUNNING at all times later than timeout - 1 - gap is found, under any agent schedule |
| Polling.CompletenessBoundTight | src/lookoutvision-client/LookoutVisionInferenceClient.cc:146 | for every gap from 5 seconds on and every timeout from gap + 1 on, a model in status RUNNING at all times later than an arbitrarily small time after that bound can be missed although every poll replies |
| Polling.FoundMeansRunning | src/lookoutvision-client/LookoutVisionInferenceClient.cc:131-139 | success means the agent's model was RUNNING at an instant inside the call, whatever the start request returned or threw |
| Polling.NotStartedFails | src/lookoutvision-client/LookoutVisionInferenceClient.cc:119-139 | the start request is made once: if the model is at rest before the first poll and no request is granted from then on, the model is not RUNNING at any later point of the call and the call fails, for every timeout and schedule |
| Polling.StoppingModelFails | src/lookoutvision-client/Inference.proto:41-49 | a start request that meets a STOPPING model is never granted, no later state of the call is RUNNING, and the call fails |
| Polling.SucceedsUnlessStopping | src/lookoutvision-client/LookoutVisionInferenceClient.cc:113-156 | with an agent that grants exactly the requests to a STOPPED or FAILED model, loads it in time, keeps it running and answers the polls, the call succeeds if and only if its request does not meet a STOPPING model |
| Polling.StoppingIsTheCulprit | src/lookoutvision-client/LookoutVisionInferenceClient.cc:119-139 | both sides are met, for every timeout from six seconds on: the same prompt agent makes the call succeed from every status but STOPPING |
| Polling.RunningModelIsLeftAlone | src/lookoutvision-client/Inference.proto:41-49 | a start request to a RUNNING model is not granted, and the first poll with a reply succeeds while the model stays RUNNING |
| Client.AgentSeesFrame | src/lookoutvision-client/LookoutVisionInferenceClient.cc:68-83 | in either build the image behind the request is exactly the frame |
| Client.StartTrafficTellsOutcome | src/lookoutvision-client/LookoutVisionInferenceClient.cc:113-139 | the traffic of a successful call ends with a reply RUNNING; that of a failed call contains no such reply |
| Client.FoundMeans | src/lookoutvision-client/LookoutVisionInferenceClient.cc:141-179 | a wait for any status succeeds if and only if some DescribeModel within the whole-second budget gets a reply with that very status |
| Client.StartTrafficIsLog | src/lookoutvision-client/LookoutVisionInferenceClient.cc:113-156 | a StartModel call leaves one start request for the model in the log, then its polls and nothing else: each with the status its reply carries or none, all in time, up to the first that says RUNNING or else until the time is up |
| Client.InferenceClient.Create | src/lookoutvision-client/LookoutVisionInferenceClient.cc:20-43 | a client comes into being unless shm_open fails in a shared-memory build; the segment is then truncated to its initial size and mapped once |
| Client.InferenceClient.Destroy | src/lookoutvision-client/LookoutVisionInferenceClient.cc:45-53 | the current mapping is removed and no other, the descriptor is closed and the name unlinked |
| Client.InferenceClient.SetServerSocket | src/lookoutvision-client/LookoutVisionInferenceClient.cc:55-59 | later RPCs go to the new socket; nothing else changes |
| Client.InferenceClient.WriteShm | src/lookoutvision-client/LookoutVisionInferenceClient.cc:103-110 | the segment becomes the one the value-level writeSHM computes, and stays consistent |
| Client.InferenceClient.DetectAnomalies | src/lookoutvision-client/LookoutVisionInferenceClient.cc:61-100 | one RPC with model, dimensions and bitmap, and one fresh result that is SUCCESSFUL with the reply's values or FAILED with the error, allocated exactly once |
| Client.InferenceClient.GetModelStatus | src/lookoutvision-client/LookoutVisionInferenceClient.cc:158-179 | one DescribeModel RPC; the reply's own status if there is a reply, none on an error status or an exception |
| Client.InferenceClient.WaitForModelStatusWithTimeout | src/lookoutvision-client/LookoutVisionInferenceClient.cc:141-156 | true exactly if some poll in time got a reply with the expected status, after exactly the polls counted |
| Client.InferenceClient.StartModel | src/lookoutvision-client/LookoutVisionInferenceClient.cc:113-139 | the log grows by one start request, whatever it returns or throws, and then by the polls; SUCCESSFUL exactly if one of them, in time, got a reply RUNNING |
| Metadata.MetaStore.AddMeta | src/gst/lookoutvisionmeta/gstlookoutvisionmeta.cc:53-67 | NULL for a NULL buffer or a failed allocation, with no effect; otherwise one new meta owning a fresh copy of the result, put where GStreamer puts it |
| Metadata.MetaStore.AttachTemporary | src/gst/lookoutvision/gstlookoutvision.cc:236-246 | a temporary result is attached and deleted once; afterwards the live results are exactly those of the metas |
| Metadata.MetaStore.Transform | src/gst/lookoutvisionmeta/gstlookoutvisionmeta.cc:18-26 | the destination gets a meta with a result of its own equal to the source's; the source keeps its result |
| Metadata.MetaStore.Release | src/gst/lookoutvisionmeta/gstlookoutvisionmeta.cc:13-16 | the meta's result is deleted once and its pointer cleared; every other live meta keeps its live result |
| Metadata.MetaStore.FreeMeta | src/gst/lookoutvisionmeta/gstlookoutvisionmeta.cc:13-16 | dropping one meta of a buffer removes it alone, under any order of copies and frees |
| Metadata.MetaStore.CopyOutlivesSource | src/gst/lookoutvisionmeta/gstlookoutvisionmeta.cc:13-26 | after a meta is copied to another buffer and then freed, its result is deleted while the copy's own result is live and equal to the one originally attached |
| Metadata.MetaStore.GetMeta | src/gst/lookoutvisionmeta/gstlookoutvisionmeta.cc:69-78 | the first meta of the buffer with its live result; NULL for a NULL buffer or one without metadata |
| Metadata.ResultsNotShared | src/gst/lookoutvisionmeta/gstlookoutvisionmeta.cc:63-64 | no two live metas share a result and every result is live |
| History.SettingsHistory | src/gst/lookoutvision/gstlookoutvision.cc:138-152 | after any trace socket, timeout and topic are the ones last set or the defaults, and the client talks to the element's socket |
| History.ModelHistory | src/gst/lookoutvision/gstlookoutvision.cc:160-168 | model_component is the last name whose set had a successful StartModel under the timeout then in force, NULL if none |
| History.ModelInPlace | src/gst/lookoutvision/gstlookoutvision.cc:160-168 | a model is in place if and only if some set of model-component had a successful StartModel |
| History.StartModelAt | src/gst/lookoutvision/gstlookoutvision.cc:149-168 | a model set and a socket set with a model in place call StartModel, on the current socket with the current timeout, and post an element error exactly if it fails; no other event sends a start or status request or posts an error |
| History.ModelConfirmed | src/gst/lookoutvision/gstlookoutvision.cc:149-168 | a model in place was seen RUNNING at the current socket since that was set, or the restart made by the last socket set failed and posted an error |
| History.SeenRunningIsReal | src/lookoutvision-client/LookoutVisionInferenceClient.cc:141-179 | a model seen RUNNING in the log really was RUNNING at the agent, at an instant inside a poll made by a StartModel call for it on the current socket since that was set |
| History.DimensionsHistory | src/gst/lookoutvision/gstlookoutvision.cc:100-117 | width and height are those of the last complete caps event before the first incomplete one, 0 if none; the probe lasts until that event |
| Traffic.StepTraffic | src/gst/lookoutvision/gstlookoutvision.cc:226-234 | a frame makes one RPC exactly if a model is in place, to the current socket, for the current model, with the current dimensions and the frame's own bytes; a StartModel makes its polls; every other event sends nothing and posts no error |
| Traffic.TrafficHistory | src/gst/lookoutvision/gstlookoutvision.cc:145-249 | over any trace the RPCs attempted are exactly those of its events, in order, and the errors posted are as many as the failing StartModel calls |
| Traffic.FrameRequest | src/gst/lookoutvision/gstlookoutvision.cc:218-234 | told from the trace, a frame makes exactly one request if its buffer arrived and some model set succeeded before, none otherwise: to the socket last set or the default one by name, for the model last started, with the dimensions of the last complete caps event before an incomplete one, and with the bytes the buffer arrived with, inline or behind a handle on the named segment |
| Traffic.StartCall | src/gst/lookoutvision/gstlookoutvision.cc:149-168 | told from the trace, in the program's own terms: setting a model calls StartModel for it, setting a socket does so for the model last started, on the socket last set (or the default one, by name) with the timeout last set (or 180 seconds); the log grows by exactly that call's RPCs, an error is posted unless some poll in time says RUNNING, and model_component changes only on a successful model set |
| OneAgent.RunningNeedsGrant | src/lookoutvision-client/Inference.proto:41-49 | over all calls to one agent, a model at rest at one step and not at a later one was granted, in between, the start request of one of the calls |
| OneAgent.SeenRunningWasStarted | src/gst/lookoutvision/gstlookoutvision.cc:149-168 | a model seen RUNNING in the log of a run, at an agent that had it at rest, was started since by a granted request of a call of the run, not later than the one that saw it |
| OneAgent.StartCarriesOver | src/lookoutvision-client/LookoutVisionInferenceClient.cc:113-139 | while the agent keeps a model running after a successful call, a later call for it on the same socket is not granted a start and succeeds if and only if some poll in budget gets a reply |
| OneAgent.OneStartServesTwoCalls | src/gst/lookoutvision/gstlookoutvision.cc:149-158 | there is a run in which a model set and then a socket set call StartModel on one agent and both succeed on the one start granted |
| Streams.OutputStreams | src/gst/lookoutvision/gstlookoutvision.cc:218-249 | for every trace the buffers pushed are those of the frames in order, each once, with their results; the publications are the in-order images of deliveries whose first result is SUCCESSFUL |
| Streams.FrameResult | src/gst/lookoutvision/gstlookoutvision.cc:226-248 | for every trace and every frame with a meta, the buffer pushed on carries one result of its own, SUCCESSFUL exactly if some earlier set of a model had a successful StartModel and the RPC got a reply, then with the reply's values; otherwise blank but for the reason |
| Streams.MetadataConserved | src/gst/lookoutvision/gstlookoutvision.cc:226-246 | however adding, copying and freeing interleave, each meta holds the result originally attached, and allocations exceed deletions by exactly the metas in the pool |
| MetaHistory.MetaEvent | src/gst/lookoutvisionmeta/gstlookoutvisionmeta.cc:13-67 | what any event does to the metas, position by position: a new result or a copy goes to one end of its buffer's list, a freed meta leaves its list and the others keep their order, an arriving buffer carries none, everything else stays; what is allocated and deleted at that event, and which result is handed over |
| MetaHistory.PushEvent | mqtt-publish-sample/mqttpublisher-gstreamer-plugin/mqttpublisher/gstmqttpublisher.cc:159-180 | a frame's buffer is pushed on as it is after the event; the result in its first meta is published, once, on the topic last set or the default one by name, if it is SUCCESSFUL; no other event pushes or publishes |
| MetaHistory.MetasKept | src/gst/lookoutvisionmeta/gstlookoutvisionmeta.cc:53-67 | over any stretch of a run in which no meta of a buffer is freed, the buffer keeps all its metas in order, new ones being added at one end |
| MetaHistory.CopyOutlivesSource | src/gst/lookoutvisionmeta/gstlookoutvisionmeta.cc:13-26 | from the event that copies a meta to a buffer until one that frees a meta of that buffer, the copy stays at its place with the result originally attached, whatever becomes of the source |
| MetaHistory.GoneForGood | src/gst/lookoutvisionmeta/gstlookoutvisionmeta.cc:13-26 | once a result handed over is carried by no buffer, no later event brings it back |
| MetaHistory.DeletionsHistory | src/gst/lookoutvision/gstlookoutvision.cc:236-246 | over any run the results deleted are as many as the temporaries of all results handed over plus the metas freed |
| Streams.FreeUndoesAdd | src/gst/lookoutvisionmeta/gstlookoutvisionmeta.cc:13-16 | freeing the newest meta of a buffer restores the buffers as they were before it was added |
| Streams.PublisherReadsOwnResult | mqtt-publish-sample/mqttpublisher-gstreamer-plugin/mqttpublisher/gstmqttpublisher.cc:163-166 | the publisher reads the result of the element just upstream if and only if a meta could be had and metas grow at the head or the buffer carried none |
| Streams.ForeignResultPublished | mqtt-publish-sample/mqttpublisher-gstreamer-plugin/mqttpublisher/gstmqttpublisher.cc:163-166 | where metas are added at the tail, there is a run in which a frame without a model is published with another producer's result |
| Streams.PublishedReplies | mqtt-publish-sample/mqttpublisher-gstreamer-plugin/mqttpublisher/gstmqttpublisher.cc:159-180 | when metas can be had and either they are added at the head or buffers arrive without inference metadata, the publications are exactly the successful replies, in order, on the topic then in force |
| Streams.BytesHistory | src/gst/lookoutvision/gstlookoutvision.cc:218-249 | told from the trace alone, the buffers hold the bytes that arrived, and the frames pushed on are those of the buffers sent, in order, none altered |
| Streams.FramesIndependent | src/gst/lookoutvision/gstlookoutvision.cc:218-249 | no RPC, publish, flow, property or metadata outcome, and neither build, drops, repeats, reorders or alters a frame |
| Streams.SharedMemoryRefinesInline | src/lookoutvision-client/LookoutVisionInferenceClient.cc:73-81 | over every trace the shared-memory and the inline build send the same RPCs with the same images and put out the same |
| Streams.SegmentHistory | src/lookoutvision-client/LookoutVisionInferenceClient.cc:73-74 | after any trace the segment is the one made by the frames sent with a model in place, in order |
| Streams.SegmentAccounts | src/lookoutvision-client/LookoutVisionInferenceClient.cc:45-53 | over any trace the segment is as long as the longest such frame, and deleting the client leaves one mapping per record among them; none is left, and none but the first was made, if and only if no such frame was longer than 11059200 bytes |
| Streams.LeakingRun | src/lookoutvision-client/LookoutVisionInferenceClient.cc:45-53 | starting a model and sending one frame longer than 11059200 bytes is a run that leaves the first mapping in place |
| Elements.MqttPublisher.SetTopic | mqtt-publish-sample/mqttpublisher-gstreamer-plugin/mqttpublisher/gstmqttpublisher.cc:115-127 | the topic is replaced, nothing else changes |
| Elements.MqttPublisher.Chain | mqtt-publish-sample/mqttpublisher-gstreamer-plugin/mqttpublisher/gstmqttpublisher.cc:159-180 | one attempt to publish if the first meta holds a SUCCESSFUL result, none otherwise; the buffer is pushed in any case and the flow of downstream returned |
| Elements.LookoutVision.constructor | src/gst/lookoutvision/gstlookoutvision.cc:125-143 | the element starts without a model, with timeout 180, the default socket and topic by name, and dimensions 0 |
| Elements.LookoutVision.SetProperty | src/gst/lookoutvision/gstlookoutvision.cc:145-176 | each property set moves the whole system as the transition system does |
| Elements.LookoutVision.PadProbe | src/gst/lookoutvision/gstlookoutvision.cc:100-117 | both dimensions are taken or neither; an incomplete caps event removes the probe |
| Elements.LookoutVision.Chain | src/gst/lookoutvision/gstlookoutvision.cc:218-249 | client, metadata, free store and publisher move as the transition system does for a frame; afterwards no temporary result is left |
| Elements.LookoutVision.Finalize | src/gst/lookoutvision/gstlookoutvision.cc:197-209 | the client is destroyed with only its newest mapping removed, its descriptor closed and the name unlinked, and the pointers are cleared |
| Pipeline.Create | src/gst/lookoutvision/gstlookoutvision.cc:125-143 | creation fails exactly if shm_open does; otherwise the system is in its initial state |
| Pipeline.Dispatch | src/gst/lookoutvision/gstlookoutvision.cc:145-249 | each event, handed to the object it concerns, is one step of the transition system |
| Pipeline.RunTrace | src/gst/lookoutvision/gstlookoutvision.cc:125-249 | over every trace the objects, all of them new, show exactly the state the transition system computes, and the live results are as many as the metas on buffers |
| Pipeline.Teardown | src/gst/lookoutvision/gstlookoutvision.cc:197-209 | deleting the element after any trace leaves one mapping behind per record among the frames sent with a model in place, none if and only if none was longer than 11059200 bytes, with the descriptor closed and the name unlinked |

## Left out

- gRPC channels, protobuf encoding and generated stubs: an RPC is an outcome given as input, together with what the agent can read at that moment.
- GObject and GStreamer registration, pad templates, caps negotiation, type macros, get_property and plugin entry points: declarative plumbing.
- GreengrassClient: only the attempt to publish is kept, with its status; an exception out of the IPC library is not modelled.
- Console output and the wording of messages, including std::to_string of a float: carried as opaque values; a publication is its topic and the two values it reports.
- The range 0 to 600 of model-status-timeout: any natural number is allowed, so nothing depends on the conversion from guint to int.
- Overlap of property sets with the streaming thread, and several clients on one segment name: the code takes no locks.
- StopModel and ListModels: the client never calls them; stopping is a move of the agent.
- Consistency of bytes_size with width times height times 3: the code neither computes nor checks it.
- A frame's memory as a mutable array: it is only read here, so a buffer's bytes are a value.
- The pools of buffers as linked lists: a buffer is named by its position, and its metadata is a sequence.
- The stub-taking client constructor, used only by the repository's tests: it does the same setup.
- Other clients of the same agent: a start granted to one of them between or during calls is not modelled; stops, by whomever, are moves of the agent.
- Elements other than the two: other producers, copies and frees of metadata are events of a trace.
