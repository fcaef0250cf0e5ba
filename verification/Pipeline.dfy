/** The pipeline under an arbitrary trace: the objects of module Elements, driven by
    GStreamer, always show the state that module Protocol computes. */
module Pipeline {
  import opened Polling
  import opened SharedMemory
  import opened Metadata
  import opened Client
  import opened Protocol
  import opened Elements
  import Streams

  /** Everything reachable from the element is as old as before, or fresh. */
  twostate predicate OldOrFresh(element: LookoutVision)
    reads element, element.inferenceClient, element.store,
          if element.inferenceClient == null then {} else {element.inferenceClient.shmFd}
  {
    && element.inferenceClient == old(element.inferenceClient)
    && forall o :: o in element.Footprint() ==> o in old(element.Footprint()) || fresh(o)
  }

  predicate IsMetadataEvent(e: Event) {
    e.Arrive? || e.Attach? || e.CopyMeta? || e.FreeMeta?
  }

  /** Metadata traffic outside the element. */
  method MetadataEvent(ghost cfg: Config, element: LookoutVision, e: Event)
    requires element.Valid() && IsMetadataEvent(e) && cfg.appends == element.store.appends
    modifies element.store, element.store.heap, element.store.metas
    ensures element.Valid() && OldOrFresh(element)
    ensures old(element.View()).client.Valid() && element.View() == Step(cfg, old(element.View()), e)
  {
    hide MetaStore.Consistent;
    match e {
      case Arrive(bytes) => element.store.Arrive(bytes);
      case Attach(b, value, metaOk) => element.store.Produce(b, value, metaOk);
      case CopyMeta(dest, b, pos, metaOk) => element.store.Copy(dest, b, pos, metaOk);
      case FreeMeta(b, pos) => element.store.Free(b, pos);
    }
  }

  /** A property set, on the element or on the publisher. */
  method PropertyEvent(ghost cfg: Config, element: LookoutVision, e: Event)
    requires element.Valid() && (e.SetSocket? || e.SetModel? || e.SetTimeout? || e.SetTopic? || e.UnknownProperty?)
    modifies element, element.inferenceClient, element.peer
    ensures element.Valid() && OldOrFresh(element)
    ensures old(element.View()).client.Valid() && element.View() == Step(cfg, old(element.View()), e)
  {
    hide MetaStore.Consistent;
    match e {
      case SetSocket(socket, call) => element.SetProperty(ServerSocket(socket), call);
      case SetModel(name, call) => element.SetProperty(ModelComponent(name), call);
      case SetTimeout(seconds) => element.SetProperty(ModelStatusTimeout(seconds), IdleCall());
      case SetTopic(topic) => element.peer.SetTopic(topic);
      case UnknownProperty => element.SetProperty(OtherProperty, IdleCall());
    }
  }

  /** A buffer of the pool enters the element's sink pad. */
  method SendBuffer(element: LookoutVision, buffer: nat, rpc: DetectOutcome, metaOk: bool,
                    publish: PublishOutcome, downstream: FlowReturn)
    requires element.Valid() && buffer < |element.store.pool|
    modifies element.Footprint()
    ensures element.Valid() && OldOrFresh(element)
    ensures old(element.View()).client.Valid() && buffer < |old(element.View()).meta.pool|
    ensures element.View() == AfterFrame(element.store.appends, old(element.View()), buffer, rpc, metaOk)
  {
    assert |element.store.pool| == |element.store.view|;
    hide MetaStore.Valid;
    hide InferenceClient.Valid;
    var flow := element.Chain(buffer, rpc, metaOk, publish, downstream);
  }

  lemma FrameStep(cfg: Config, s: State, e: Event)
    requires s.client.Valid() && e.Frame?
    ensures Step(cfg, s, e) ==
            if e.buffer < |s.meta.pool| then AfterFrame(cfg.appends, s, e.buffer, e.rpc, e.metaOk) else s
  {}

  /** A frame event; nothing happens for a buffer that has not arrived. */
  method FrameEvent(ghost cfg: Config, element: LookoutVision, e: Event)
    requires element.Valid() && e.Frame? && cfg.appends == element.store.appends
    modifies element.Footprint()
    ensures element.Valid() && OldOrFresh(element)
    ensures old(element.View()).client.Valid() && element.View() == Step(cfg, old(element.View()), e)
  {
    assert |element.store.pool| == |element.store.view|;
    FrameStep(cfg, element.View(), e);
    hide Step, AfterFrame, MetaStore.Valid, InferenceClient.Valid;
    if e.buffer < |element.store.pool| {
      SendBuffer(element, e.buffer, e.rpc, e.metaOk, e.publish, e.flow);
    }
    return;
  }

  /** One event, handed to the object it concerns. */
  method Dispatch(ghost cfg: Config, element: LookoutVision, e: Event)
    requires element.Valid() && cfg.appends == element.store.appends
    modifies element.Footprint()
    ensures element.Valid() && OldOrFresh(element)
    ensures old(element.View()).client.Valid() && element.View() == Step(cfg, old(element.View()), e)
  {
    hide MetaStore.Consistent;
    if IsMetadataEvent(e) {
      MetadataEvent(cfg, element, e);
    } else if e.Frame? {
      FrameEvent(cfg, element, e);
    } else if e.Caps? {
      element.PadProbe(e.width, e.height);
    } else if !e.OtherPadEvent? {
      PropertyEvent(cfg, element, e);
    }
  }

  /** The element with its client, store and publisher, as gst_lookout_vision_init leaves
      them; creation fails when shm_open does. */
  method Create(cfg: Config, shmOpenOk: bool) returns (element: LookoutVision?)
    ensures element == null <==> cfg.shared && !shmOpenOk
    ensures element != null ==>
              && element.Valid() && element.store.appends == cfg.appends
              && element.View() == Initial(cfg)
              && fresh(element) && fresh(element.store) && fresh(element.store.heap) && fresh(element.peer)
              && fresh(element.inferenceClient) && fresh(element.inferenceClient.Objects())
              && element.store.metas == {}
  {
    var client := InferenceClient.Create(DEFAULT_SOCKET, cfg.shared, cfg.previous, shmOpenOk);
    if client == null {
      return null;
    }
    hide MetaStore.Consistent;
    hide InferenceClient.Valid;
    element := new LookoutVision(client, cfg.appends);
  }

  /** Create, seen as one fresh footprint. */
  method CreateFresh(cfg: Config, shmOpenOk: bool) returns (element: LookoutVision?)
    ensures element == null <==> cfg.shared && !shmOpenOk
    ensures element != null ==>
              && element.Valid() && element.store.appends == cfg.appends
              && element.View() == Initial(cfg)
              && fresh(element) && fresh(element.Footprint())
  {
    hide MetaStore.Valid;
    hide InferenceClient.Valid;
    hide InferenceClient.Objects;
    element := Create(cfg, shmOpenOk);
    if element != null {
      assert element.Footprint() == {element, element.store, element.store.heap, element.peer}
                                    + {element.inferenceClient} + element.inferenceClient.Objects();
    }
  }

  /** GStreamer delivers the events of a trace to a fresh element, one after the other. */
  method RunEvents(ghost cfg: Config, element: LookoutVision, t: seq<Event>)
    requires element.Valid() && cfg.appends == element.store.appends && element.View() == Initial(cfg)
    modifies element.Footprint()
    ensures element.Valid() && OldOrFresh(element) && element.View() == Run(cfg, t)
  {
    hide Step;
    hide MetaStore.Valid;
    hide InferenceClient.Valid;
    var i := 0;
    assert t[..0] == [];
    while i < |t|
      invariant 0 <= i <= |t|
      invariant element.Valid() && OldOrFresh(element)
      invariant element.View() == Before(cfg, t, i)
    {
      Dispatch(cfg, element, t[i]);
      StepAt(cfg, t, i);
      i := i + 1;
    }
    assert t[..i] == t;
  }

  lemma LiveResults(cfg: Config, element: LookoutVision, t: seq<Event>)
    requires element.Valid() && element.View() == Run(cfg, t)
    ensures |element.store.heap.live| == Streams.Sum(element.store.view)
  {
    hide Step;
    hide MetaStore.Consistent;
    Streams.MetadataConserved(cfg, t);
    assert element.View().meta == Run(cfg, t).meta;
  }

  /** A whole run: the element is created (unless shm_open fails, which throws), then sees
      every event of the trace. What the objects show is what the transition system
      computes, and the live results are exactly the metas left on buffers. */
  method RunTrace(cfg: Config, shmOpenOk: bool, t: seq<Event>) returns (element: LookoutVision?)
    ensures element == null <==> cfg.shared && !shmOpenOk
    ensures element != null ==>
              && element.Valid()
              && fresh(element) && fresh(element.Footprint())
              && element.View() == Run(cfg, t)
              && |element.store.heap.live| == Streams.Sum(element.store.view)
  {
    hide Step;
    hide MetaStore.Valid;
    hide InferenceClient.Valid;
    element := CreateFresh(cfg, shmOpenOk);
    if element == null {
      return;
    }
    RunEvents(cfg, element, t);
    LiveResults(cfg, element, t);
  }

  /** Deleting the element after any trace leaves one superseded mapping behind for every
      record among the frames sent with a model in place. */
  method Teardown(ghost cfg: Config, element: LookoutVision, ghost t: seq<Event>)
    requires element.Valid() && cfg.shared && element.View() == Run(cfg, t)
    modifies element, element.inferenceClient.Objects()
    ensures element.inferenceClient == null
    ensures old(element.inferenceClient.shmFd) != null
    ensures var frames := Streams.Collect(Streams.FramesWritten(cfg, t));
            var segment := old(element.inferenceClient.shmFd);
            && |segment.live| == |Records(frames)|
            && (segment.live == {} <==> forall j :: 0 <= j < |frames| ==> |frames[j]| <= 11059200)
            && !segment.open && !segment.linked
  {
    hide Step;
    Streams.SegmentAccounts(cfg, t);
    element.Finalize();
  }
}
