/** The two GStreamer elements as objects. Callbacks are atomic steps; each is proved to
    move the whole system exactly as the transition system of module Protocol says. */
module Elements {
  import opened Basics
  import opened SharedMemory
  import opened Results
  import opened Metadata
  import opened Client
  import opened Protocol

  class MqttPublisher {
    var publishTopic: string
    var published: seq<Publication>
    ghost var delivered: seq<BufferView>

    ghost function View(): SinkState
      reads this
    {
      SinkState(publishTopic, published, delivered)
    }

    constructor ()
      ensures View() == SinkState("lookoutvision/anomalydetection/result", [], [])
    {
      publishTopic, published, delivered := DEFAULT_TOPIC, [], [];
    }

    method SetTopic(topic: string)
      modifies `publishTopic
      ensures View() == old(View()).(topic := topic)
    {
      publishTopic := topic;
    }

    /** PublishToIoTMQTT: one attempt. */
    method Publish(p: Publication, outcome: PublishOutcome) returns (status: PublishOutcome)
      modifies `published
      ensures status == outcome && published == old(published) + [p]
    {
      published := published + [p];
      return outcome;
    }

    /** gst_mqtt_publisher_chain. The status of the publication is ignored; `downstream` is
        what pushing the buffer on returns. */
    method Chain(store: MetaStore, buffer: nat, publish: PublishOutcome, downstream: FlowReturn)
      returns (flow: FlowReturn)
      requires store.Valid() && buffer < |store.view| == |store.pool|
      modifies `published, `delivered
      ensures View() == AfterPush(old(View()), store.view[buffer])
      ensures flow == downstream
    {
      var meta := store.GetMeta(Some(buffer));
      if meta != null {
        var result := meta.result;
        if result != null && result.status.SUCCESSFUL? {
          var _ := Publish(Publication(publishTopic, result.isAnomalous, result.confidence), publish);
        }
      }
      delivered := delivered + [store.view[buffer]];
      return downstream;
    }
  }

  datatype Property =
    | ServerSocket(socket: string)
    | ModelComponent(name: string)
    | ModelStatusTimeout(seconds: nat)
    | OtherProperty

  /** The inference element, linked to the publisher. */
  class LookoutVision {
    var width: int32
    var height: int32
    var serverSocket: Option<string>
    var modelComponent: Option<string>
    var modelStatusTimeout: nat
    var inferenceClient: InferenceClient?
    var probing: bool
    var errors: nat
    const store: MetaStore
    const peer: MqttPublisher

    ghost function Footprint(): set<object>
      reads this, inferenceClient, store, if inferenceClient == null then {} else {inferenceClient.shmFd}
    {
      {this, store, store.heap, peer} + store.metas
      + (if inferenceClient == null then {} else {inferenceClient} + inferenceClient.Objects())
    }

    ghost predicate Valid()
      reads this, Footprint(), store.owner.Keys
      ensures Valid() ==> inferenceClient != null && serverSocket.Some?
    {
      && inferenceClient != null && inferenceClient.Valid()
      && serverSocket.Some?
      && store.Valid() && store.Settled()
    }

    ghost function ElementView(): ElementState
      requires serverSocket.Some?
      reads this
    {
      ElementState(serverSocket.value, modelComponent, modelStatusTimeout, width, height, probing, errors)
    }

    ghost function View(): State
      requires inferenceClient != null && serverSocket.Some?
      reads this, store, store.heap, peer, inferenceClient, inferenceClient.Objects()
    {
      State(ElementView(), inferenceClient.View(), store.View(), peer.View())
    }

    /** gst_lookout_vision_init with the client it creates. */
    constructor (client: InferenceClient, appends: bool)
      requires client.Valid()
      ensures inferenceClient == client && fresh(store) && fresh(store.heap) && fresh(peer) && store.appends == appends
      ensures store.metas == {}
      ensures Valid()
      ensures View() == State(
                ElementState("unix:///tmp/aws.iot.lookoutvision.EdgeAgent.sock", None, 180, 0, 0, true, 0),
                client.View(), MetaState([], [], 0, 0), SinkState("lookoutvision/anomalydetection/result", [], []))
    {
      width, height := 0, 0;
      probing, errors := true, 0;
      modelComponent := None;
      modelStatusTimeout := DEFAULT_TIMEOUT;
      serverSocket := Some(DEFAULT_SOCKET);
      inferenceClient := client;
      store := new MetaStore(appends);
      peer := new MqttPublisher();
    }

    /** StartModel on the current channel; a failure posts an element error. */
    method StartOrPost(model: string, call: ValidCall) returns (started: bool)
      requires Valid()
      modifies `errors, inferenceClient`wire
      ensures Valid()
      ensures old(View()).client.Valid() && View() == AfterStartModel(old(View()), model, call)
      ensures started <==> Starts(old(ElementView()), call)
    {
      var status := inferenceClient.StartModel(model, modelStatusTimeout, call);
      started := status.Started?;
      if !started {
        errors := errors + 1;
      }
    }

    method SetServerSocket(socket: string, call: ValidCall)
      requires Valid()
      modifies `serverSocket, `errors, inferenceClient`serverSocket, inferenceClient`wire
      ensures Valid() && View() == AfterSetSocket(old(View()), socket, call)
    {
      serverSocket := Some(socket);
      inferenceClient.SetServerSocket(socket);
      if modelComponent.Some? {
        var _ := StartOrPost(modelComponent.value, call);
      }
    }

    method SetModelComponent(name: string, call: ValidCall)
      requires Valid()
      modifies `modelComponent, `errors, inferenceClient`wire
      ensures Valid() && View() == AfterSetModel(old(View()), name, call)
    {
      var started := StartOrPost(name, call);
      if started {
        modelComponent := Some(name);
      }
    }

    /** gst_lookout_vision_set_property. */
    method SetProperty(property: Property, call: ValidCall)
      requires Valid()
      modifies `serverSocket, `modelComponent, `modelStatusTimeout, `errors,
               inferenceClient`serverSocket, inferenceClient`wire
      ensures Valid()
      ensures View() == match property
                        case ServerSocket(socket) => AfterSetSocket(old(View()), socket, call)
                        case ModelComponent(name) => AfterSetModel(old(View()), name, call)
                        case ModelStatusTimeout(seconds) =>
                          old(View()).(element := old(ElementView()).(timeout := seconds))
                        case OtherProperty => old(View())
    {
      match property {
        case ServerSocket(socket) => SetServerSocket(socket, call);
        case ModelComponent(name) => SetModelComponent(name, call);
        case ModelStatusTimeout(seconds) => modelStatusTimeout := seconds;
        case OtherProperty =>
      }
    }

    /** The pad probe on a caps event. */
    method PadProbe(capsWidth: Option<int32>, capsHeight: Option<int32>)
      requires Valid()
      modifies `width, `height, `probing
      ensures Valid()
      ensures View() == old(View()).(element := AfterCaps(old(ElementView()), capsWidth, capsHeight))
    {
      if probing {
        if capsWidth.None? || capsHeight.None? {
          probing := false;
        } else {
          width, height := capsWidth.value, capsHeight.value;
        }
      }
    }

    /** The temporary result of a frame: from the RPC, or the reason why there is none. */
    method Infer(frame: Bytes, rpc: DetectOutcome) returns (result: Result)
      requires inferenceClient != null && inferenceClient.Valid() && serverSocket.Some? && store.heap.Valid()
      modifies inferenceClient, inferenceClient.Objects(), store.heap
      ensures inferenceClient.Valid() && store.heap.Valid()
      ensures fresh(inferenceClient.Objects() - old(inferenceClient.Objects()))
      ensures inferenceClient.View() ==
              if modelComponent.None? then old(inferenceClient.View())
              else AfterDetect(old(inferenceClient.View()), modelComponent.value, frame, width, height)
      ensures fresh(result) && result.Value() == ResultFor(ElementView(), rpc)
      ensures result !in old(store.heap.live) && store.heap.live == old(store.heap.live) + {result}
      ensures store.heap.allocations == old(store.heap.allocations) + 1
      ensures store.heap.deletions == old(store.heap.deletions)
    {
      if modelComponent.Some? {
        DimensionSurvives(width);
        DimensionSurvives(height);
        result := inferenceClient.DetectAnomalies(
          store.heap, modelComponent.value, frame, SizeOfInt(width), SizeOfInt(height), rpc);
      } else {
        result := store.heap.New(NO_MODEL);
      }
    }

    /** Infer, seen from the store: there is now one temporary result. */
    method InferTemporary(frame: Bytes, rpc: DetectOutcome) returns (result: Result)
      requires Valid()
      modifies inferenceClient, inferenceClient.Objects(), store.heap
      ensures inferenceClient.Valid() && store.Valid()
      ensures fresh(inferenceClient.Objects() - old(inferenceClient.Objects()))
      ensures inferenceClient.View() ==
              if modelComponent.None? then old(inferenceClient.View())
              else AfterDetect(old(inferenceClient.View()), modelComponent.value, frame, width, height)
      ensures fresh(result) && result.Value() == ResultFor(ElementView(), rpc)
      ensures store.OneTemporary(result)
      ensures store.heap.allocations == old(store.heap.allocations) + 1
      ensures store.heap.deletions == old(store.heap.deletions)
    {
      hide MetaStore.Consistent;
      result := Infer(frame, rpc);
    }

    /** The chain up to the push: its effect on the client and the store. */
    method Annotate(buffer: nat, rpc: DetectOutcome, metaOk: bool)
      requires Valid() && buffer < |store.pool| == |store.view|
      modifies inferenceClient, inferenceClient.Objects(), store, store.heap
      ensures inferenceClient.Valid() && store.Valid() && store.Settled()
      ensures inferenceClient.View() ==
              if modelComponent.None? then old(inferenceClient.View())
              else AfterDetect(old(inferenceClient.View()), modelComponent.value,
                               old(store.view)[buffer].bytes, width, height)
      ensures store.View() == Attached(store.appends, old(store.View()), buffer, ResultFor(ElementView(), rpc), metaOk)
      ensures |store.pool| == |old(store.pool)|
      ensures forall m :: m in store.metas ==> m in old(store.metas) || fresh(m)
      ensures fresh(inferenceClient.Objects() - old(inferenceClient.Objects()))
    {
      assert store.pool[buffer].bytes == store.view[buffer].bytes by { assert store.Lists(buffer); }
      hide MetaStore.Consistent;
      hide InferenceClient.Valid, AfterDetect, ResultFor;
      var result := InferTemporary(store.pool[buffer].bytes, rpc);
      store.AttachTemporary(buffer, result, metaOk);
    }

    /** gst_lookout_vision_chain: one temporary result, attached, read and deleted, whichever
        way it arose; then the buffer is pushed. */
    method Chain(buffer: nat, rpc: DetectOutcome, metaOk: bool,
                 publish: PublishOutcome, downstream: FlowReturn) returns (flow: FlowReturn)
      requires Valid() && buffer < |store.pool| == |store.view|
      modifies inferenceClient, inferenceClient.Objects(), store, store.heap, peer
      ensures Valid() && flow == downstream
      ensures old(View()).client.Valid()
      ensures View() == AfterFrame(store.appends, old(View()), buffer, rpc, metaOk)
      ensures |store.pool| == |old(store.pool)|
      ensures forall m :: m in store.metas ==> m in old(store.metas) || fresh(m)
      ensures fresh(inferenceClient.Objects() - old(inferenceClient.Objects()))
    {
      hide MetaStore.Valid;
      Annotate(buffer, rpc, metaOk);
      flow := peer.Chain(store, buffer, publish, downstream);
    }

    /** gst_lookout_vision_finalize: the client is destroyed and the strings are dropped. */
    method Finalize()
      requires Valid()
      modifies `inferenceClient, `serverSocket, `modelComponent, inferenceClient.shmFd
      ensures inferenceClient == null && serverSocket.None? && modelComponent.None?
      ensures var client := old(inferenceClient);
              old(client.shmFd != null) ==>
                && old(client.shmFd).live == old(Closed(client.SegmentView())).live
                && !old(client.shmFd).open && !old(client.shmFd).linked
    {
      inferenceClient.Destroy();
      inferenceClient := null;
      serverSocket := None;
      modelComponent := None;
    }
  }
}
