/** The whole system as one transition system on values: the element with its inference
    client, the metadata on buffers, and the publisher downstream. A trace is any
    interleaving of property sets, caps events, frames and metadata traffic; whatever the
    environment decides is part of the event. */
module Protocol {
  import opened Basics
  import opened AgentLifecycle
  import opened Polling
  import opened SharedMemory
  import opened Results
  import opened Metadata
  import opened Client

  const DEFAULT_SOCKET := "unix:///tmp/aws.iot.lookoutvision.EdgeAgent.sock"
  const DEFAULT_TIMEOUT: nat := 180
  const DEFAULT_TOPIC := "lookoutvision/anomalydetection/result"
  const NO_MODEL := ResultValue(false, 0.0, ResultStatus.FAILED, "No value set for model-component")

  /** A call that keeps the assumptions on clock, sleep and agent. */
  type ValidCall = c: Call | c.Valid() witness IdleCall()

  datatype PublishOutcome = PublishOk | PublishFailed

  /** What pushing a buffer to the next element returns. */
  datatype FlowReturn = FlowOk | FlowFlushing | FlowEos | FlowError

  datatype Event =
    // properties of the inference element and of the publisher
    | SetSocket(socket: string, call: ValidCall)
    | SetModel(name: string, call: ValidCall)
    | SetTimeout(seconds: nat)
    | SetTopic(topic: string)
    | UnknownProperty
    // events on the sink pad
    | Caps(width: Option<int32>, height: Option<int32>)
    | OtherPadEvent
    // buffers: allocated upstream, given a result by another producer, copied, freed
    | Arrive(bytes: Bytes)
    | Attach(buffer: nat, value: ResultValue, metaOk: bool)
    | CopyMeta(dest: nat, buffer: nat, pos: nat, metaOk: bool)
    | FreeMeta(buffer: nat, pos: nat)
    // a buffer enters the inference element
    | Frame(buffer: nat, rpc: DetectOutcome, metaOk: bool, publish: PublishOutcome, flow: FlowReturn)

  /** The build, the segment left by an earlier process, and where GStreamer adds metas. */
  datatype Config = Config(shared: bool, previous: Bytes, appends: bool)

  datatype ElementState = ElementState(
    socket: string, model: Option<string>, timeout: nat,
    width: int32, height: int32, probing: bool, errors: nat)

  /** One attempted publication. The wording around the two values is left out. */
  datatype Publication = Publication(topic: string, isAnomalous: bool, confidence: real)

  /** The publisher's topic, what it tried to publish, and the buffers it pushed on. */
  datatype SinkState = SinkState(topic: string, published: seq<Publication>, delivered: seq<BufferView>)

  datatype State = State(element: ElementState, client: ClientState, meta: MetaState, sink: SinkState)

  function Initial(cfg: Config): State {
    State(ElementState(DEFAULT_SOCKET, None, DEFAULT_TIMEOUT, 0, 0, true, 0),
          ClientState(DEFAULT_SOCKET, if cfg.shared then Some(Opened(cfg.previous)) else None, []),
          MetaState([], [], 0, 0),
          SinkState(DEFAULT_TOPIC, [], []))
  }

  // ---------------------------------------------------------------- one event

  /** Does StartModel succeed under the timeout in force? */
  ghost predicate Starts(e: ElementState, call: ValidCall) {
    Found(call, RUNNING, e.timeout)
  }

  /** StartModel on the current channel; failure posts an element error. */
  ghost function AfterStartModel(s: State, model: string, call: ValidCall): State {
    s.(client := AfterStart(s.client, model, call, s.element.timeout),
       element := s.element.(errors := s.element.errors + if Starts(s.element, call) then 0 else 1))
  }

  ghost function AfterSetSocket(s: State, socket: string, call: ValidCall): State {
    var t := s.(element := s.element.(socket := socket), client := s.client.(socket := socket));
    if t.element.model.None? then t else AfterStartModel(t, t.element.model.value, call)
  }

  ghost function AfterSetModel(s: State, name: string, call: ValidCall): State {
    var t := AfterStartModel(s, name, call);
    if Starts(s.element, call) then t.(element := t.element.(model := Some(name))) else t
  }

  /** The pad probe: a caps event without one of the dimensions removes it. */
  function AfterCaps(e: ElementState, width: Option<int32>, height: Option<int32>): ElementState {
    if !e.probing then e
    else if width.None? || height.None? then e.(probing := false)
    else e.(width := width.value, height := height.value)
  }

  /** The result the element attaches to a frame. */
  function ResultFor(e: ElementState, rpc: DetectOutcome): ResultValue {
    if e.model.None? then NO_MODEL else ResultOf(rpc)
  }

  /** Reading a buffer downstream: a SUCCESSFUL first meta is published. */
  function PublicationOf(topic: string, b: BufferView): Option<Publication> {
    if b.metas != [] && b.metas[0].value.status.SUCCESSFUL?
    then Some(Publication(topic, b.metas[0].value.isAnomalous, b.metas[0].value.confidence))
    else None
  }

  function AfterPush(sink: SinkState, b: BufferView): SinkState {
    var p := PublicationOf(sink.topic, b);
    sink.(published := sink.published + (if p.Some? then [p.value] else []),
          delivered := sink.delivered + [b])
  }

  ghost function AfterFrame(appends: bool, s: State, buffer: nat, rpc: DetectOutcome, metaOk: bool): State
    requires buffer < |s.meta.pool| && s.client.Valid()
  {
    var e := s.element;
    var client := if e.model.None? then s.client
                  else AfterDetect(s.client, e.model.value, s.meta.pool[buffer].bytes, e.width, e.height);
    var meta := Attached(appends, s.meta, buffer, ResultFor(e, rpc), metaOk);
    State(e, client, meta, AfterPush(s.sink, meta.pool[buffer]))
  }

  /** One event, on any state. Events that name a buffer not in the pool do nothing. */
  ghost function Step(cfg: Config, s: State, e: Event): State
    requires s.client.Valid()
  {
    match e
    case SetSocket(socket, call) => AfterSetSocket(s, socket, call)
    case SetModel(name, call) => AfterSetModel(s, name, call)
    case SetTimeout(seconds) => s.(element := s.element.(timeout := seconds))
    case SetTopic(topic) => s.(sink := s.sink.(topic := topic))
    case UnknownProperty => s
    case Caps(width, height) => s.(element := AfterCaps(s.element, width, height))
    case OtherPadEvent => s
    case Arrive(bytes) => s.(meta := Arrived(s.meta, bytes))
    case Attach(b, value, metaOk) =>
      if b < |s.meta.pool| then s.(meta := Attached(cfg.appends, s.meta, b, value, metaOk)) else s
    case CopyMeta(dest, b, pos, metaOk) => s.(meta := Copied(cfg.appends, s.meta, dest, b, pos, metaOk))
    case FreeMeta(b, pos) => s.(meta := Freed(s.meta, b, pos))
    case Frame(b, rpc, metaOk, _, _) =>
      if b < |s.meta.pool| then AfterFrame(cfg.appends, s, b, rpc, metaOk) else s
  }

  lemma StepValid(cfg: Config, s: State, e: Event)
    requires s.client.Valid()
    ensures Step(cfg, s, e).client.Valid()
  {
    if e.Frame? && e.buffer < |s.meta.pool| && s.element.model.Some? {
      AgentSeesFrame(s.client, s.element.model.value, s.meta.pool[e.buffer].bytes, s.element.width, s.element.height);
    }
  }

  /** The state after a trace. */
  ghost function Run(cfg: Config, t: seq<Event>): (s: State)
    ensures s.client.Valid()
  {
    if t == [] then Initial(cfg)
    else
      var s := Run(cfg, t[..|t| - 1]);
      StepValid(cfg, s, t[|t| - 1]);
      Step(cfg, s, t[|t| - 1])
  }

  /** The state before the i-th event. */
  ghost function Before(cfg: Config, t: seq<Event>, i: nat): (s: State)
    requires i <= |t|
    ensures s.client.Valid()
  {
    Run(cfg, t[..i])
  }

  lemma StepAt(cfg: Config, t: seq<Event>, i: nat)
    requires i < |t|
    ensures Before(cfg, t, i + 1) == Step(cfg, Before(cfg, t, i), t[i])
  {
    assert t[..i + 1][..i] == t[..i];
  }

  /** What happened up to an event does not depend on what follows. */
  lemma BeforeInPrefix(cfg: Config, t: seq<Event>, n: nat)
    requires n <= |t|
    ensures forall i: nat :: i <= n ==> Before(cfg, t[..n], i) == Before(cfg, t, i)
  {
    hide Step;
    forall i: nat | i <= n ensures Before(cfg, t[..n], i) == Before(cfg, t, i) {
      assert t[..n][..i] == t[..i];
    }
  }
}
