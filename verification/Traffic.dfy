/** Every RPC and every element error of a run, told from each event and the state it meets;
    modules History and Streams tell that state from the trace. */
module Traffic {
  import opened Basics
  import opened AgentLifecycle
  import opened Client
  import opened Protocol
  import opened History
  import opened Streams

  /** The RPCs of one event: those of the StartModel call it makes; or, for a frame with a
      model in place, one DetectAnomalies on the element's socket with its dimensions, whose
      image is the frame itself however it travels; otherwise none. */
  ghost function RpcsOf(cfg: Config, s: State, e: Event): seq<Rpc> {
    var request := StartRequest(s, e);
    if request.Some? then
      StartTraffic(if e.SetSocket? then e.socket else s.element.socket, request.value, e.call, s.element.timeout)
    else if Sends(s, e) && s.element.model.Some? then
      var frame := s.meta.pool[e.buffer].bytes;
      var data := if cfg.shared then SharedMemoryHandle(SHM_NAME, 0, |frame|) else ByteData(frame);
      [DetectAnomaliesRpc(s.element.socket, s.element.model.value,
                          Bitmap(s.element.width, s.element.height, data), frame)]
    else []
  }

  /** An error is posted at an event whose StartModel call fails. */
  ghost function ErrorAt(s: State, e: Event): Option<string> {
    var request := StartRequest(s, e);
    if request.Some? && !Starts(s.element, e.call) then request else None
  }

  function Flatten<T>(s: seq<seq<T>>): seq<T> {
    if s == [] then [] else Flatten(s[..|s| - 1]) + s[|s| - 1]
  }

  lemma FlattenGrows<T>(s: seq<seq<T>>, x: seq<T>)
    ensures Flatten(s + [x]) == Flatten(s) + x
  {
    assert (s + [x])[..|s|] == s;
  }

  ghost function Rpcs(cfg: Config, t: seq<Event>): seq<seq<Rpc>> {
    seq(|t|, i requires 0 <= i < |t| => RpcsOf(cfg, Before(cfg, t, i), t[i]))
  }

  ghost function Errors(cfg: Config, t: seq<Event>): seq<Option<string>> {
    seq(|t|, i requires 0 <= i < |t| => ErrorAt(Before(cfg, t, i), t[i]))
  }

  lemma RpcsGrow(cfg: Config, t: seq<Event>)
    requires t != []
    ensures var p, e := t[..|t| - 1], t[|t| - 1];
            && Rpcs(cfg, t) == Rpcs(cfg, p) + [RpcsOf(cfg, Run(cfg, p), e)]
            && Errors(cfg, t) == Errors(cfg, p) + [ErrorAt(Run(cfg, p), e)]
  {
    hide Step;
    hide RpcsOf;
    hide ErrorAt;
    BeforeInPrefix(cfg, t, |t| - 1);
  }

  lemma StepTraffic(cfg: Config, s: State, e: Event)
    requires s.client.Valid() && s.client.socket == s.element.socket && (cfg.shared <==> s.client.segment.Some?)
    ensures var u := Step(cfg, s, e);
            && u.client.wire == s.client.wire + RpcsOf(cfg, s, e)
            && u.element.errors == s.element.errors + (if ErrorAt(s, e).Some? then 1 else 0)
            && (cfg.shared <==> u.client.segment.Some?)
  {
    hide StartTraffic;
    if Sends(s, e) && s.element.model.Some? {
      AgentSeesFrame(s.client, s.element.model.value, s.meta.pool[e.buffer].bytes, s.element.width, s.element.height);
    }
  }

  /** Over any trace the RPCs attempted are exactly those of its events, in order: nothing
      else is sent, nothing is sent twice, and nothing is left out. The errors posted are as
      many as the StartModel calls that fail. */
  lemma {:induction false} TrafficHistory(cfg: Config, t: seq<Event>)
    ensures var s := Run(cfg, t);
            && s.client.wire == Flatten(Rpcs(cfg, t))
            && s.element.errors == |Collect(Errors(cfg, t))|
            && (cfg.shared <==> s.client.segment.Some?)
  {
    hide Step;
    if t != [] {
      var p, e := t[..|t| - 1], t[|t| - 1];
      var s := Run(cfg, p);
      TrafficHistory(cfg, p);
      SettingsHistory(cfg, p);
      StepTraffic(cfg, s, e);
      RpcsGrow(cfg, t);
      FlattenGrows(Rpcs(cfg, p), RpcsOf(cfg, s, e));
      CollectGrows(Errors(cfg, p), ErrorAt(s, e));
    }
  }

  /** r is the request event i owes its frame, told from the trace: to the socket last set or
      the default one, for the model last started, with the dimensions of the last complete
      caps event before the first incomplete one, and with the bytes the buffer arrived with
      as its image, sent inline or behind a handle on the segment. */
  ghost predicate IsFrameRequest(cfg: Config, t: seq<Event>, i: nat, r: Rpc)
    requires i < |t|
  {
    && r.DetectAnomaliesRpc?
    && IsLatest(Told(t[..i], SocketIn), "unix:///tmp/aws.iot.lookoutvision.EdgeAgent.sock", r.socket)
    && IsLatest(ModelsStarted(cfg, t[..i]), None, Some(r.model))
    && IsLatest(DimensionsSeen(t[..i]), (0, 0), (r.bitmap.width, r.bitmap.height))
    && FrameIn(t[i], Arrivals(t[..i])) == Some(r.image)
    && r.bitmap.data == if cfg.shared then SharedMemoryHandle("/gstreamer-lookoutvision-bitmap", 0, |r.image|)
                        else ByteData(r.image)
  }

  /** A frame makes one request if its buffer has arrived and some earlier set of a model had
      a successful StartModel, and then the one it is owed, which stays in the log;
      otherwise it makes none. */
  lemma FrameRequest(cfg: Config, t: seq<Event>, i: nat)
    requires i < |t| && t[i].Frame?
    ensures var log, logAfter := Before(cfg, t, i).client.wire, Before(cfg, t, i + 1).client.wire;
            && logAfter <= Run(cfg, t).client.wire
            && if ModelSetBefore(cfg, t, i) && t[i].buffer < |Arrivals(t[..i])|
               then |logAfter| == |log| + 1 && log <= logAfter && IsFrameRequest(cfg, t, i, logAfter[|log|])
               else logAfter == log
  {
    hide Step;
    var p := t[..i];
    StepAt(cfg, t, i);
    WireExtends(cfg, t, i + 1);
    SettingsHistory(cfg, p);
    TrafficHistory(cfg, p);
    StepTraffic(cfg, Run(cfg, p), t[i]);
    ModelInPlace(cfg, t, i);
    ModelHistory(cfg, p);
    DimensionsHistory(cfg, p);
    BytesHistory(cfg, p);
    hide IsLatest;
    hide ModelSetBefore;
  }

  /** What a StartModel call for `model` on `socket` with `timeout` does, in the program's own
      terms: one start request and its polls; an error unless some poll in time says RUNNING;
      and a new model in place only if the call was made to set it and succeeded. */
  ghost predicate CallMoves(s: State, e: Event, socket: string, model: string, timeout: nat, u: State)
    requires e.SetSocket? || e.SetModel?
  {
    var ok := SomePollSays(e.call, RUNNING, timeout);
    && s.client.wire <= u.client.wire
    && IsStartLog(u.client.wire[|s.client.wire|..], socket, model, e.call, timeout)
    && u.element.errors == s.element.errors + (if ok then 0 else 1)
    && u.element.model == if e.SetModel? && ok then Some(e.name) else s.element.model
  }

  lemma StepCall(cfg: Config, s: State, e: Event)
    requires s.client.Valid() && s.client.socket == s.element.socket
    requires e.SetModel? || (e.SetSocket? && s.element.model.Some?)
    ensures CallMoves(s, e, if e.SetSocket? then e.socket else s.element.socket,
                      if e.SetModel? then e.name else s.element.model.value, s.element.timeout, Step(cfg, s, e))
  {
    var socket := if e.SetSocket? then e.socket else s.element.socket;
    var model := if e.SetModel? then e.name else s.element.model.value;
    StartTrafficIsLog(socket, model, e.call, s.element.timeout);
    hide SomePollSays;
    hide IsStartLog;
    hide StartTraffic;
    var traffic := StartTraffic(socket, model, e.call, s.element.timeout);
    assert Step(cfg, s, e).client.wire == s.client.wire + traffic;
    assert (s.client.wire + traffic)[|s.client.wire|..] == traffic;
  }

  /** A StartModel call, told from the trace. Setting a model calls StartModel for it, and
      setting a socket does so for the model last started, if there is one. The call goes to
      the socket last set, this event included, or to the default one, with the timeout last
      set, or 180 seconds. Without a model, setting a socket calls nothing and posts nothing. */
  lemma StartCall(cfg: Config, t: seq<Event>, i: nat) returns (socket: string, model: string, timeout: nat)
    requires i < |t| && (t[i].SetSocket? || t[i].SetModel?)
    ensures IsLatest(Told(t[..i + 1], SocketIn), "unix:///tmp/aws.iot.lookoutvision.EdgeAgent.sock", socket)
    ensures IsLatest(Told(t[..i], TimeoutIn), 180, timeout)
    ensures t[i].SetModel? ==> model == t[i].name
    ensures t[i].SetSocket? && ModelSetBefore(cfg, t, i) ==> IsLatest(ModelsStarted(cfg, t[..i]), None, Some(model))
    ensures Before(cfg, t, i + 1).client.wire <= Run(cfg, t).client.wire
    ensures var s, u := Before(cfg, t, i), Before(cfg, t, i + 1);
            if t[i].SetModel? || ModelSetBefore(cfg, t, i) then CallMoves(s, t[i], socket, model, timeout, u)
            else u.client.wire == s.client.wire && u.element.errors == s.element.errors && u.element.model.None?
  {
    hide Step;
    var s := Before(cfg, t, i);
    WireExtends(cfg, t, i + 1);
    SettingsHistory(cfg, t[..i]);
    SettingsHistory(cfg, t[..i + 1]);
    ModelHistory(cfg, t[..i]);
    ModelInPlace(cfg, t, i);
    hide IsLatest;
    hide ModelSetBefore;
    StepAt(cfg, t, i);
    StepSettings(cfg, s, t[i]);
    timeout := s.element.timeout;
    socket := Before(cfg, t, i + 1).element.socket;
    model := if t[i].SetModel? then t[i].name else if s.element.model.Some? then s.element.model.value else "";
    if t[i].SetModel? || s.element.model.Some? {
      StepCall(cfg, s, t[i]);
    } else {
      StepStart(cfg, s, t[i]);
      StepModel(cfg, s, t[i]);
    }
    hide CallMoves;
  }
}
