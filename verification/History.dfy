/** The element's configuration after any trace, told from its events. */
module History {
  import opened Basics
  import opened AgentLifecycle
  import opened Polling
  import opened Metadata
  import opened Client
  import opened Protocol

  // ---------------------------------------------------------------- the latest of a kind

  /** i is the last position that holds a value. */
  ghost predicate LastSome<T>(s: seq<Option<T>>, i: nat) {
    i < |s| && s[i].Some? && forall j :: i < j < |s| ==> s[j].None?
  }

  /** x is the last value in s, or `initial` when s holds none. */
  ghost predicate IsLatest<T>(s: seq<Option<T>>, initial: T, x: T) {
    && (forall i: nat :: LastSome(s, i) ==> x == s[i].value)
    && ((forall j :: 0 <= j < |s| ==> s[j].None?) ==> x == initial)
  }

  lemma LatestGrows<T>(s: seq<Option<T>>, initial: T, x: T, o: Option<T>)
    requires IsLatest(s, initial, x)
    ensures IsLatest(s + [o], initial, if o.Some? then o.value else x)
  {
    var r := s + [o];
    if o.None? {
      assert r[|s|].None?;
      forall i: nat | LastSome(r, i) ensures LastSome(s, i) {
        assert r[i].Some?;
        assert forall j :: i < j < |s| ==> s[j] == r[j];
      }
      if forall j :: 0 <= j < |r| ==> r[j].None? {
        assert forall j :: 0 <= j < |s| ==> s[j] == r[j];
      }
    } else {
      forall i: nat | LastSome(r, i) ensures i == |s| {
        assert r[|s|].Some?;
      }
    }
  }

  // ---------------------------------------------------------------- settings

  function SocketIn(e: Event): Option<string> {
    if e.SetSocket? then Some(e.socket) else None
  }

  function TimeoutIn(e: Event): Option<nat> {
    if e.SetTimeout? then Some(e.seconds) else None
  }

  function TopicIn(e: Event): Option<string> {
    if e.SetTopic? then Some(e.topic) else None
  }

  function Told<T>(t: seq<Event>, f: Event -> Option<T>): seq<Option<T>> {
    seq(|t|, i requires 0 <= i < |t| => f(t[i]))
  }

  lemma ToldGrows<T>(t: seq<Event>, f: Event -> Option<T>)
    requires t != []
    ensures Told(t, f) == Told(t[..|t| - 1], f) + [f(t[|t| - 1])]
  {}

  lemma StepSettings(cfg: Config, s: State, e: Event)
    requires s.client.Valid() && s.client.socket == s.element.socket
    ensures var u := Step(cfg, s, e);
            && u.client.socket == u.element.socket
            && u.element.socket == (if SocketIn(e).Some? then SocketIn(e).value else s.element.socket)
            && u.element.timeout == (if TimeoutIn(e).Some? then TimeoutIn(e).value else s.element.timeout)
            && u.sink.topic == (if TopicIn(e).Some? then TopicIn(e).value else s.sink.topic)
  {}

  /** The element's socket, its timeout and the publisher's topic are the ones last set, or
      the defaults, and the client always talks to the element's socket. */
  lemma {:induction false} SettingsHistory(cfg: Config, t: seq<Event>)
    ensures var s := Run(cfg, t);
            && s.client.socket == s.element.socket
            && IsLatest(Told(t, SocketIn), DEFAULT_SOCKET, s.element.socket)
            && IsLatest(Told(t, TimeoutIn), DEFAULT_TIMEOUT, s.element.timeout)
            && IsLatest(Told(t, TopicIn), DEFAULT_TOPIC, s.sink.topic)
  {
    if t != [] {
      var p, e := t[..|t| - 1], t[|t| - 1];
      SettingsHistory(cfg, p);
      var s := Run(cfg, p);
      StepSettings(cfg, s, e);
      ToldGrows(t, SocketIn);
      ToldGrows(t, TimeoutIn);
      ToldGrows(t, TopicIn);
      LatestGrows(Told(p, SocketIn), DEFAULT_SOCKET, s.element.socket, SocketIn(e));
      LatestGrows(Told(p, TimeoutIn), DEFAULT_TIMEOUT, s.element.timeout, TimeoutIn(e));
      LatestGrows(Told(p, TopicIn), DEFAULT_TOPIC, s.sink.topic, TopicIn(e));
    }
  }

  /** The name set by event i, if it sets a model and the StartModel it makes succeeds under
      the timeout then in force. */
  ghost function ModelStartedBy(s: State, e: Event): Option<string> {
    if e.SetModel? && Starts(s.element, e.call) then Some(e.name) else None
  }

  /** The model started by each event of a trace. */
  ghost function ModelsStarted(cfg: Config, t: seq<Event>): seq<Option<Option<string>>> {
    seq(|t|, i requires 0 <= i < |t| =>
      var m := ModelStartedBy(Before(cfg, t, i), t[i]); if m.Some? then Some(m) else None)
  }

  lemma ModelsStartedGrows(cfg: Config, t: seq<Event>)
    requires t != []
    ensures var n := |t| - 1;
            var m := ModelStartedBy(Run(cfg, t[..n]), t[n]);
            ModelsStarted(cfg, t) == ModelsStarted(cfg, t[..n]) + [if m.Some? then Some(m) else None]
  {
    hide Step;
    BeforeInPrefix(cfg, t, |t| - 1);
  }

  lemma StepModel(cfg: Config, s: State, e: Event)
    requires s.client.Valid()
    ensures var m := ModelStartedBy(s, e);
            Step(cfg, s, e).element.model == if m.Some? then m else s.element.model
  {}

  /** Some event before the i-th set a model with a successful StartModel. */
  ghost predicate ModelSetBefore(cfg: Config, t: seq<Event>, i: nat)
    requires i <= |t|
  {
    exists j: nat :: j < i && ModelStartedBy(Before(cfg, t, j), t[j]).Some?
  }

  /** A model is in place exactly if some set of a model had a successful StartModel. */
  lemma {:induction false} ModelInPlace(cfg: Config, t: seq<Event>, i: nat)
    requires i <= |t|
    ensures Before(cfg, t, i).element.model.Some? <==> ModelSetBefore(cfg, t, i)
  {
    hide Step;
    if i > 0 {
      ModelInPlace(cfg, t, i - 1);
      StepAt(cfg, t, i - 1);
      StepModel(cfg, Before(cfg, t, i - 1), t[i - 1]);
    }
  }

  /** model_component is the last name whose set had a successful StartModel, NULL if none. */
  lemma {:induction false} ModelHistory(cfg: Config, t: seq<Event>)
    ensures IsLatest(ModelsStarted(cfg, t), None, Run(cfg, t).element.model)
  {
    if t != [] {
      var p, e := t[..|t| - 1], t[|t| - 1];
      ModelHistory(cfg, p);
      var s := Run(cfg, p);
      var m := ModelStartedBy(s, e);
      StepModel(cfg, s, e);
      ModelsStartedGrows(cfg, t);
      LatestGrows(ModelsStarted(cfg, p), None, s.element.model, if m.Some? then Some(m) else None);
    }
  }

  // ---------------------------------------------------------------- StartModel calls

  /** The model a StartModel call at event e asks for, if the event makes one. */
  function StartRequest(s: State, e: Event): Option<string> {
    match e
    case SetSocket(_, _) => s.element.model
    case SetModel(name, _) => Some(name)
    case _ => None
  }

  predicate BelongsToStart(r: Rpc) {
    r.StartModelRpc? || r.DescribeModelRpc?
  }

  /** What event e, which leads from s to u, has to do with StartModel. If it makes no call,
      it sends nothing of the kind, nothing at all unless it is a frame, and posts no error.
      If it makes one, it sends that call's traffic, to the socket then in force with the
      timeout then in force, and posts an error exactly if the call fails. */
  ghost predicate StartsProperly(s: State, e: Event, u: State) {
    var request := StartRequest(s, e);
    && s.client.wire <= u.client.wire
    && (request.None? ==>
          && u.element.errors == s.element.errors
          && (!e.Frame? ==> u.client.wire == s.client.wire)
          && forall j :: |s.client.wire| <= j < |u.client.wire| ==> !BelongsToStart(u.client.wire[j]))
    && (request.Some? ==>
          && u.client.wire == s.client.wire +
               StartTraffic(u.element.socket, request.value, e.call, s.element.timeout)
          && u.element.errors == s.element.errors + (if Starts(s.element, e.call) then 0 else 1))
  }

  lemma StepStart(cfg: Config, s: State, e: Event)
    requires s.client.Valid() && s.client.socket == s.element.socket
    ensures StartsProperly(s, e, Step(cfg, s, e))
  {
    hide StartTraffic;
    hide Attached;
    hide Copied;
    hide Freed;
  }

  /** A StartModel call is made exactly at a model set and at a socket set with a model in
      place, and properly: one start request, at most ceil(timeout / 5) polls. */
  lemma StartModelAt(cfg: Config, t: seq<Event>, i: nat)
    requires i < |t|
    ensures var s, u := Before(cfg, t, i), Before(cfg, t, i + 1);
            && StartsProperly(s, t[i], u)
            && (StartRequest(s, t[i]).Some? <==> t[i].SetModel? || (t[i].SetSocket? && s.element.model.Some?))
            && (StartRequest(s, t[i]).Some? ==>
                  |u.client.wire| - |s.client.wire| <= 1 + (s.element.timeout + 4) / 5)
  {
    hide Step;
    StepAt(cfg, t, i);
    var s := Before(cfg, t, i);
    SettingsHistory(cfg, t[..i]);
    StepStart(cfg, s, t[i]);
    if StartRequest(s, t[i]).Some? {
      PollsBounded(t[i].call, RUNNING, s.element.timeout);
    }
  }

  // ---------------------------------------------------------------- confirmation

  /** The position of the last socket set (0 if there is none). */
  function Epoch(t: seq<Event>): (e: nat)
    ensures e <= |t|
    ensures e > 0 ==> e < |t| && t[e].SetSocket?
    ensures forall j :: e < j < |t| ==> !t[j].SetSocket?
  {
    if t == [] then 0
    else if t[|t| - 1].SetSocket? then |t| - 1
    else Epoch(t[..|t| - 1])
  }

  lemma WireGrows(cfg: Config, s: State, e: Event)
    requires s.client.Valid()
    ensures s.client.wire <= Step(cfg, s, e).client.wire
  {}

  lemma {:induction false} WireExtends(cfg: Config, t: seq<Event>, i: nat)
    requires i <= |t|
    ensures Before(cfg, t, i).client.wire <= Run(cfg, t).client.wire
  {
    if i < |t| {
      var n := |t| - 1;
      WireExtends(cfg, t[..n], i);
      assert t[..n][..i] == t[..i];
      WireGrows(cfg, Run(cfg, t[..n]), t[n]);
    } else {
      assert t[..i] == t;
    }
  }

  /** A DescribeModel on the current socket, made since it was set, said RUNNING. */
  ghost predicate SeenRunning(cfg: Config, t: seq<Event>, model: string) {
    var s := Run(cfg, t);
    exists j: nat :: |Before(cfg, t, Epoch(t)).client.wire| <= j < |s.client.wire|
      && s.client.wire[j] == DescribeModelRpc(s.element.socket, model, Some(RUNNING))
  }

  /** The last socket set tried to start the model that was and is in place, failed, and
      posted an error. */
  ghost predicate RestartFailed(cfg: Config, t: seq<Event>, model: string) {
    var e := Epoch(t);
    && e < |t| && t[e].SetSocket?
    && Before(cfg, t, e).element.model == Some(model)
    && !Starts(Before(cfg, t, e).element, t[e].call)
    && Before(cfg, t, e + 1).element.errors == Before(cfg, t, e).element.errors + 1
  }

  lemma SeenRunningPersists(cfg: Config, t: seq<Event>, model: string)
    requires t != [] && !t[|t| - 1].SetSocket? && SeenRunning(cfg, t[..|t| - 1], model)
    ensures SeenRunning(cfg, t, model)
  {
    var n := |t| - 1;
    var p := t[..n];
    var e := Epoch(p);
    assert p[..e] == t[..e];
    WireGrows(cfg, Run(cfg, p), t[n]);
    SettingsHistory(cfg, p);
    StepSettings(cfg, Run(cfg, p), t[n]);
    hide Step;
    hide IsLatest;
    var j: nat :| |Before(cfg, p, e).client.wire| <= j < |Run(cfg, p).client.wire|
      && Run(cfg, p).client.wire[j] == DescribeModelRpc(Run(cfg, p).element.socket, model, Some(RUNNING));
    assert Run(cfg, t).client.wire[j] == Run(cfg, p).client.wire[j];
  }

  lemma RestartFailedPersists(cfg: Config, t: seq<Event>, model: string)
    requires t != [] && !t[|t| - 1].SetSocket? && RestartFailed(cfg, t[..|t| - 1], model)
    ensures RestartFailed(cfg, t, model)
  {
    BeforeInPrefix(cfg, t, |t| - 1);
  }

  /** The last event made a successful StartModel for `model` on the current socket. */
  lemma JustStarted(cfg: Config, t: seq<Event>, model: string)
    requires t != []
    requires var s, e := Run(cfg, t[..|t| - 1]), t[|t| - 1];
             (e.SetSocket? || e.SetModel?) && StartRequest(s, e) == Some(model) && Starts(s.element, e.call)
    ensures SeenRunning(cfg, t, model)
  {
    var n := |t| - 1;
    var s := Run(cfg, t[..n]);
    assert t[..n + 1] == t;
    StartModelAt(cfg, t, n);
    StartTrafficTellsOutcome(Run(cfg, t).element.socket, model, t[n].call, s.element.timeout);
    WireExtends(cfg, t[..n], Epoch(t));
    assert t[..n][..Epoch(t)] == t[..Epoch(t)];
    var w := Run(cfg, t).client.wire;
    assert w[|w| - 1] == DescribeModelRpc(Run(cfg, t).element.socket, model, Some(RUNNING));
  }

  /** Whenever a model is in place, either it was seen RUNNING at the current socket since
      that socket was set, or the restart made by the last socket set failed and posted an
      error. Model sets that fail in between change nothing of this. */
  lemma {:induction false} ModelConfirmed(cfg: Config, t: seq<Event>)
    requires Run(cfg, t).element.model.Some?
    ensures var model := Run(cfg, t).element.model.value;
            SeenRunning(cfg, t, model) || RestartFailed(cfg, t, model)
  {
    hide Step;
    if t != [] {
      var n := |t| - 1;
      var s, e := Run(cfg, t[..n]), t[n];
      var model := Run(cfg, t).element.model.value;
      StepModel(cfg, s, e);
      if (e.SetSocket? || e.SetModel?) && Starts(s.element, e.call) {
        JustStarted(cfg, t, model);
      } else if e.SetSocket? {
        StartModelAt(cfg, t, n);
      } else {
        ModelConfirmed(cfg, t[..n]);
        if SeenRunning(cfg, t[..n], model) {
          SeenRunningPersists(cfg, t, model);
        } else {
          RestartFailedPersists(cfg, t, model);
        }
      }
    }
  }

  /** The event during which entry j of the log was made. */
  lemma {:induction false} WireOrigin(cfg: Config, t: seq<Event>, low: nat, j: nat) returns (i: nat)
    requires low <= |t| && |Before(cfg, t, low).client.wire| <= j < |Run(cfg, t).client.wire|
    ensures low <= i < |t|
    ensures |Before(cfg, t, i).client.wire| <= j < |Before(cfg, t, i + 1).client.wire|
    ensures Before(cfg, t, i + 1).client.wire[j] == Run(cfg, t).client.wire[j]
  {
    hide Step;
    var n := |t| - 1;
    assert t[..|t|] == t;
    if j < |Before(cfg, t, n).client.wire| {
      BeforeInPrefix(cfg, t, n);
      assert t[..n][..n] == t[..n];
      i := WireOrigin(cfg, t[..n], low, j);
      WireExtends(cfg, t, n);
    } else {
      i := n;
    }
  }

  /** Only a StartModel call makes DescribeModel RPCs. */
  lemma OnlyStartsDescribe(cfg: Config, s: State, e: Event, j: nat)
    requires s.client.Valid() && |s.client.wire| <= j < |Step(cfg, s, e).client.wire|
    requires Step(cfg, s, e).client.wire[j].DescribeModelRpc?
    ensures (e.SetSocket? || e.SetModel?) && StartRequest(s, e).Some?
  {
    hide StartTraffic;
  }

  /** A poll that says RUNNING is one of those made, and sampled the agent's status. */
  lemma PollIsReal(socket: string, model: string, r: Rpc, c: Call, timeout: int, j: nat) returns (k: nat)
    requires c.Valid() && j < |StartTraffic(socket, model, c, timeout)|
    requires StartTraffic(socket, model, c, timeout)[j] == r
    requires r.DescribeModelRpc? && r.answer == Some(RUNNING)
    ensures r.socket == socket && r.model == model && k < Polls(c, RUNNING, timeout)
    ensures c.agent.status(c.sample(k)) == RUNNING && c.start <= c.agent.at(c.sample(k)) <= c.done(k)
  {
    k := j - 1;
    PollsProfile(c, RUNNING, timeout);
    ChecksAfterStart(c, k);
    assert c.Round(k);
  }

  /** A model seen RUNNING really ran: some poll made by a StartModel call for it, on the
      current socket since that was set, sampled the agent's status RUNNING, at an instant
      inside that call. */
  lemma SeenRunningIsReal(cfg: Config, t: seq<Event>, model: string) returns (i: nat, k: nat)
    requires SeenRunning(cfg, t, model)
    ensures Epoch(t) <= i < |t| && (t[i].SetSocket? || t[i].SetModel?)
    ensures StartRequest(Before(cfg, t, i), t[i]) == Some(model)
    ensures Before(cfg, t, i + 1).element.socket == Run(cfg, t).element.socket
    ensures var c: Call := t[i].call;
            && k < Polls(c, RUNNING, Before(cfg, t, i).element.timeout)
            && c.agent.status(c.sample(k)) == RUNNING
            && c.start <= c.agent.at(c.sample(k)) <= c.done(k)
  {
    hide Step;
    hide StartTraffic;
    var s := Run(cfg, t);
    var j: nat :| |Before(cfg, t, Epoch(t)).client.wire| <= j < |s.client.wire|
      && s.client.wire[j] == DescribeModelRpc(s.element.socket, model, Some(RUNNING));
    i := WireOrigin(cfg, t, Epoch(t), j);
    StepAt(cfg, t, i);
    var b := Before(cfg, t, i);
    OnlyStartsDescribe(cfg, b, t[i], j);
    StartModelAt(cfg, t, i);
    k := PollIsReal(Before(cfg, t, i + 1).element.socket, StartRequest(b, t[i]).value, s.client.wire[j],
                    t[i].call, b.element.timeout, j - |b.client.wire|);
  }

  // ---------------------------------------------------------------- dimensions

  predicate FullCaps(e: Event) {
    e.Caps? && e.width.Some? && e.height.Some?
  }

  predicate PartialCaps(e: Event) {
    e.Caps? && !FullCaps(e)
  }

  /** The dimensions seen by the probe at event i: those of a complete caps event that comes
      before any incomplete one. */
  function DimensionsSeen(t: seq<Event>): seq<Option<(int32, int32)>> {
    seq(|t|, i requires 0 <= i < |t| =>
      if FullCaps(t[i]) && NoPartialCaps(t[..i]) then Some((t[i].width.value, t[i].height.value)) else None)
  }

  predicate NoPartialCaps(t: seq<Event>) {
    forall j :: 0 <= j < |t| ==> !PartialCaps(t[j])
  }

  lemma DimensionsSeenGrows(t: seq<Event>)
    requires t != []
    ensures var p, e := t[..|t| - 1], t[|t| - 1];
            && DimensionsSeen(t) == DimensionsSeen(p) + [
                 if FullCaps(e) && NoPartialCaps(p) then Some((e.width.value, e.height.value)) else None]
            && (NoPartialCaps(t) <==> NoPartialCaps(p) && !PartialCaps(e))
  {
    var p := t[..|t| - 1];
    assert forall i :: 0 <= i < |p| ==> p[..i] == t[..i] && p[i] == t[i];
  }

  lemma StepDimensions(cfg: Config, s: State, e: Event)
    requires s.client.Valid()
    ensures var u := Step(cfg, s, e).element;
            && (u.probing <==> s.element.probing && !PartialCaps(e))
            && (u.width, u.height) == if FullCaps(e) && s.element.probing then (e.width.value, e.height.value)
                                      else (s.element.width, s.element.height)
  {}

  /** The dimensions are those of the last complete caps event before the first incomplete
      one (0 by 0 if there is none); the probe lasts until that incomplete event. */
  lemma {:induction false} DimensionsHistory(cfg: Config, t: seq<Event>)
    ensures var e := Run(cfg, t).element;
            && IsLatest(DimensionsSeen(t), (0, 0), (e.width, e.height))
            && (e.probing <==> NoPartialCaps(t))
  {
    if t != [] {
      var p, e := t[..|t| - 1], t[|t| - 1];
      DimensionsHistory(cfg, p);
      var s := Run(cfg, p);
      StepDimensions(cfg, s, e);
      DimensionsSeenGrows(t);
      LatestGrows(DimensionsSeen(p), (0, 0), (s.element.width, s.element.height),
                  if FullCaps(e) && NoPartialCaps(p) then Some((e.width.value, e.height.value)) else None);
    }
  }
}
