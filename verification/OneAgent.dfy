/** One agent behind all calls of a run. Each call brings its own account of the agent's
    steps; here these are parts of a single history, one after the other, so that a start or
    a stop can be followed from one call to the next. */
module OneAgent {
  import opened Basics
  import opened AgentLifecycle
  import opened Polling
  import opened Client
  import opened Protocol
  import opened History

  // ---------------------------------------------------------------- calls to one agent

  /** A StartModel call and the timeout it is made with. */
  datatype Served = Served(call: ValidCall, timeout: nat)
  {
    ghost predicate Succeeds() {
      Found(call, RUNNING, timeout)
    }
  }

  /** The history of one model at one agent; the i-th call meets the steps from first(i) to
      last(i). */
  datatype Agent = Agent(timeline: Timeline, first: nat -> nat, last: nat -> nat)
  {
    /** What call c says of the agent from its first step to its last poll is that part of
        the history. */
    ghost predicate Meets(i: nat, c: Served) {
      && (forall n: nat :: first(i) <= n <= last(i) ==>
            && timeline.status(n) == c.call.agent.status(n - first(i))
            && timeline.at(n) == c.call.agent.at(n - first(i)))
      && (c.call.request.Some? ==> first(i) + c.call.request.value < last(i))
      && (forall k: nat :: k < Polls(c.call, RUNNING, c.timeout) ==> first(i) + c.call.sample(k) <= last(i))
    }

    /** No call is under way between steps n and n + 1. */
    ghost predicate Alone(calls: seq<Option<Served>>, n: nat) {
      forall i: nat :: i < |calls| && calls[i].Some? ==> !(first(i) <= n < last(i))
    }

    /** The agent keeps one history: the calls meet parts of it in the order in which they
        are made, and between them the agent moves on its own. */
    ghost predicate Serves(calls: seq<Option<Served>>) {
      && (forall i: nat :: i < |calls| && calls[i].Some? ==> Meets(i, calls[i].value))
      && (forall i: nat, j: nat :: i < j < |calls| && calls[i].Some? && calls[j].Some? ==> last(i) <= first(j))
      && (forall n: nat :: Alone(calls, n) ==>
            timeline.at(n) <= timeline.at(n + 1) && Spontaneous(timeline.status(n), timeline.status(n + 1)))
    }

    /** The start request of the i-th call is granted at step n. */
    predicate GrantedAt(calls: seq<Option<Served>>, i: nat, n: nat) {
      && i < |calls| && calls[i].Some?
      && calls[i].value.call.granted && calls[i].value.call.request.Some?
      && n == first(i) + calls[i].value.call.request.value
    }

    /** From step m to step n the model stays RUNNING once it is so. */
    ghost predicate StaysUp(m: nat, n: nat) {
      forall k: nat :: m <= k < n && timeline.status(k) == RUNNING ==> timeline.status(k + 1) == RUNNING
    }
  }

  /** A model at rest at one step and not at a later one was granted a start in between, by
      one of the calls: a stop is only ever undone by another granted request. */
  lemma {:induction false} RunningNeedsGrant(calls: seq<Option<Served>>, a: Agent, m: nat, n: nat)
    returns (i: nat, g: nat)
    requires a.Serves(calls) && m <= n
    requires AtRest(a.timeline.status(m)) && !AtRest(a.timeline.status(n))
    ensures a.GrantedAt(calls, i, g) && m <= g < n
    decreases n
  {
    g := n - 1;
    if !AtRest(a.timeline.status(g)) {
      i, g := RunningNeedsGrant(calls, a, m, g);
    } else {
      assert !a.Alone(calls, g);
      i :| i < |calls| && calls[i].Some? && a.first(i) <= g < a.last(i);
      assert a.Meets(i, calls[i].value);
      assert calls[i].value.call.AgentStep(g - a.first(i));
    }
  }

  lemma {:induction false} KeepsRunning(a: Agent, m: nat, n: nat)
    requires m <= n && a.StaysUp(m, n) && a.timeline.status(m) == RUNNING
    ensures a.timeline.status(n) == RUNNING
    decreases n - m
  {
    if m < n {
      KeepsRunning(a, m + 1, n);
    }
  }

  /** A successful call saw the model RUNNING at one of the agent's steps it met. */
  lemma SuccessIsSeen(calls: seq<Option<Served>>, a: Agent, i: nat) returns (n: nat)
    requires a.Serves(calls) && i < |calls| && calls[i].Some? && calls[i].value.Succeeds()
    ensures a.first(i) <= n <= a.last(i) && a.timeline.status(n) == RUNNING
  {
    var c := calls[i].value;
    PollsProfile(c.call, RUNNING, c.timeout);
    assert a.Meets(i, c);
    n := a.first(i) + c.call.sample(Polls(c.call, RUNNING, c.timeout) - 1);
  }

  /** A poll that saw the model RUNNING, at an agent that had it at rest before the call: one
      of the calls, not a later one, was granted a start since. */
  lemma RunningPollWasStarted(calls: seq<Option<Served>>, a: Agent, m: nat, j: nat, k: nat) returns (i: nat, g: nat)
    requires a.Serves(calls) && j < |calls| && calls[j].Some?
    requires m <= a.first(j) && AtRest(a.timeline.status(m))
    requires var c := calls[j].value;
             k < Polls(c.call, RUNNING, c.timeout) && c.call.agent.status(c.call.sample(k)) == RUNNING
    ensures a.GrantedAt(calls, i, g) && m <= g && i <= j
  {
    var c := calls[j].value;
    assert a.Meets(j, c);
    i, g := RunningNeedsGrant(calls, a, m, a.first(j) + c.call.sample(k));
  }

  /** A call that meets the model RUNNING all along is not granted a start, and succeeds if
      and only if some poll in budget gets a reply. */
  lemma UpAllAlong(a: Agent, i: nat, c: Served)
    requires a.Meets(i, c)
    requires forall n: nat :: a.first(i) <= n <= a.last(i) ==> a.timeline.status(n) == RUNNING
    ensures c.call.request.Some? ==> !c.call.granted
    ensures c.Succeeds() <==> exists k: nat :: c.call.InBudget(c.timeout, k) && c.call.describe(k).Replied?
  {
    var n := Polls(c.call, RUNNING, c.timeout);
    if c.call.request.Some? {
      assert c.call.AgentStep(c.call.request.value);
      assert a.timeline.status(a.first(i) + c.call.request.value) == RUNNING;
    }
    PollsProfile(c.call, RUNNING, c.timeout);
    forall k: nat | k < n && c.call.describe(k).Replied? ensures c.Succeeds() {
      assert a.timeline.status(a.first(i) + c.call.sample(k)) == RUNNING;
      assert c.call.Hit(RUNNING, k);
    }
    forall k: nat | n <= k && c.call.InBudget(c.timeout, k) ensures c.Succeeds() {
      BudgetIsPrefix(c.call, c.timeout, n, k);
    }
  }

  // ---------------------------------------------------------------- the calls of a run

  /** The StartModel call event i makes for `model` on `socket`, if it makes one. */
  ghost function CallAt(cfg: Config, t: seq<Event>, i: nat, socket: string, model: string): Option<Served>
    requires i < |t|
  {
    var s := Before(cfg, t, i);
    if StartRequest(s, t[i]) == Some(model) && (if t[i].SetSocket? then t[i].socket else s.element.socket) == socket
    then Some(Served(t[i].call, s.element.timeout))
    else None
  }

  ghost function Calls(cfg: Config, t: seq<Event>, socket: string, model: string): seq<Option<Served>> {
    seq(|t|, i requires 0 <= i < |t| => CallAt(cfg, t, i, socket, model))
  }

  lemma SocketAfter(cfg: Config, t: seq<Event>, i: nat)
    requires i < |t|
    ensures Before(cfg, t, i + 1).element.socket ==
            if t[i].SetSocket? then t[i].socket else Before(cfg, t, i).element.socket
  {
    StepAt(cfg, t, i);
    SettingsHistory(cfg, t[..i]);
    StepSettings(cfg, Before(cfg, t, i), t[i]);
    hide Step;
  }

  /** The call behind a poll that said RUNNING. */
  lemma SeenRunningCall(cfg: Config, t: seq<Event>, model: string) returns (j: nat, k: nat)
    requires SeenRunning(cfg, t, model)
    ensures Epoch(t) <= j < |t|
    ensures var c := CallAt(cfg, t, j, Run(cfg, t).element.socket, model);
            c.Some? && k < Polls(c.value.call, RUNNING, c.value.timeout)
            && c.value.call.agent.status(c.value.call.sample(k)) == RUNNING
  {
    hide Step;
    j, k := SeenRunningIsReal(cfg, t, model);
    SocketAfter(cfg, t, j);
  }

  /** A model seen RUNNING in the log was started: if its agent had it at rest at some step
      before the calls made since the socket was set, then one of the calls of the run was
      granted a start from that step on, and it is not later than the call that saw it. */
  lemma SeenRunningWasStarted(cfg: Config, t: seq<Event>, model: string, a: Agent, m: nat)
    returns (i: nat, g: nat, j: nat)
    requires SeenRunning(cfg, t, model)
    requires var calls := Calls(cfg, t, Run(cfg, t).element.socket, model);
             && a.Serves(calls) && AtRest(a.timeline.status(m))
             && (forall j: nat :: Epoch(t) <= j < |calls| && calls[j].Some? ==> m <= a.first(j))
    ensures var calls := Calls(cfg, t, Run(cfg, t).element.socket, model);
            && a.GrantedAt(calls, i, g) && m <= g
            && i <= j < |calls| && Epoch(t) <= j && calls[j].Some?
  {
    var calls := Calls(cfg, t, Run(cfg, t).element.socket, model);
    var k: nat;
    j, k := SeenRunningCall(cfg, t, model);
    hide Step;
    hide CallAt;
    hide SeenRunning;
    hide Agent.Serves;
    i, g := RunningPollWasStarted(calls, a, m, j, k);
  }

  /** A start is good for every later call: if the agent keeps the model running from a
      successful call to the end of a later one for it on the same socket, that one is not
      granted a start, and succeeds if and only if some poll in budget gets a reply. */
  lemma StartCarriesOver(cfg: Config, t: seq<Event>, socket: string, model: string, a: Agent, i: nat, j: nat)
    requires i < j < |t| && CallAt(cfg, t, i, socket, model).Some? && CallAt(cfg, t, j, socket, model).Some?
    requires a.Serves(Calls(cfg, t, socket, model)) && a.StaysUp(a.first(i), a.last(j))
    requires CallAt(cfg, t, i, socket, model).value.Succeeds()
    ensures var c := CallAt(cfg, t, j, socket, model).value;
            && (c.call.request.Some? ==> !c.call.granted)
            && (c.Succeeds() <==> exists k: nat :: c.call.InBudget(c.timeout, k) && c.call.describe(k).Replied?)
  {
    var calls := Calls(cfg, t, socket, model);
    hide CallAt;
    assert calls[i] == CallAt(cfg, t, i, socket, model) && calls[j] == CallAt(cfg, t, j, socket, model);
    var up := SuccessIsSeen(calls, a, i);
    forall n: nat | a.first(j) <= n <= a.last(j) ensures a.timeline.status(n) == RUNNING {
      KeepsRunning(a, up, n);
    }
    UpAllAlong(a, j, calls[j].value);
  }

  lemma PromptCallMet(s: ModelStatus, a: Agent, i: nat)
    requires s == STOPPED || s == RUNNING
    requires a.last(i) == a.first(i) + 2
    requires forall n: nat :: a.first(i) <= n <= a.last(i) ==>
               && a.timeline.at(n) == 0.0
               && a.timeline.status(n) == PromptCall(s).agent.status(n - a.first(i))
    ensures PromptCall(s).Valid() && a.Meets(i, Served(PromptCall(s), DEFAULT_TIMEOUT))
    ensures Served(PromptCall(s), DEFAULT_TIMEOUT).Succeeds()
  {
    StoppingIsTheCulprit(s, DEFAULT_TIMEOUT);
    var c: Call := PromptCall(s);
    PollsProfile(c, RUNNING, DEFAULT_TIMEOUT);
    assert c.Hit(RUNNING, 0);
  }

  lemma TwoCallsServed(a: Agent, first: Served, second: Served)
    requires a.first(0) == 0 && a.last(0) == a.first(1) && a.Meets(0, first) && a.Meets(1, second)
    requires forall n: nat :: n >= a.last(1) ==>
               a.timeline.at(n) == a.timeline.at(n + 1) && a.timeline.status(n) == a.timeline.status(n + 1)
    ensures a.Serves([Some(first), Some(second)])
  {
    hide Agent.Meets;
    var calls := [Some(first), Some(second)];
    forall n: nat | a.Alone(calls, n) ensures n >= a.last(1) {
      assert calls[0].Some? && calls[1].Some?;
    }
  }

  lemma PromptAgent(first: Served, second: Served) returns (a: Agent)
    requires PromptCall(STOPPED).Valid() && first == Served(PromptCall(STOPPED), DEFAULT_TIMEOUT)
    requires PromptCall(RUNNING).Valid() && second == Served(PromptCall(RUNNING), DEFAULT_TIMEOUT)
    ensures a.Serves([Some(first), Some(second)]) && a.StaysUp(0, 4)
    ensures a.timeline.status(0) == STOPPED && a.first(0) == 0 && a.last(1) == 4
    ensures first.Succeeds() && second.Succeeds()
  {
    a := Agent(Timeline((n: nat) => 0.0, (n: nat) => if n == 0 then STOPPED else if n == 1 then STARTING else RUNNING),
               (i: nat) => 2 * i, (i: nat) => 2 * i + 2);
    PromptCallMet(STOPPED, a, 0);
    PromptCallMet(RUNNING, a, 1);
    hide Found;
    hide Agent.Meets;
    TwoCallsServed(a, first, second);
    hide Agent.Serves;
  }

  lemma TwoCallsMade(cfg: Config, t: seq<Event>, first: Served, second: Served)
    requires first.timeout == second.timeout == DEFAULT_TIMEOUT && first.Succeeds()
    requires t == [SetModel("model", first.call), SetSocket(DEFAULT_SOCKET, second.call)]
    ensures Calls(cfg, t, DEFAULT_SOCKET, "model") == [Some(first), Some(second)]
  {
    assert t[..0] == [];
    StepAt(cfg, t, 0);
    StepModel(cfg, Before(cfg, t, 0), t[0]);
    SettingsHistory(cfg, t[..1]);
    StepSettings(cfg, Before(cfg, t, 0), t[0]);
    hide Step;
    hide Found;
  }

  /** Such runs exist: a model is started by one call and still RUNNING at the next, made
      when the socket is set again; both succeed, on the one start that is granted. */
  lemma OneStartServesTwoCalls(cfg: Config) returns (t: seq<Event>, a: Agent)
    ensures |t| == 2 && t[0].SetModel? && t[1].SetSocket?
    ensures var calls := Calls(cfg, t, DEFAULT_SOCKET, t[0].name);
            && a.Serves(calls) && a.StaysUp(a.first(0), a.last(1)) && a.timeline.status(0) == STOPPED
            && a.GrantedAt(calls, 0, 0)
            && calls[0].Some? && calls[0].value.Succeeds()
            && calls[1].Some? && calls[1].value.Succeeds() && !calls[1].value.call.granted
  {
    PromptCallServesWell(STOPPED, DEFAULT_TIMEOUT);
    PromptCallServesWell(RUNNING, DEFAULT_TIMEOUT);
    hide Call.Valid;
    var first, second := Served(PromptCall(STOPPED), DEFAULT_TIMEOUT), Served(PromptCall(RUNNING), DEFAULT_TIMEOUT);
    a := PromptAgent(first, second);
    t := [SetModel("model", first.call), SetSocket(DEFAULT_SOCKET, second.call)];
    TwoCallsMade(cfg, t, first, second);
    hide Agent.Serves;
    hide Found;
  }
}
