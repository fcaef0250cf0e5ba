/** The start-and-poll protocol: one start request, then DescribeModel every five
    seconds until the model is RUNNING or a whole-second clock says the time is up.

    Everything the environment decides during one call is a `Call`: the agent's moves,
    when each statement of the client runs, and what each RPC returns. */
module Polling {
  import opened Basics
  import opened AgentLifecycle

  const POLLING_INTERVAL: real := 5.0

  /** How an RPC ends: with a reply, with an error status, or with an exception. */
  datatype RpcOutcome = Replied | ErrorStatus | Threw

  /** One StartModel call.
      - request: the agent step before which the start request arrives (None: never);
        granted: whether the agent starts the model then;
        startRpc: what the client sees of the request.
      - start: the instant of the reading kept as start_time.
      - check(k): the instant of the clock reading in the k-th evaluation of the loop
        condition; sample(k): the agent step whose status the k-th DescribeModel reports;
        describe(k): how that RPC ends; done(k): the instant it is over. */
  datatype Call = Call(
    agent: Timeline,
    request: Option<nat>,
    granted: bool,
    startRpc: RpcOutcome,
    start: real,
    check: nat -> real,
    sample: nat -> nat,
    describe: nat -> RpcOutcome,
    done: nat -> real)
  {
    /** Step n of the agent: instants never decrease, and the status changes as allowed. */
    ghost predicate AgentStep(n: nat) {
      && agent.at(n) <= agent.at(n + 1)
      && if granted && request == Some(n)
         then Startable(agent.status(n)) && agent.status(n + 1) == STARTING
         else Spontaneous(agent.status(n), agent.status(n + 1))
    }

    /** Round k of the loop: the status is sampled while the RPC runs, after the start
        request, and the sleep before the next reading lasts at least five seconds. */
    ghost predicate Round(k: nat) {
      && check(k) <= agent.at(sample(k)) <= done(k)
      && done(k) + POLLING_INTERVAL <= check(k + 1)
      && (request.Some? ==> request.value < sample(k))
    }

    /** The assumptions on clock, sleep and agent. */
    ghost predicate Valid() {
      && start <= check(0)
      && (forall n: nat :: AgentStep(n))
      && (forall k: nat :: Round(k))
    }

    /** The loop condition on its k-th evaluation: std::time counts whole seconds. */
    predicate InBudget(timeout: int, k: nat) {
      check(k).Floor - start.Floor < timeout
    }

    /** What getModelStatus returns in round k: a status only if the RPC replied. */
    function Answer(k: nat): Option<ModelStatus> {
      if describe(k).Replied? then Some(agent.status(sample(k))) else None
    }

    predicate Hit(expected: ModelStatus, k: nat) {
      Answer(k) == Some(expected)
    }
  }

  /** The promise of waitForModelStatusWithTimeout: some poll made before the budget ran
      out succeeded and reported the expected status. */
  ghost predicate Found(c: Call, expected: ModelStatus, timeout: int) {
    exists k: nat :: c.InBudget(timeout, k) && c.Hit(expected, k)
  }

  /** Whole seconds left at the k-th reading. */
  function Left(c: Call, timeout: int, k: nat): nat {
    var left := timeout - (c.check(k).Floor - c.start.Floor);
    if left < 0 then 0 else left
  }

  /** A sleep of five seconds takes at least five off a clock that counts whole ones. */
  lemma LeftDecreases(c: Call, timeout: int, k: nat)
    requires c.Valid() && c.InBudget(timeout, k)
    ensures c.check(k + 1).Floor >= c.check(k).Floor + 5
    ensures Left(c, timeout, k + 1) < Left(c, timeout, k)
  {
    assert c.Round(k);
  }

  /** The number of polls made from round k on. */
  ghost function PollsFrom(c: Call, expected: ModelStatus, timeout: int, k: nat): (n: nat)
    requires c.Valid()
    ensures n > 0 <==> c.InBudget(timeout, k)
    decreases Left(c, timeout, k)
  {
    if !c.InBudget(timeout, k) then 0
    else if c.Hit(expected, k) then 1
    else LeftDecreases(c, timeout, k); 1 + PollsFrom(c, expected, timeout, k + 1)
  }

  /** The number of polls made by one call. */
  ghost function Polls(c: Call, expected: ModelStatus, timeout: int): nat
    requires c.Valid()
  {
    PollsFrom(c, expected, timeout, 0)
  }

  // ------------------------------------------------------------- the clock

  /** Readings grow, and by at least five seconds a round. */
  lemma {:induction false} ChecksSpread(c: Call, j: nat, k: nat)
    requires c.Valid() && j <= k
    ensures c.check(k) >= c.check(j) + 5.0 * (k - j) as real
    ensures c.check(k).Floor >= c.check(j).Floor + 5 * (k - j)
    decreases k - j
  {
    if j < k {
      assert c.Round(j);
      ChecksSpread(c, j + 1, k);
    }
  }

  lemma {:induction false} ChecksAfterStart(c: Call, k: nat)
    requires c.Valid()
    ensures c.start <= c.check(k)
    ensures c.start.Floor + 5 * k <= c.check(k).Floor
  {
    ChecksSpread(c, 0, k);
  }

  /** Once over budget, always over budget. */
  lemma BudgetIsPrefix(c: Call, timeout: int, j: nat, k: nat)
    requires c.Valid() && j <= k && c.InBudget(timeout, k)
    ensures c.InBudget(timeout, j)
  {
    ChecksSpread(c, j, k);
  }

  // ------------------------------------------------------------- what the loop does

  lemma {:induction false} PollsFromProfile(c: Call, expected: ModelStatus, timeout: int, k: nat)
    requires c.Valid()
    ensures var n := k + PollsFrom(c, expected, timeout, k);
            && (forall j: nat :: k <= j < n ==> c.InBudget(timeout, j))
            && (forall j: nat :: k <= j < n - 1 ==> !c.Hit(expected, j))
            && ((n > k && c.Hit(expected, n - 1)) || !c.InBudget(timeout, n))
    decreases Left(c, timeout, k)
  {
    if c.InBudget(timeout, k) && !c.Hit(expected, k) {
      LeftDecreases(c, timeout, k);
      PollsFromProfile(c, expected, timeout, k + 1);
    }
  }

  /** Polling stops at the first hit or at the first reading over budget, whichever comes
      first; it succeeds exactly when its last poll is a hit. */
  lemma PollsProfile(c: Call, expected: ModelStatus, timeout: int)
    requires c.Valid()
    ensures var n := Polls(c, expected, timeout);
            && (forall j: nat :: j < n ==> c.InBudget(timeout, j))
            && (forall j: nat :: j < n - 1 ==> !c.Hit(expected, j))
            && (Found(c, expected, timeout) <==> n > 0 && c.Hit(expected, n - 1))
            && (!Found(c, expected, timeout) ==> !c.InBudget(timeout, n))
  {
    PollsFromProfile(c, expected, timeout, 0);
    var n := Polls(c, expected, timeout);
    if Found(c, expected, timeout) {
      var k: nat :| c.InBudget(timeout, k) && c.Hit(expected, k);
      if n <= k {
        BudgetIsPrefix(c, timeout, n, k);
      }
    } else if n > 0 {
      assert c.InBudget(timeout, n - 1);
    }
  }

  /** No hit up to a reading that is over budget: nothing will be found. */
  lemma NotFoundBefore(c: Call, expected: ModelStatus, timeout: int, k: nat)
    requires c.Valid() && !c.InBudget(timeout, k)
    requires forall j: nat :: j < k ==> !c.Hit(expected, j)
    ensures !Found(c, expected, timeout)
  {
    forall j: nat | c.InBudget(timeout, j) ensures !c.Hit(expected, j) {
      if k <= j {
        BudgetIsPrefix(c, timeout, k, j);
      }
    }
  }

  /** At most ceil(timeout / 5) polls; none when the timeout is not positive. */
  lemma PollsBounded(c: Call, expected: ModelStatus, timeout: int)
    requires c.Valid()
    ensures Polls(c, expected, timeout) <= if timeout <= 0 then 0 else (timeout + 4) / 5
  {
    var n := Polls(c, expected, timeout);
    PollsProfile(c, expected, timeout);
    if n > 0 {
      assert c.InBudget(timeout, n - 1);
      ChecksAfterStart(c, n - 1);
    }
  }

  /** A call in which every RPC is immediate, every sleep exact and the model STOPPED. */
  function IdleCall(): Call {
    Call(Timeline((n: nat) => 5.0 * n as real, (n: nat) => STOPPED), None, false, Replied,
         0.0, (k: nat) => 5.0 * k as real, (k: nat) => k, (k: nat) => Replied,
         (k: nat) => 5.0 * k as real)
  }

  lemma IdleCallValid()
    ensures IdleCall().Valid()
  {
    var c := IdleCall();
    forall n: nat ensures c.AgentStep(n) {}
    forall k: nat ensures c.Round(k) {}
  }

  /** The bound on the number of polls is attained for every timeout. */
  lemma PollsBoundAttained(timeout: nat)
    ensures IdleCall().Valid()
    ensures Polls(IdleCall(), RUNNING, timeout) == (timeout + 4) / 5
  {
    IdleCallValid();
    var c := IdleCall();
    PollsProfile(c, RUNNING, timeout);
    var n := Polls(c, RUNNING, timeout);
    assert forall k: nat :: !c.Hit(RUNNING, k);
    assert !c.InBudget(timeout, n) && c.check(n) == (5 * n) as real;
    PollsBounded(c, RUNNING, timeout);
  }

  // ------------------------------------------------------------- real time

  /** Every poll starts less than `timeout` real seconds after the start reading, and a call
      that fails does so more than timeout - 1 real seconds after it, however long RPCs and
      sleeps take. */
  lemma RealTimeBounds(c: Call, expected: ModelStatus, timeout: int)
    requires c.Valid()
    ensures var n := Polls(c, expected, timeout);
            && (forall k: nat :: k < n ==> 0.0 <= c.check(k) - c.start < timeout as real)
            && (!Found(c, expected, timeout) ==> c.check(n) - c.start > timeout as real - 1.0)
  {
    PollsProfile(c, expected, timeout);
    forall k: nat | k < Polls(c, expected, timeout) ensures 0.0 <= c.check(k) - c.start < timeout as real {
      assert c.InBudget(timeout, k);
      ChecksAfterStart(c, k);
    }
  }

  /** Consecutive readings, the first included, are at most `gap` seconds apart. */
  ghost predicate RoundsWithin(c: Call, gap: real) {
    && c.check(0) - c.start <= gap
    && forall k: nat :: c.check(k + 1) - c.check(k) <= gap
  }

  /** With at most `gap` seconds between readings, a call that fails after polling does so
      less than timeout plus one round after its start reading. */
  lemma FailureIsPrompt(c: Call, expected: ModelStatus, timeout: int, gap: real)
    requires c.Valid() && RoundsWithin(c, gap)
    requires !Found(c, expected, timeout) && c.InBudget(timeout, 0)
    ensures var n := Polls(c, expected, timeout); n > 0 && c.check(n) - c.start < timeout as real + gap
  {
    RealTimeBounds(c, expected, timeout);
    var n := Polls(c, expected, timeout);
    assert c.check((n - 1) + 1) - c.check(n - 1) <= gap;
  }

  /** No poll in budget fails, and after the start request (if there is one) the model is
      RUNNING at all times later than timeout - 1 - gap seconds after the start reading. */
  ghost predicate RunningInTime(c: Call, timeout: int, gap: real) {
    && (forall k: nat :: c.InBudget(timeout, k) ==> c.describe(k).Replied?)
    && (forall n: nat :: (c.request.Some? ==> c.request.value < n)
                         && c.agent.at(n) > c.start + timeout as real - 1.0 - gap ==>
                         c.agent.status(n) == RUNNING)
  }

  /** The last poll in budget is late enough to see the model RUNNING. */
  lemma LastPollHits(c: Call, timeout: int, gap: real, k: nat)
    requires c.Valid() && RoundsWithin(c, gap) && RunningInTime(c, timeout, gap)
    requires c.InBudget(timeout, k) && !c.InBudget(timeout, k + 1)
    ensures c.Hit(RUNNING, k)
  {
    assert c.Round(k);
    assert c.check(k + 1) - c.start > timeout as real - 1.0;
    assert c.check(k + 1) - c.check(k) <= gap;
  }

  /** Bounded completeness. With at most `gap` seconds between readings, the first of them
      in budget, and no failing DescribeModel, a model that is RUNNING at all times later
      than timeout - 1 - gap seconds after the start reading is found, whatever it did
      before. */
  lemma BoundedCompleteness(c: Call, timeout: int, gap: real)
    requires c.Valid() && RoundsWithin(c, gap) && RunningInTime(c, timeout, gap)
    requires c.InBudget(timeout, 0)
    ensures Found(c, RUNNING, timeout)
  {
    PollsProfile(c, RUNNING, timeout);
    var n := Polls(c, RUNNING, timeout);
    assert c.InBudget(timeout, n - 1);
    if !c.InBudget(timeout, n) {
      LastPollHits(c, timeout, gap, n - 1);
    }
  }

  lemma Scale(gap: real, k: nat)
    requires gap >= 5.0
    ensures gap * (k + 1) as real == gap * k as real + gap
    ensures gap * k as real >= 0.0
  {
    assert (k + 1) as real == k as real + 1.0;
  }

  /** How many whole gaps fit into x, leaving no more than one. */
  lemma {:induction false} WholeGaps(x: real, gap: real) returns (m: nat)
    requires x >= 0.0 && gap >= 5.0
    ensures 0.0 <= x - gap * m as real <= gap
    decreases x.Floor
  {
    if x <= gap {
      m := 0;
    } else {
      var r := WholeGaps(x - gap, gap);
      m := r + 1;
      Scale(gap, r);
    }
  }

  /** The status after step n is in force at some time later than `instant`: the step comes
      later, or the status lasts until a later one. */
  predicate InForceAfter(c: Call, instant: real, n: nat) {
    || c.agent.at(n) > instant
    || (c.agent.at(n) < c.agent.at(n + 1) && c.agent.at(n + 1) > instant)
  }

  /** The model is RUNNING at all times later than `instant`. */
  ghost predicate RunningAfter(c: Call, instant: real) {
    forall n: nat :: InForceAfter(c, instant, n) ==> c.agent.status(n) == RUNNING
  }

  /** Readings exactly `gap` apart, of which reading m + 1 falls on the timeout. */
  function Reading(timeout: int, gap: real, m: nat, k: nat): real {
    timeout as real - gap * (m + 1) as real + gap * k as real
  }

  lemma ReadingSteps(timeout: int, gap: real, m: nat, k: nat)
    requires 5.0 <= gap
    ensures Reading(timeout, gap, m, k + 1) == Reading(timeout, gap, m, k) + gap
    ensures Reading(timeout, gap, m, m + 1) == timeout as real
  {
    Scale(gap, k);
  }

  lemma {:induction false} ReadingsGrow(timeout: int, gap: real, m: nat, j: nat, k: nat)
    requires 5.0 <= gap && j <= k
    ensures Reading(timeout, gap, m, j) <= Reading(timeout, gap, m, k)
    decreases k - j
  {
    hide Reading;
    if j < k {
      ReadingSteps(timeout, gap, m, j);
      ReadingsGrow(timeout, gap, m, j + 1, k);
    }
  }

  /** Readings up to m come at least one gap before the timeout, the others not before it. */
  lemma LateReadings(timeout: int, gap: real, m: nat, k: nat)
    requires 5.0 <= gap
    ensures Reading(timeout, gap, m, m) == timeout as real - gap
    ensures if k <= m then Reading(timeout, gap, m, k) <= timeout as real - gap
            else Reading(timeout, gap, m, k) >= timeout as real
  {
    hide Reading;
    ReadingSteps(timeout, gap, m, m);
    if k <= m {
      ReadingsGrow(timeout, gap, m, k, m);
    } else {
      ReadingsGrow(timeout, gap, m, m + 1, k);
    }
  }

  /** A call in which reading m is the last in budget. The agent takes a step at each
      reading, and one more at reading m, after the poll: there the model becomes RUNNING. */
  function LateCall(timeout: int, gap: real, late: real, m: nat): Call {
    var reading := (k: nat) => Reading(timeout, gap, m, k);
    Call(Timeline((n: nat) => if n <= m then reading(n) else reading(n - 1),
                  (n: nat) => if n <= m then STARTING else RUNNING),
         None, false, Replied,
         1.0 - late, reading, (k: nat) => if k <= m then k else k + 1, (k: nat) => Replied, reading)
  }

  lemma LateCallValid(timeout: int, gap: real, late: real, m: nat)
    requires 5.0 <= gap && 0.0 < late < 1.0
    requires 0.0 <= Reading(timeout, gap, m, 0) - (1.0 - late) <= gap
    ensures var c := LateCall(timeout, gap, late, m); c.Valid() && RoundsWithin(c, gap)
  {
    hide Reading;
    var c := LateCall(timeout, gap, late, m);
    forall n: nat ensures c.AgentStep(n) {
      ReadingSteps(timeout, gap, m, n);
      if n > 0 { ReadingSteps(timeout, gap, m, n - 1); }
    }
    forall k: nat ensures c.Round(k) && c.check(k + 1) - c.check(k) <= gap {
      ReadingSteps(timeout, gap, m, k);
    }
  }

  lemma FloorReaches(x: real, n: int)
    requires x >= n as real
    ensures x.Floor >= n
  {}

  lemma LateCallMisses(timeout: int, gap: real, late: real, m: nat, k: nat)
    requires 5.0 <= gap && 0.0 < late < 1.0
    ensures var c := LateCall(timeout, gap, late, m); !(c.InBudget(timeout, k) && c.Hit(RUNNING, k))
  {
    hide Reading;
    var c := LateCall(timeout, gap, late, m);
    LateReadings(timeout, gap, m, k);
    if k > m {
      FloorReaches(c.check(k), timeout);
      assert c.start.Floor == 0;
    }
  }

  /** The steps after which the model is not RUNNING yet, and the one at which it becomes
      so, come no later than reading m. */
  lemma LateCallRunsAfter(timeout: int, gap: real, late: real, m: nat)
    requires 5.0 <= gap
    ensures RunningAfter(LateCall(timeout, gap, late, m), timeout as real - gap)
  {
    hide Reading;
    var c := LateCall(timeout, gap, late, m);
    var bound := timeout as real - gap;
    forall n: nat | n <= m ensures !InForceAfter(c, bound, n) {
      LateReadings(timeout, gap, m, n);
      LateReadings(timeout, gap, m, if n < m then n + 1 else n);
    }
  }

  /** Reading 0 can be put less than one gap after the start reading. */
  lemma FirstReading(timeout: int, gap: real, late: real) returns (m: nat)
    requires 5.0 <= gap && 0.0 < late < 1.0
    requires gap + 1.0 <= timeout as real
    ensures 0.0 <= Reading(timeout, gap, m, 0) - (1.0 - late) <= gap
  {
    m := WholeGaps(timeout as real - gap - (1.0 - late), gap);
    Scale(gap, m);
  }

  /** The bound of BoundedCompleteness cannot be moved, for any timeout that leaves room for
      a poll: however small `late` is, a model that is RUNNING at all times later than
      `late` seconds after it can be missed, although every poll replies. */
  lemma CompletenessBoundTight(timeout: int, gap: real, late: real) returns (c: Call)
    requires 5.0 <= gap && 0.0 < late < 1.0
    requires gap + 1.0 <= timeout as real
    ensures c.Valid() && RoundsWithin(c, gap) && c.InBudget(timeout, 0)
    ensures c.request.None? && forall k: nat :: c.describe(k).Replied?
    ensures RunningAfter(c, c.start + timeout as real - 1.0 - gap + late)
    ensures RunningInTime(c, timeout, gap - late)
    ensures !Found(c, RUNNING, timeout)
  {
    var m := FirstReading(timeout, gap, late);
    hide Reading;
    c := LateCall(timeout, gap, late, m);
    LateCallValid(timeout, gap, late, m);
    LateCallRunsAfter(timeout, gap, late, m);
    assert c.start + timeout as real - 1.0 - gap + late == timeout as real - gap;
    forall n: nat | c.agent.at(n) > timeout as real - gap ensures c.agent.status(n) == RUNNING {
      assert InForceAfter(c, timeout as real - gap, n);
    }
    forall k: nat ensures !(c.InBudget(timeout, k) && c.Hit(RUNNING, k)) {
      LateCallMisses(timeout, gap, late, m, k);
    }
    assert c.check(0) - c.start <= gap <= timeout as real - 1.0;
  }

  // ------------------------------------------------------------- the agent

  /** Soundness: a successful call means the agent's model really was RUNNING at an
      instant inside the call, whatever the start request itself returned or threw. */
  lemma FoundMeansRunning(c: Call, timeout: int) returns (n: nat, k: nat)
    requires c.Valid() && Found(c, RUNNING, timeout)
    ensures c.agent.status(n) == RUNNING
    ensures k < Polls(c, RUNNING, timeout) && c.start <= c.agent.at(n) <= c.done(k)
    ensures c.agent.at(n) - c.start < timeout as real + (c.done(k) - c.check(k))
  {
    PollsProfile(c, RUNNING, timeout);
    k := Polls(c, RUNNING, timeout) - 1;
    n := c.sample(k);
    assert c.InBudget(timeout, k) && c.Round(k);
    ChecksAfterStart(c, k);
  }

  /** A model at rest stays so until a start request is granted. */
  lemma {:induction false} RestsUntilGranted(c: Call, m: nat, n: nat)
    requires c.Valid() && m <= n && AtRest(c.agent.status(m))
    requires c.granted && c.request.Some? ==> !(m <= c.request.value < n)
    ensures AtRest(c.agent.status(n))
    decreases n - m
  {
    if m < n {
      assert c.AgentStep(m);
      RestsUntilGranted(c, m + 1, n);
    }
  }

  /** Success needs a start: if the model is at rest at some step before the first poll, and
      no start request is granted from then on, no poll of the call sees it RUNNING. */
  lemma NotStartedFails(c: Call, timeout: int, m: nat)
    requires c.Valid() && AtRest(c.agent.status(m))
    requires forall k: nat :: m <= c.sample(k)
    requires c.granted && c.request.Some? ==> c.request.value < m
    ensures !Found(c, RUNNING, timeout)
    ensures forall n: nat :: n >= m ==> c.agent.status(n) != RUNNING
  {
    forall n: nat | n >= m ensures c.agent.status(n) != RUNNING {
      RestsUntilGranted(c, m, n);
    }
    forall k: nat ensures !c.Hit(RUNNING, k) {
      assert m <= c.sample(k);
    }
  }

  /** A start request that arrives while the model is STOPPING is never granted and never
      repeated: the call fails although the model may stop within it. */
  lemma StoppingModelFails(c: Call, timeout: int)
    requires c.Valid() && c.request.Some? && c.agent.status(c.request.value) == STOPPING
    ensures !c.granted && !Found(c, RUNNING, timeout)
    ensures forall n: nat :: n >= c.request.value ==> c.agent.status(n) != RUNNING
  {
    assert c.AgentStep(c.request.value);
    forall k: nat ensures c.request.value <= c.sample(k) {
      assert c.Round(k);
    }
    NotStartedFails(c, timeout, c.request.value);
  }

  /** An agent that serves the one start request of a call well: it grants the request
      exactly to a model that is STOPPED or FAILED; from then on loading succeeds, a running
      model keeps running, and loading is over in time; and no poll in budget fails. */
  ghost predicate ServesWell(c: Call, timeout: int, gap: real) {
    && c.request.Some?
    && (c.granted <==> Startable(c.agent.status(c.request.value)))
    && (forall n: nat :: n >= c.request.value ==>
          && (c.agent.status(n) == STARTING ==> c.agent.status(n + 1) == STARTING || c.agent.status(n + 1) == RUNNING)
          && (c.agent.status(n) == RUNNING ==> c.agent.status(n + 1) == RUNNING))
    && (forall n: nat :: n > c.request.value && c.agent.at(n) > c.start + timeout as real - 1.0 - gap ==>
          c.agent.status(n) != STARTING)
    && (forall k: nat :: c.InBudget(timeout, k) ==> c.describe(k).Replied?)
  }

  /** Unless the request meets a STOPPING model, the model is on its way or up ever after. */
  lemma {:induction false} UpAfterRequest(c: Call, timeout: int, gap: real, n: nat)
    requires c.Valid() && ServesWell(c, timeout, gap)
    requires c.agent.status(c.request.value) != STOPPING && n > c.request.value
    ensures c.agent.status(n) == STARTING || c.agent.status(n) == RUNNING
    decreases n
  {
    assert c.AgentStep(n - 1);
    if n - 1 > c.request.value {
      UpAfterRequest(c, timeout, gap, n - 1);
    }
  }

  /** With an agent that serves well, a call succeeds if and only if its start request does
      not arrive while the model is STOPPING: a granted start leads to success, a model that
      is STARTING or RUNNING is waited for, and a STOPPING one is the only case that fails. */
  lemma SucceedsUnlessStopping(c: Call, timeout: int, gap: real)
    requires c.Valid() && RoundsWithin(c, gap) && ServesWell(c, timeout, gap)
    requires c.InBudget(timeout, 0)
    ensures Found(c, RUNNING, timeout) <==> c.agent.status(c.request.value) != STOPPING
  {
    if c.agent.status(c.request.value) == STOPPING {
      StoppingModelFails(c, timeout);
    } else {
      forall n: nat | n > c.request.value && c.agent.at(n) > c.start + timeout as real - 1.0 - gap
        ensures c.agent.status(n) == RUNNING
      {
        UpAfterRequest(c, timeout, gap, n);
      }
      BoundedCompleteness(c, timeout, gap);
    }
  }

  /** A call whose request meets a model in status `s`, with an agent that acts at once: a
      startable model is granted the start and runs after two steps, one that is STARTING
      runs after one, one that is STOPPING stops. */
  function PromptCall(s: ModelStatus): Call {
    var tick := (k: nat) => 5.0 * k as real;
    Call(Timeline((n: nat) => if n <= 2 then 0.0 else 5.0 * (n - 2) as real,
                  (n: nat) => if n == 0 then s
                              else if s == STOPPING then STOPPED
                              else if n == 1 && Startable(s) then STARTING
                              else RUNNING),
         Some(0), Startable(s), Replied,
         0.0, tick, (k: nat) => k + 2, (k: nat) => Replied, tick)
  }

  lemma PromptCallServesWell(s: ModelStatus, timeout: int)
    requires timeout >= 6
    ensures var c := PromptCall(s);
            c.Valid() && RoundsWithin(c, 5.0) && ServesWell(c, timeout, 5.0) && c.InBudget(timeout, 0)
  {
    var c := PromptCall(s);
    forall n: nat ensures c.AgentStep(n) {}
    forall k: nat ensures c.Round(k) {}
    forall k: nat ensures c.check(k + 1) - c.check(k) <= 5.0 {}
  }

  /** Both sides happen, for every timeout from six seconds on: a valid call whose request
      meets a STOPPING model fails although the agent serves well and the model is STOPPED
      before the first poll, and the same call meeting any other status succeeds. */
  lemma StoppingIsTheCulprit(s: ModelStatus, timeout: int)
    requires timeout >= 6
    ensures PromptCall(s).Valid() && ServesWell(PromptCall(s), timeout, 5.0)
    ensures PromptCall(s).agent.status(0) == s && PromptCall(s).request == Some(0)
    ensures Found(PromptCall(s), RUNNING, timeout) <==> s != STOPPING
  {
    PromptCallServesWell(s, timeout);
    SucceedsUnlessStopping(PromptCall(s), timeout, 5.0);
  }

  /** A start request to a model that is already RUNNING is not granted and moves nothing;
      while the model stays RUNNING, the call succeeds at its first poll with a reply. */
  lemma RunningModelIsLeftAlone(c: Call, timeout: int)
    requires c.Valid() && c.request.Some?
    requires forall n: nat :: n >= c.request.value ==> c.agent.status(n) == RUNNING
    ensures !c.granted
    ensures Found(c, RUNNING, timeout) <==> exists k: nat :: c.InBudget(timeout, k) && c.describe(k).Replied?
    ensures forall k: nat :: k + 1 < Polls(c, RUNNING, timeout) ==> !c.describe(k).Replied?
  {
    assert c.AgentStep(c.request.value);
    PollsProfile(c, RUNNING, timeout);
    forall k: nat ensures c.Hit(RUNNING, k) <==> c.describe(k).Replied? {
      assert c.Round(k);
    }
  }
}
