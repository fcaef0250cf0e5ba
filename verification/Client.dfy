/** The inference client: what it puts on the wire, what it hands back, and what it does
    to the shared segment. RPC outcomes are inputs; the log `wire` records every RPC
    attempted, with the image the agent can read at that moment. */
module Client {
  import opened Basics
  import opened AgentLifecycle
  import opened Polling
  import opened SharedMemory
  import opened Results

  const SHM_NAME := "/gstreamer-lookoutvision-bitmap"

  datatype BitmapData =
    | ByteData(bytes: Bytes)
    | SharedMemoryHandle(name: string, offset: nat, size: nat)

  datatype Bitmap = Bitmap(width: int32, height: int32, data: BitmapData)

  /** One RPC attempted on the channel to `socket`. */
  datatype Rpc =
    | StartModelRpc(socket: string, model: string)
    | DescribeModelRpc(socket: string, model: string, answer: Option<ModelStatus>)
    | DetectAnomaliesRpc(socket: string, model: string, bitmap: Bitmap, image: Bytes)

  /** How a DetectAnomalies RPC ends. The texts are whatever the library puts in them. */
  datatype DetectOutcome =
    | Detected(isAnomalous: bool, confidence: real)
    | DetectError(message: string)
    | DetectThrew(what: string)

  datatype OperationStatus = Started | NotStarted

  // ---------------------------------------------------------------- on values

  /** segment is None in a build that sends bitmaps inline. */
  datatype ClientState = ClientState(socket: string, segment: Option<Segment>, wire: seq<Rpc>)
  {
    ghost predicate Valid() {
      segment.Some? ==> segment.value.Valid()
    }
  }

  /** The bytes the agent takes the bitmap from. */
  function ImageSeen(data: BitmapData, segment: Option<Segment>): Bytes
    requires data.SharedMemoryHandle? ==> segment.Some? && data.offset + data.size <= |segment.value.bytes|
  {
    match data
    case ByteData(bytes) => bytes
    case SharedMemoryHandle(_, offset, size) => ReadHandle(segment.value, offset, size)
  }

  /** The first n polls of a call. */
  function DescribeTraffic(socket: string, model: string, c: Call, n: nat): seq<Rpc> {
    seq(n, k requires 0 <= k < n => DescribeModelRpc(socket, model, c.Answer(k)))
  }

  lemma DescribeTrafficGrows(socket: string, model: string, c: Call, n: nat)
    ensures DescribeTraffic(socket, model, c, n + 1) ==
            DescribeTraffic(socket, model, c, n) + [DescribeModelRpc(socket, model, c.Answer(n))]
  {}

  /** Everything one StartModel call sends: the start request once, then its polls. */
  ghost function StartTraffic(socket: string, model: string, c: Call, timeout: int): seq<Rpc>
    requires c.Valid()
  {
    [StartModelRpc(socket, model)] + DescribeTraffic(socket, model, c, Polls(c, RUNNING, timeout))
  }

  /** The k-th poll gets a reply, and the reply has status s. */
  predicate Says(c: Call, s: ModelStatus, k: nat) {
    c.describe(k).Replied? && c.agent.status(c.sample(k)) == s
  }

  /** The whole-second clock allows a k-th poll. */
  predicate InTime(c: Call, timeout: int, k: nat) {
    c.check(k).Floor - c.start.Floor < timeout
  }

  /** r is the RPC of the k-th poll: its answer is the status the agent reports, or none if
      there is no reply. */
  predicate IsPoll(r: Rpc, socket: string, model: string, c: Call, k: nat) {
    && r.DescribeModelRpc? && r.socket == socket && r.model == model
    && (r.answer.Some? <==> c.describe(k).Replied?)
    && (r.answer.Some? ==> r.answer.value == c.agent.status(c.sample(k)))
  }

  /** What a StartModel call leaves in the log: one start request, then polls, all of them in
      time, up to the first that says RUNNING or else until the time is up. */
  ghost predicate IsStartLog(log: seq<Rpc>, socket: string, model: string, c: Call, timeout: int) {
    var n := |log| - 1;
    && n >= 0 && log[0] == StartModelRpc(socket, model)
    && (forall j :: 1 <= j <= n ==> IsPoll(log[j], socket, model, c, j - 1))
    && (forall k: nat :: k < n ==> InTime(c, timeout, k))
    && (forall k: nat :: k < n - 1 ==> !Says(c, RUNNING, k))
    && ((n > 0 && Says(c, RUNNING, n - 1)) || !InTime(c, timeout, n))
  }

  /** Some poll in time gets a reply, and the reply has status s. */
  ghost predicate SomePollSays(c: Call, s: ModelStatus, timeout: int) {
    exists k: nat :: InTime(c, timeout, k) && Says(c, s, k)
  }

  lemma FoundMeans(c: Call, expected: ModelStatus, timeout: int)
    ensures Found(c, expected, timeout) <==> SomePollSays(c, expected, timeout)
  {
    forall k: nat ensures InTime(c, timeout, k) <==> c.InBudget(timeout, k) {}
    forall k: nat ensures Says(c, expected, k) <==> c.Hit(expected, k) {}
  }

  lemma StartTrafficIsLog(socket: string, model: string, c: Call, timeout: int)
    requires c.Valid()
    ensures IsStartLog(StartTraffic(socket, model, c, timeout), socket, model, c, timeout)
    ensures Found(c, RUNNING, timeout) <==> SomePollSays(c, RUNNING, timeout)
  {
    PollsProfile(c, RUNNING, timeout);
    var n := Polls(c, RUNNING, timeout);
    forall k: nat ensures InTime(c, timeout, k) <==> c.InBudget(timeout, k) {}
    forall k: nat ensures Says(c, RUNNING, k) <==> c.Hit(RUNNING, k) {}
  }

  ghost function AfterStart(s: ClientState, model: string, c: Call, timeout: int): ClientState
    requires c.Valid()
  {
    s.(wire := s.wire + StartTraffic(s.socket, model, c, timeout))
  }

  ghost function AfterDetect(s: ClientState, model: string, frame: Bytes, width: int32, height: int32): ClientState
    requires s.Valid()
  {
    var segment := if s.segment.None? then None else Some(Written(s.segment.value, frame));
    var data := if s.segment.None? then ByteData(frame) else SharedMemoryHandle(SHM_NAME, 0, |frame|);
    s.(segment := segment,
       wire := s.wire + [DetectAnomaliesRpc(s.socket, model, Bitmap(width, height, data), ImageSeen(data, segment))])
  }

  /** The result a DetectAnomalies call hands back. */
  function ResultOf(outcome: DetectOutcome): ResultValue {
    match outcome
    case Detected(isAnomalous, confidence) => ResultValue(isAnomalous, confidence, SUCCESSFUL, "")
    case DetectError(message) => ResultValue(false, 0.0, ResultStatus.FAILED, message)
    case DetectThrew(what) => ResultValue(false, 0.0, ResultStatus.FAILED, what)
  }

  /** In either build the agent reads exactly the frame. */
  lemma AgentSeesFrame(s: ClientState, model: string, frame: Bytes, width: int32, height: int32)
    requires s.Valid()
    ensures var t := AfterDetect(s, model, frame, width, height);
            t.Valid() && t.wire != [] && t.wire[|t.wire| - 1].DetectAnomaliesRpc? && t.wire[|t.wire| - 1].image == frame
  {
    if s.segment.Some? {
      WrittenValid(s.segment.value, frame);
    }
  }

  /** A successful call ends with a reply that says RUNNING; a failed one contains none. */
  lemma StartTrafficTellsOutcome(socket: string, model: string, c: Call, timeout: int)
    requires c.Valid()
    ensures var w := StartTraffic(socket, model, c, timeout);
            && (Found(c, RUNNING, timeout) ==>
                  |w| >= 2 && w[|w| - 1] == DescribeModelRpc(socket, model, Some(RUNNING)))
            && (!Found(c, RUNNING, timeout) ==> DescribeModelRpc(socket, model, Some(RUNNING)) !in w)
  {
    PollsProfile(c, RUNNING, timeout);
    if !Found(c, RUNNING, timeout) {
      var n := Polls(c, RUNNING, timeout);
      var w := StartTraffic(socket, model, c, timeout);
      forall i | 0 <= i < |w| ensures w[i] != DescribeModelRpc(socket, model, Some(RUNNING)) {
        if i > 0 {
          assert c.InBudget(timeout, i - 1);
          assert !c.Hit(RUNNING, i - 1);
        }
      }
    }
  }

  // ---------------------------------------------------------------- the object

  class InferenceClient {
    const shared: bool
    var serverSocket: string
    var shmFd: SharedObject?
    var shmSize: nat
    var shmData: nat
    ghost var wire: seq<Rpc>

    ghost function SegmentView(): Segment
      requires shmFd != null
      reads this, shmFd, shmFd.cells
    {
      Segment(shmFd.cells[..], shmSize, shmFd.created, shmFd.live, shmData)
    }

    /** The object behind the descriptor and its bytes. */
    ghost function Objects(): set<object>
      reads this, shmFd
    {
      if shmFd == null then {} else {shmFd as object, shmFd.cells as object}
    }

    ghost predicate Valid()
      reads this, Objects()
    {
      && (shared <==> shmFd != null)
      && (shmFd != null ==> shmFd.open && SegmentView().Valid())
    }

    ghost function View(): ClientState
      reads this, Objects()
    {
      ClientState(serverSocket, if shmFd == null then None else Some(SegmentView()), wire)
    }

    /** Construction when shm_open succeeds on an object holding `previous`. */
    constructor (socket: string, shared: bool, previous: Bytes)
      ensures Valid() && this.shared == shared
      ensures View() == ClientState(socket, if shared then Some(Opened(previous)) else None, [])
      ensures shmFd != null ==> fresh(shmFd) && fresh(shmFd.cells)
    {
      this.shared := shared;
      serverSocket, shmFd, shmSize, shmData, wire := socket, null, INITIAL_SIZE, 0, [];
      new;
      if shared {
        var fd := new SharedObject(previous);
        fd.Ftruncate(shmSize);
        shmData := fd.Mmap(shmSize);
        shmFd := fd;
        assert SegmentView() == Opened(previous);
      }
    }

    /** setupSHM throws when shm_open fails, so no client comes into being. */
    static method Create(socket: string, shared: bool, previous: Bytes, shmOpenOk: bool)
      returns (client: InferenceClient?)
      ensures client == null <==> shared && !shmOpenOk
      ensures client != null ==>
                && fresh(client) && client.Valid() && client.shared == shared && fresh(client.Objects())
                && client.View() == ClientState(socket, if shared then Some(Opened(previous)) else None, [])
    {
      if shared && !shmOpenOk {
        return null;
      }
      client := new InferenceClient(socket, shared, previous);
    }

    /** The destructor: the current mapping is removed, the descriptor closed and the name
        unlinked; the object's bytes and its other mappings stay. */
    method Destroy()
      requires Valid()
      modifies shmFd
      ensures old(shmFd) != null ==>
                && shmFd.live == Closed(old(SegmentView())).live
                && shmFd.created == old(shmFd.created) && shmFd.cells == old(shmFd.cells)
                && !shmFd.open && !shmFd.linked
    {
      if shmFd != null {
        shmFd.Munmap(shmData);
        shmFd.Close();
        shmFd.Unlink();
      }
    }

    method SetServerSocket(socket: string)
      requires Valid()
      modifies `serverSocket
      ensures Valid() && View() == old(View()).(socket := socket)
    {
      serverSocket := socket;
    }

    method WriteShm(buf: Bytes)
      requires Valid() && shmFd != null
      modifies `shmSize, `shmData, shmFd, shmFd.cells
      ensures Valid() && SegmentView() == Written(old(SegmentView()), buf)
      ensures shmFd.cells == old(shmFd.cells) || fresh(shmFd.cells)
    {
      if |buf| > shmSize {
        shmSize := |buf|;
        shmFd.Ftruncate(shmSize);
        shmData := shmFd.Mmap(shmSize);
      }
      shmFd.Memcpy(shmData, buf);
    }

    /** The caller deletes the result. */
    method DetectAnomalies(heap: ResultHeap, model: string, buf: Bytes, width: size_t, height: size_t,
                           outcome: DetectOutcome) returns (result: Result)
      requires Valid() && heap.Valid()
      modifies `shmSize, `shmData, `wire, Objects(), heap
      ensures Valid() && heap.Valid()
      ensures View() == AfterDetect(old(View()), model, buf, IntOfSize(width), IntOfSize(height))
      ensures fresh(Objects() - old(Objects()))
      ensures fresh(result) && result.Value() == ResultOf(outcome) && heap.live == old(heap.live) + {result}
      ensures result !in old(heap.live)
      ensures heap.allocations == old(heap.allocations) + 1 && heap.deletions == old(heap.deletions)
    {
      var data: BitmapData;
      if shmFd != null {
        WriteShm(buf);
        data := SharedMemoryHandle(SHM_NAME, 0, |buf|);
      } else {
        data := ByteData(buf);
      }
      var bitmap := Bitmap(IntOfSize(width), IntOfSize(height), data);
      wire := wire + [DetectAnomaliesRpc(serverSocket, model, bitmap, ImageSeen(data, View().segment))];
      match outcome {
        case Detected(isAnomalous, confidence) =>
          result := heap.New(ResultValue(isAnomalous, confidence, SUCCESSFUL, ""));
        case DetectError(message) =>
          result := heap.New(ResultValue(false, 0.0, ResultStatus.FAILED, message));
        case DetectThrew(what) =>
          result := heap.New(ResultValue(false, 0.0, ResultStatus.FAILED, what));
      }
    }

    /** The k-th DescribeModel of a call: a status if the RPC replies, otherwise none. */
    method GetModelStatus(model: string, c: Call, k: nat) returns (status: Option<ModelStatus>)
      modifies `wire
      ensures status == c.Answer(k)
      ensures status.Some? <==> c.describe(k).Replied?
      ensures status.Some? ==> status.value == c.agent.status(c.sample(k))
      ensures wire == old(wire) + [DescribeModelRpc(serverSocket, model, status)]
    {
      match c.describe(k) {
        case Replied => status := Some(c.agent.status(c.sample(k)));
        case ErrorStatus => status := None;
        case Threw => status := None;
      }
      wire := wire + [DescribeModelRpc(serverSocket, model, status)];
    }

    /** Polls until the status is as expected or the whole-second clock says stop. */
    method WaitForModelStatusWithTimeout(model: string, expected: ModelStatus, timeout: int, c: Call)
      returns (found: bool)
      requires c.Valid()
      modifies `wire
      ensures found <==> Found(c, expected, timeout)
      ensures found <==> SomePollSays(c, expected, timeout)
      ensures wire == old(wire) + DescribeTraffic(serverSocket, model, c, Polls(c, expected, timeout))
    {
      var startTime := c.start.Floor;
      var k: nat := 0;
      while c.check(k).Floor - startTime < timeout
        invariant k + PollsFrom(c, expected, timeout, k) == Polls(c, expected, timeout)
        invariant forall j: nat :: j < k ==> !c.Hit(expected, j)
        invariant wire == old(wire) + DescribeTraffic(serverSocket, model, c, k)
        decreases Left(c, timeout, k)
      {
        var status := GetModelStatus(model, c, k);
        DescribeTrafficGrows(serverSocket, model, c, k);
        if status == Some(expected) {
          FoundMeans(c, expected, timeout);
          return true;
        }
        LeftDecreases(c, timeout, k);
        k := k + 1;
      }
      NotFoundBefore(c, expected, timeout, k);
      FoundMeans(c, expected, timeout);
      return false;
    }

    /** The start request is made once; only the polls decide the outcome. */
    method StartModel(model: string, timeout: int, c: Call) returns (status: OperationStatus)
      requires c.Valid()
      modifies `wire
      ensures status.Started? <==> Found(c, RUNNING, timeout)
      ensures wire == old(wire) + StartTraffic(serverSocket, model, c, timeout)
      ensures status.Started? <==> SomePollSays(c, RUNNING, timeout)
      ensures IsStartLog(wire[|old(wire)|..], serverSocket, model, c, timeout)
    {
      wire := wire + [StartModelRpc(serverSocket, model)];
      match c.startRpc {
        case Replied =>
        case ErrorStatus =>
        case Threw =>
      }
      var found := WaitForModelStatusWithTimeout(model, RUNNING, timeout, c);
      StartTrafficIsLog(serverSocket, model, c, timeout);
      assert wire[|old(wire)|..] == StartTraffic(serverSocket, model, c, timeout);
      return if found then Started else NotStarted;
    }
  }
}
