/** What a trace puts out: buffers pushed on and publications attempted, and what all of it
    leaves in the segment and on the free store. The bytes are told from the trace alone;
    results and publications from each event and the state it meets, which module History
    tells from the trace. */
module Streams {
  import opened Basics
  import opened AgentLifecycle
  import opened Polling
  import opened SharedMemory
  import opened Results
  import opened Metadata
  import opened Client
  import opened Protocol
  import opened History

  /** The values of a sequence of optional values, in order. */
  function Collect<T>(s: seq<Option<T>>): seq<T> {
    if s == [] then []
    else Collect(s[..|s| - 1]) + match s[|s| - 1] { case None => [] case Some(x) => [x] }
  }

  lemma CollectGrows<T>(s: seq<Option<T>>, o: Option<T>)
    ensures Collect(s + [o]) == Collect(s) + match o { case None => [] case Some(x) => [x] }
  {
    assert (s + [o])[..|s|] == s;
  }

  // ---------------------------------------------------------------- frames

  /** Event e sends buffer b of the pool through the element. */
  predicate Sends(s: State, e: Event) {
    e.Frame? && e.buffer < |s.meta.pool|
  }

  /** The buffer as it leaves the element at event e, told from the state before: whatever
      it carried, with one more result where GStreamer puts it, unless no meta could be had. */
  function Delivery(cfg: Config, s: State, e: Event): Option<BufferView> {
    if !Sends(s, e) then None
    else
      var b := s.meta.pool[e.buffer];
      var own := MetaView(|s.meta.attached|, ResultFor(s.element, e.rpc));
      Some(if e.metaOk then BufferView(b.bytes, Inserted(cfg.appends, b.metas, own)) else b)
  }

  /** The publication attempted at event e. */
  function Attempt(cfg: Config, s: State, e: Event): Option<Publication> {
    var d := Delivery(cfg, s, e);
    if d.Some? then PublicationOf(s.sink.topic, d.value) else None
  }

  /** The result first handed to a buffer at event e, by this element or another producer. */
  function Attachment(s: State, e: Event): Option<ResultValue> {
    if Sends(s, e) then Some(ResultFor(s.element, e.rpc))
    else if e.Attach? && e.buffer < |s.meta.pool| then Some(e.value)
    else None
  }

  ghost function Deliveries(cfg: Config, t: seq<Event>): seq<Option<BufferView>> {
    seq(|t|, i requires 0 <= i < |t| => Delivery(cfg, Before(cfg, t, i), t[i]))
  }

  ghost function Attempts(cfg: Config, t: seq<Event>): seq<Option<Publication>> {
    seq(|t|, i requires 0 <= i < |t| => Attempt(cfg, Before(cfg, t, i), t[i]))
  }

  ghost function Attachments(cfg: Config, t: seq<Event>): seq<Option<ResultValue>> {
    seq(|t|, i requires 0 <= i < |t| => Attachment(Before(cfg, t, i), t[i]))
  }

  lemma StreamsGrow(cfg: Config, t: seq<Event>)
    requires t != []
    ensures var p, e := t[..|t| - 1], t[|t| - 1];
            var s := Run(cfg, p);
            && Deliveries(cfg, t) == Deliveries(cfg, p) + [Delivery(cfg, s, e)]
            && Attempts(cfg, t) == Attempts(cfg, p) + [Attempt(cfg, s, e)]
            && Attachments(cfg, t) == Attachments(cfg, p) + [Attachment(s, e)]
  {
    hide Step;
    BeforeInPrefix(cfg, t, |t| - 1);
  }

  lemma StepStreams(cfg: Config, s: State, e: Event)
    requires s.client.Valid()
    ensures var u := Step(cfg, s, e);
            && u.sink.delivered == s.sink.delivered + Collect([Delivery(cfg, s, e)])
            && u.sink.published == s.sink.published + Collect([Attempt(cfg, s, e)])
            && u.meta.attached == s.meta.attached + Collect([Attachment(s, e)])
  {}

  /** End to end, for every trace: the buffers pushed on are those of the frame events, in
      order and each exactly once, carrying their results; the publications attempted are
      the in-order images of the deliveries whose first result is SUCCESSFUL; the results
      attached are those of the frames and of the other producers, in order. */
  lemma {:induction false} OutputStreams(cfg: Config, t: seq<Event>)
    ensures var s := Run(cfg, t);
            && s.sink.delivered == Collect(Deliveries(cfg, t))
            && s.sink.published == Collect(Attempts(cfg, t))
            && s.meta.attached == Collect(Attachments(cfg, t))
  {
    if t != [] {
      var p, e := t[..|t| - 1], t[|t| - 1];
      OutputStreams(cfg, p);
      var s := Run(cfg, p);
      StreamsGrow(cfg, t);
      StepStreams(cfg, s, e);
      CollectGrows(Deliveries(cfg, p), Delivery(cfg, s, e));
      CollectGrows(Attempts(cfg, p), Attempt(cfg, s, e));
      CollectGrows(Attachments(cfg, p), Attachment(s, e));
    }
  }

  /** The result of a frame is SUCCESSFUL exactly if a model is in place and the RPC got a
      reply, and then it holds the values of that reply. */
  lemma ResultIsReply(e: ElementState, rpc: DetectOutcome)
    ensures var r := ResultFor(e, rpc);
            && (r.status.SUCCESSFUL? <==> e.model.Some? && rpc.Detected?)
            && (r.status.SUCCESSFUL? ==> r == ResultValue(rpc.isAnomalous, rpc.confidence, SUCCESSFUL, ""))
            && (r.status.FAILED? ==>
                  && !r.isAnomalous && r.confidence == 0.0
                  && r.errorMessage == if e.model.None? then "No value set for model-component"
                                       else if rpc.DetectError? then rpc.message else rpc.what)
  {}

  // ---------------------------------------------------------------- metadata

  function Sum(pool: seq<BufferView>): nat {
    if pool == [] then 0 else Sum(pool[..|pool| - 1]) + |pool[|pool| - 1].metas|
  }

  lemma {:induction false} SumUpdate(pool: seq<BufferView>, b: nat, v: BufferView)
    requires b < |pool|
    ensures Sum(pool[b := v]) + |pool[b].metas| == Sum(pool) + |v.metas|
  {
    var n := |pool| - 1;
    if b < n {
      SumUpdate(pool[..n], b, v);
      assert pool[b := v][..n] == pool[..n][b := v];
    } else {
      assert pool[b := v][..n] == pool[..n];
    }
  }

  /** Every meta in the pool holds the result it was attached with, or copied from. */
  ghost predicate Faithful(m: MetaState) {
    forall b, k :: 0 <= b < |m.pool| && 0 <= k < |m.pool[b].metas| ==>
      var v := m.pool[b].metas[k];
      v.origin < |m.attached| && v.value == m.attached[v.origin]
  }

  /** Between events the free store holds one result per meta in the pool, no more. */
  ghost predicate Balanced(m: MetaState) {
    m.allocations == m.deletions + Sum(m.pool)
  }

  lemma AddedKeeps(appends: bool, m: MetaState, b: nat, v: MetaView)
    requires b < |m.pool| && Faithful(m) && v.origin < |m.attached| && v.value == m.attached[v.origin]
    ensures Faithful(m.(pool := PoolAdded(appends, m.pool, b, v)))
    ensures Sum(PoolAdded(appends, m.pool, b, v)) == Sum(m.pool) + 1
  {
    SumUpdate(m.pool, b, m.pool[b].(metas := Inserted(appends, m.pool[b].metas, v)));
  }

  lemma AttachedKeeps(appends: bool, m: MetaState, b: nat, value: ResultValue, metaOk: bool)
    requires b < |m.pool| && Faithful(m) && Balanced(m)
    ensures Faithful(Attached(appends, m, b, value, metaOk)) && Balanced(Attached(appends, m, b, value, metaOk))
  {
    AddedKeeps(appends, m.(attached := m.attached + [value]), b, MetaView(|m.attached|, value));
  }

  lemma FreedKeeps(m: MetaState, b: nat, pos: nat)
    requires Faithful(m) && Balanced(m)
    ensures Faithful(Freed(m, b, pos)) && Balanced(Freed(m, b, pos))
  {
    if b < |m.pool| && pos < |m.pool[b].metas| {
      SumUpdate(m.pool, b, m.pool[b].(metas := Without(m.pool[b].metas, pos)));
    }
  }

  lemma StepKeepsMetadata(cfg: Config, s: State, e: Event)
    requires s.client.Valid() && Faithful(s.meta) && Balanced(s.meta)
    ensures Faithful(Step(cfg, s, e).meta) && Balanced(Step(cfg, s, e).meta)
  {
    var m := s.meta;
    match e {
      case Arrive(bytes) =>
        assert Arrived(m, bytes).pool[..|m.pool|] == m.pool;
      case Attach(b, value, metaOk) =>
        if b < |m.pool| { AttachedKeeps(cfg.appends, m, b, value, metaOk); }
      case CopyMeta(dest, b, pos, metaOk) =>
        if dest < |m.pool| && b < |m.pool| && pos < |m.pool[b].metas| {
          AddedKeeps(cfg.appends, m, dest, m.pool[b].metas[pos]);
        }
      case FreeMeta(b, pos) =>
        FreedKeeps(m, b, pos);
      case Frame(b, rpc, metaOk, _, _) =>
        if b < |m.pool| { AttachedKeeps(cfg.appends, m, b, ResultFor(s.element, rpc), metaOk); }
      case _ =>
    }
  }

  /** However adding, copying and freeing interleave: each meta keeps the result originally
      attached, and allocations and deletions differ by exactly the metas in the pool. */
  lemma {:induction false} MetadataConserved(cfg: Config, t: seq<Event>)
    ensures Faithful(Run(cfg, t).meta) && Balanced(Run(cfg, t).meta)
  {
    if t != [] {
      MetadataConserved(cfg, t[..|t| - 1]);
      StepKeepsMetadata(cfg, Run(cfg, t[..|t| - 1]), t[|t| - 1]);
    }
  }

  /** Freeing the newest meta of a buffer undoes its addition. */
  lemma FreeUndoesAdd(appends: bool, pool: seq<BufferView>, b: nat, m: MetaView)
    requires b < |pool|
    ensures PoolFreed(PoolAdded(appends, pool, b, m), b, if appends then |pool[b].metas| else 0) == pool
  {
    var pos := if appends then |pool[b].metas| else 0;
    assert Without(Inserted(appends, pool[b].metas, m), pos) == pool[b].metas;
  }

  /** The publisher reads the first meta of a buffer. That is the result of the element just
      upstream if and only if a meta could be had and either the list grows at its head or
      the buffer arrived without inference metadata. */
  lemma PublisherReadsOwnResult(cfg: Config, t: seq<Event>, i: nat)
    requires i < |t| && Sends(Before(cfg, t, i), t[i])
    ensures var s := Before(cfg, t, i);
            var d := Delivery(cfg, s, t[i]).value;
            d.metas != [] && d.metas[0].origin == |s.meta.attached| <==>
              t[i].metaOk && (!cfg.appends || s.meta.pool[t[i].buffer].metas == [])
  {
    MetadataConserved(cfg, t[..i]);
  }

  /** A run in which the publisher reads the wrong result: another producer has attached a
      SUCCESSFUL one, the list grows at its tail, and the element, which has no model, adds
      its FAILED one behind it. The other producer's result is published. */
  lemma ForeignResultPublished(cfg: Config) returns (t: seq<Event>)
    requires cfg.appends
    ensures |t| == 3 && Sends(Before(cfg, t, 2), t[2]) && t[2].metaOk
    ensures ResultFor(Before(cfg, t, 2).element, t[2].rpc) == NO_MODEL
    ensures Run(cfg, t).sink.published == [Publication(DEFAULT_TOPIC, true, 1.0)]
  {
    t := [Arrive([]),
          Attach(0, ResultValue(true, 1.0, SUCCESSFUL, ""), true),
          Frame(0, DetectError(""), true, PublishOk, FlowOk)];
    assert t[..0] == [] && t[..3] == t;
    StepAt(cfg, t, 0);
    StepAt(cfg, t, 1);
    StepAt(cfg, t, 2);
  }

  /** Metas can be had, and either they are added at the head of a buffer's list or buffers
      reach the element without inference metadata: by PublisherReadsOwnResult, exactly the
      runs in which every frame sent is published from its own result. */
  ghost predicate OwnResultsRead(cfg: Config, t: seq<Event>) {
    forall i: nat :: i < |t| && Sends(Before(cfg, t, i), t[i]) ==>
      t[i].metaOk && (!cfg.appends || Before(cfg, t, i).meta.pool[t[i].buffer].metas == [])
  }

  /** The reply of a frame's RPC, with a model in place, on the topic then in force. */
  function ReplyPublication(s: State, e: Event): Option<Publication> {
    if Sends(s, e) && s.element.model.Some? && e.rpc.Detected?
    then Some(Publication(s.sink.topic, e.rpc.isAnomalous, e.rpc.confidence))
    else None
  }

  ghost function ReplyPublications(cfg: Config, t: seq<Event>): seq<Option<Publication>> {
    seq(|t|, i requires 0 <= i < |t| => ReplyPublication(Before(cfg, t, i), t[i]))
  }

  /** Then the publications are the in-order images of the successful replies, and nothing
      else. The pipeline of the sample application is such a run. */
  lemma PublishedReplies(cfg: Config, t: seq<Event>)
    requires OwnResultsRead(cfg, t)
    ensures Run(cfg, t).sink.published == Collect(ReplyPublications(cfg, t))
  {
    OutputStreams(cfg, t);
    forall i: nat | i < |t| ensures Attempts(cfg, t)[i] == ReplyPublications(cfg, t)[i] {
      var s := Before(cfg, t, i);
      if Sends(s, t[i]) {
        ResultIsReply(s.element, t[i].rpc);
      }
    }
    assert Attempts(cfg, t) == ReplyPublications(cfg, t);
  }

  // ---------------------------------------------------------------- results of frames

  lemma {:induction false} DeliveredExtends(cfg: Config, t: seq<Event>, i: nat)
    requires i <= |t|
    ensures Before(cfg, t, i).sink.delivered <= Run(cfg, t).sink.delivered
  {
    hide Step;
    if i < |t| {
      var n := |t| - 1;
      DeliveredExtends(cfg, t[..n], i);
      assert t[..n][..i] == t[..i];
      StepStreams(cfg, Run(cfg, t[..n]), t[n]);
    } else {
      assert t[..i] == t;
    }
  }

  /** r is the result event i owes its frame, told from the trace: SUCCESSFUL exactly if some
      earlier set of a model had a successful StartModel and the RPC got a reply, and then
      with the values of that reply; otherwise blank but for the reason. */
  ghost predicate IsOwed(cfg: Config, t: seq<Event>, i: nat, r: ResultValue)
    requires i < |t| && t[i].Frame?
  {
    var modelSet := ModelSetBefore(cfg, t, i);
    var rpc := t[i].rpc;
    && (r.status.SUCCESSFUL? <==> modelSet && rpc.Detected?)
    && (r.status.SUCCESSFUL? ==> r == ResultValue(rpc.isAnomalous, rpc.confidence, SUCCESSFUL, ""))
    && (r.status.FAILED? ==>
          && !r.isAnomalous && r.confidence == 0.0
          && (!modelSet ==> r.errorMessage == "No value set for model-component")
          && (modelSet && rpc.DetectError? ==> r.errorMessage == rpc.message)
          && (modelSet && rpc.DetectThrew? ==> r.errorMessage == rpc.what))
  }

  lemma ResultIsOwed(cfg: Config, t: seq<Event>, i: nat)
    requires i < |t| && t[i].Frame?
    ensures IsOwed(cfg, t, i, ResultFor(Before(cfg, t, i).element, t[i].rpc))
  {
    hide Step;
    ModelInPlace(cfg, t, i);
    ResultIsReply(Before(cfg, t, i).element, t[i].rpc);
  }

  /** Whatever comes after, the buffer a frame event pushed on carries one result under a
      number of its own, and that is the result the event owes its frame. */
  lemma FrameResult(cfg: Config, t: seq<Event>, i: nat)
    requires i < |t| && Sends(Before(cfg, t, i), t[i]) && t[i].metaOk
    ensures var k, own := |Before(cfg, t, i).sink.delivered|, |Before(cfg, t, i).meta.attached|;
            var delivered := Run(cfg, t).sink.delivered;
            && k < |delivered|
            && (exists p :: 0 <= p < |delivered[k].metas| && delivered[k].metas[p].origin == own)
            && (forall p :: 0 <= p < |delivered[k].metas| && delivered[k].metas[p].origin == own ==>
                  IsOwed(cfg, t, i, delivered[k].metas[p].value))
  {
    hide Step;
    var s := Before(cfg, t, i);
    StepAt(cfg, t, i);
    StepStreams(cfg, s, t[i]);
    DeliveredExtends(cfg, t, i + 1);
    MetadataConserved(cfg, t[..i]);
    ResultIsOwed(cfg, t, i);
    var d := Run(cfg, t).sink.delivered[|s.sink.delivered|];
    var m := s.meta.pool[t[i].buffer].metas;
    var own := MetaView(|s.meta.attached|, ResultFor(s.element, t[i].rpc));
    assert d.metas == Inserted(cfg.appends, m, own);
    assert d.metas[if cfg.appends then |m| else 0] == own;
    hide IsOwed;
  }

  // ---------------------------------------------------------------- bytes

  function ArrivalIn(e: Event): Option<Bytes> {
    if e.Arrive? then Some(e.bytes) else None
  }

  /** The bytes of all buffers that arrived, in order. */
  function Arrivals(t: seq<Event>): seq<Bytes> {
    Collect(Told(t, ArrivalIn))
  }

  lemma ArrivalsGrow(t: seq<Event>)
    requires t != []
    ensures var p, e := t[..|t| - 1], t[|t| - 1];
            Arrivals(t) == Arrivals(p) + if e.Arrive? then [e.bytes] else []
  {
    ToldGrows(t, ArrivalIn);
    CollectGrows(Told(t[..|t| - 1], ArrivalIn), ArrivalIn(t[|t| - 1]));
  }

  /** The frame event e sends: the bytes its buffer arrived with, if it has arrived. */
  function FrameIn(e: Event, arrived: seq<Bytes>): Option<Bytes> {
    if e.Frame? && e.buffer < |arrived| then Some(arrived[e.buffer]) else None
  }

  function FramesSent(t: seq<Event>): seq<Option<Bytes>> {
    seq(|t|, i requires 0 <= i < |t| => FrameIn(t[i], Arrivals(t[..i])))
  }

  lemma FramesSentGrow(t: seq<Event>)
    requires t != []
    ensures var p, e := t[..|t| - 1], t[|t| - 1];
            FramesSent(t) == FramesSent(p) + [FrameIn(e, Arrivals(p))]
  {
    hide Arrivals;
    var p := t[..|t| - 1];
    assert forall i :: 0 <= i < |p| ==> p[..i] == t[..i] && p[i] == t[i];
  }

  ghost predicate HasBytes(buffers: seq<BufferView>, bytes: seq<Bytes>) {
    |buffers| == |bytes| && forall b :: 0 <= b < |buffers| ==> buffers[b].bytes == bytes[b]
  }

  lemma BytesAfter(cfg: Config, s: State, e: Event, arrived: seq<Bytes>, sent: seq<Bytes>)
    requires s.client.Valid() && HasBytes(s.meta.pool, arrived) && HasBytes(s.sink.delivered, sent)
    ensures HasBytes(Step(cfg, s, e).meta.pool, arrived + if e.Arrive? then [e.bytes] else [])
    ensures HasBytes(Step(cfg, s, e).sink.delivered,
                     sent + match FrameIn(e, arrived) { case None => [] case Some(x) => [x] })
  {
    StepBytes(cfg, s, e);
    hide Step;
  }

  /** Told from the trace alone: the pool holds the bytes that arrived, in order, and the
      frames pushed on are the bytes of the buffers sent, in order, none altered. */
  lemma {:induction false} BytesHistory(cfg: Config, t: seq<Event>)
    ensures HasBytes(Run(cfg, t).meta.pool, Arrivals(t))
    ensures HasBytes(Run(cfg, t).sink.delivered, Collect(FramesSent(t)))
  {
    if t != [] {
      hide Step;
      hide HasBytes;
      var p, e := t[..|t| - 1], t[|t| - 1];
      BytesHistory(cfg, p);
      BytesAfter(cfg, Run(cfg, p), e, Arrivals(p), Collect(FramesSent(p)));
      ArrivalsGrow(t);
      FramesSentGrow(t);
      CollectGrows(FramesSent(p), FrameIn(e, Arrivals(p)));
    }
  }

  // ---------------------------------------------------------------- independence

  /** Two traces in which the same buffers arrive and the same buffers are sent, whatever
      else happens and however RPCs and publications end. */
  predicate SameFrames(t: seq<Event>, u: seq<Event>) {
    && |t| == |u|
    && forall i :: 0 <= i < |t| ==>
         && (t[i].Arrive? <==> u[i].Arrive?)
         && (t[i].Arrive? ==> t[i].bytes == u[i].bytes)
         && (t[i].Frame? <==> u[i].Frame?)
         && (t[i].Frame? ==> t[i].buffer == u[i].buffer)
  }

  ghost predicate SameBytes(p: seq<BufferView>, q: seq<BufferView>) {
    |p| == |q| && forall i :: 0 <= i < |p| ==> p[i].bytes == q[i].bytes
  }

  lemma StepBytes(cfg: Config, s: State, e: Event)
    requires s.client.Valid()
    ensures var u := Step(cfg, s, e);
            && SameBytes(u.meta.pool, if e.Arrive? then s.meta.pool + [BufferView(e.bytes, [])] else s.meta.pool)
            && SameBytes(u.sink.delivered,
                         if Sends(s, e) then s.sink.delivered + [s.meta.pool[e.buffer]] else s.sink.delivered)
  {}

  /** No RPC outcome, publish outcome, property or metadata event, and neither build, drops,
      repeats, reorders or alters a frame. */
  lemma {:induction false} FramesIndependent(c1: Config, c2: Config, t: seq<Event>, u: seq<Event>)
    requires SameFrames(t, u)
    ensures SameBytes(Run(c1, t).meta.pool, Run(c2, u).meta.pool)
    ensures SameBytes(Run(c1, t).sink.delivered, Run(c2, u).sink.delivered)
  {
    if t != [] {
      var n := |t| - 1;
      FramesIndependent(c1, c2, t[..n], u[..n]);
      StepBytes(c1, Run(c1, t[..n]), t[n]);
      StepBytes(c2, Run(c2, u[..n]), u[n]);
    }
  }

  /** Two RPCs that differ at most in how the bitmap travels. */
  predicate SameRpc(r: Rpc, q: Rpc) {
    || r == q
    || (&& r.DetectAnomaliesRpc? && q.DetectAnomaliesRpc?
        && r.socket == q.socket && r.model == q.model && r.image == q.image
        && r.bitmap.width == q.bitmap.width && r.bitmap.height == q.bitmap.height)
  }

  ghost predicate SameWire(w: seq<Rpc>, v: seq<Rpc>) {
    |w| == |v| && forall i :: 0 <= i < |w| ==> SameRpc(w[i], v[i])
  }

  ghost predicate SameButTransport(s: State, u: State) {
    && s.element == u.element && s.meta == u.meta && s.sink == u.sink
    && s.client.socket == u.client.socket && SameWire(s.client.wire, u.client.wire)
  }

  lemma StepSameButTransport(c1: Config, c2: Config, s: State, u: State, e: Event)
    requires c1.appends == c2.appends && s.client.Valid() && u.client.Valid() && SameButTransport(s, u)
    ensures SameButTransport(Step(c1, s, e), Step(c2, u, e))
  {
    hide StartTraffic;
    hide Attached;
    hide Copied;
    hide Freed;
    if Sends(s, e) && s.element.model.Some? {
      var frame := s.meta.pool[e.buffer].bytes;
      AgentSeesFrame(s.client, s.element.model.value, frame, s.element.width, s.element.height);
      AgentSeesFrame(u.client, u.element.model.value, frame, u.element.width, u.element.height);
    }
  }

  /** Shared memory refines inline bytes: over every trace the two builds send the same RPCs
      with the same images, whatever the segment held before, and put out the same. */
  lemma {:induction false} SharedMemoryRefinesInline(c1: Config, c2: Config, t: seq<Event>)
    requires c1.appends == c2.appends
    ensures SameButTransport(Run(c1, t), Run(c2, t))
  {
    if t != [] {
      var p := t[..|t| - 1];
      SharedMemoryRefinesInline(c1, c2, p);
      StepSameButTransport(c1, c2, Run(c1, p), Run(c2, p), t[|t| - 1]);
    }
  }

  // ---------------------------------------------------------------- the segment

  /** The frame written to the segment at event e: only frames sent with a model in place. */
  function FrameWritten(s: State, e: Event): Option<Bytes> {
    if Sends(s, e) && s.element.model.Some? then Some(s.meta.pool[e.buffer].bytes) else None
  }

  ghost function FramesWritten(cfg: Config, t: seq<Event>): seq<Option<Bytes>> {
    seq(|t|, i requires 0 <= i < |t| => FrameWritten(Before(cfg, t, i), t[i]))
  }

  lemma StepSegment(cfg: Config, s: State, e: Event)
    requires s.client.Valid() && s.client.segment.Some?
    ensures var f := FrameWritten(s, e);
            Step(cfg, s, e).client.segment ==
            Some(if f.Some? then Written(s.client.segment.value, f.value) else s.client.segment.value)
  {}

  lemma FramesWrittenGrow(cfg: Config, t: seq<Event>)
    requires t != []
    ensures var p, e := t[..|t| - 1], t[|t| - 1];
            FramesWritten(cfg, t) == FramesWritten(cfg, p) + [FrameWritten(Run(cfg, p), e)]
  {
    hide Step;
    BeforeInPrefix(cfg, t, |t| - 1);
  }

  lemma SegmentAfter(cfg: Config, s: State, e: Event, frames: seq<Option<Bytes>>)
    requires s.client.Valid()
    requires s.client.segment == Some(WrittenAll(Opened(cfg.previous), Collect(frames)))
    ensures Step(cfg, s, e).client.segment ==
            Some(WrittenAll(Opened(cfg.previous), Collect(frames + [FrameWritten(s, e)])))
  {
    StepSegment(cfg, s, e);
    var f := FrameWritten(s, e);
    CollectGrows(frames, f);
    if f.Some? {
      WrittenAllGrows(Opened(cfg.previous), Collect(frames), f.value);
    } else {
      assert Collect(frames) + [] == Collect(frames);
    }
  }

  /** After any trace the segment is what the frames sent with a model made of it. */
  lemma {:induction false} SegmentHistory(cfg: Config, t: seq<Event>)
    requires cfg.shared
    ensures Run(cfg, t).client.segment == Some(WrittenAll(Opened(cfg.previous), Collect(FramesWritten(cfg, t))))
  {
    if t != [] {
      var p := t[..|t| - 1];
      SegmentHistory(cfg, p);
      SegmentAfter(cfg, Run(cfg, p), t[|t| - 1], FramesWritten(cfg, p));
      FramesWrittenGrow(cfg, t);
    }
  }

  /** So over any trace the segment is as long as the longest frame sent with a model, and
      deleting the client afterwards leaves one mapping behind per record among them: none
      if and only if none of them was longer than the initial size. */
  lemma SegmentAccounts(cfg: Config, t: seq<Event>)
    requires cfg.shared
    ensures var frames, segment := Collect(FramesWritten(cfg, t)), Run(cfg, t).client.segment;
            && segment.Some?
            && Accounts(segment.value, frames)
            && |Closed(segment.value).live| == |Records(frames)|
            && (segment.value.created == [11059200] <==> forall j :: 0 <= j < |frames| ==> |frames[j]| <= 11059200)
            && (Closed(segment.value).live == {} <==> forall j :: 0 <= j < |frames| ==> |frames[j]| <= 11059200)
  {
    SegmentHistory(cfg, t);
    HighWaterMark(cfg.previous, Collect(FramesWritten(cfg, t)));
    LeakedMappings(cfg.previous, Collect(FramesWritten(cfg, t)));
    NeverMappedAgain(cfg.previous, Collect(FramesWritten(cfg, t)));
  }

  lemma ModelThenFrame(cfg: Config, t: seq<Event>, frame: Bytes)
    requires |t| == 3
    requires t[0].SetModel? && Found(t[0].call, RUNNING, DEFAULT_TIMEOUT)
    requires t[1] == Arrive(frame) && t[2].Frame? && t[2].buffer == 0
    ensures FramesWritten(cfg, t) == [None, None, Some(frame)]
  {
    assert t[..0] == [];
    StepAt(cfg, t, 0);
    StepAt(cfg, t, 1);
    assert Before(cfg, t, 2).element.model == Some(t[0].name);
    assert Before(cfg, t, 2).meta.pool == [BufferView(frame, [])];
  }

  lemma LastAlone<T>(x: T)
    ensures Collect([None, None, Some(x)]) == [x]
  {
    CollectGrows<T>([], None);
    CollectGrows<T>([None], None);
    CollectGrows<T>([None, None], Some(x));
    var written: seq<Option<T>> := [None, None, Some(x)];
    assert written == [None, None] + [Some(x)] && written[..2] == [None] + [None] && written[..1] == [] + [None];
  }

  /** A run that leaks: a model is started, and one frame longer than the initial size is
      sent; deleting the client leaves the first mapping in place. */
  lemma LeakingRun(cfg: Config, frame: Bytes) returns (t: seq<Event>)
    requires cfg.shared && |frame| > 11059200
    ensures |t| == 3 && t[1] == Arrive(frame)
    ensures Run(cfg, t).client.segment.Some? && Closed(Run(cfg, t).client.segment.value).live == {0}
  {
    StoppingIsTheCulprit(STOPPED, DEFAULT_TIMEOUT);
    t := [SetModel("model", PromptCall(STOPPED)), Arrive(frame),
          Frame(0, Detected(false, 0.0), true, PublishOk, FlowOk)];
    ModelThenFrame(cfg, t, frame);
    hide Step;
    hide Written;
    LastAlone(frame);
    SegmentHistory(cfg, t);
    OneLongFrameLeaks(cfg.previous, frame);
  }
}
