/** What events do to the metadata on buffers, buffer by buffer and position by position, and
    what the publisher makes of it; then what becomes of a meta over a run. */
module MetaHistory {
  import opened Basics
  import opened Results
  import opened Metadata
  import opened Protocol
  import opened History
  import opened Streams

  // ---------------------------------------------------------------- one event

  /** q is p apart from the metas of buffer b. */
  ghost predicate SameBut(p: seq<BufferView>, q: seq<BufferView>, b: nat) {
    && |q| == |p|
    && (forall d :: 0 <= d < |p| && d != b ==> q[d] == p[d])
    && (b < |p| ==> q[b].bytes == p[b].bytes)
  }

  /** q is p with m behind it, or in older releases of GStreamer before it. */
  ghost predicate Gains(appends: bool, p: seq<MetaView>, q: seq<MetaView>, m: MetaView) {
    && |q| == |p| + 1
    && (if appends
        then q[|p|] == m && forall k :: 0 <= k < |p| ==> q[k] == p[k]
        else q[0] == m && forall k :: 1 <= k < |q| ==> q[k] == p[k - 1])
  }

  /** q is p without the meta at position pos, the others in order. */
  ghost predicate Loses(p: seq<MetaView>, q: seq<MetaView>, pos: nat) {
    && |q| == |p| - 1
    && forall k :: 0 <= k < |q| ==> q[k] == p[if k < pos then k else k + 1]
  }

  /** Event e names a meta that is there. */
  predicate Names(p: seq<BufferView>, e: Event) {
    && (e.CopyMeta? || e.FreeMeta?) && e.buffer < |p| && e.pos < |p[e.buffer].metas|
    && (e.CopyMeta? ==> e.dest < |p|)
  }

  /** Event e hands a new result to a buffer that is there. */
  predicate Hands(p: seq<BufferView>, e: Event) {
    (e.Attach? || e.Frame?) && e.buffer < |p|
  }

  /** How event e turns the pool p into q; `own` is the meta of a result newly handed over. */
  ghost predicate PoolMoves(appends: bool, p: seq<BufferView>, e: Event, own: MetaView, q: seq<BufferView>) {
    if e.Arrive? then
      && |q| == |p| + 1 && q[|p|].bytes == e.bytes && q[|p|].metas == []
      && forall d :: 0 <= d < |p| ==> q[d] == p[d]
    else if Hands(p, e) && e.metaOk then
      SameBut(p, q, e.buffer) && Gains(appends, p[e.buffer].metas, q[e.buffer].metas, own)
    else if Names(p, e) && e.CopyMeta? && e.metaOk then
      SameBut(p, q, e.dest) && Gains(appends, p[e.dest].metas, q[e.dest].metas, p[e.buffer].metas[e.pos])
    else if Names(p, e) && e.FreeMeta? then
      SameBut(p, q, e.buffer) && Loses(p[e.buffer].metas, q[e.buffer].metas, e.pos)
    else q == p
  }

  /** The results newly allocated and deleted at event e: a result handed over costs a
      temporary, which is deleted, and a copy in each meta that could be had. */
  ghost predicate StoreMoves(m: MetaState, e: Event, u: MetaState) {
    && u.allocations - m.allocations ==
         (if Hands(m.pool, e) then 1 + (if e.metaOk then 1 else 0)
          else if Names(m.pool, e) && e.CopyMeta? && e.metaOk then 1 else 0)
    && u.deletions - m.deletions ==
         (if Hands(m.pool, e) || (Names(m.pool, e) && e.FreeMeta?) then 1 else 0)
  }

  lemma StepMeta(cfg: Config, s: State, e: Event, own: MetaView)
    requires s.client.Valid()
    requires Hands(s.meta.pool, e) ==>
               own == MetaView(|s.meta.attached|, if e.Attach? then e.value else ResultFor(s.element, e.rpc))
    ensures var u := Step(cfg, s, e).meta;
            && PoolMoves(cfg.appends, s.meta.pool, e, own, u.pool)
            && StoreMoves(s.meta, e, u)
            && u.attached == s.meta.attached + if Hands(s.meta.pool, e) then [own.value] else []
  {}

  /** What event i of a run does to the metadata: an arriving buffer carries none; a new
      result, numbered by the results handed over so far, goes to one end of its buffer's
      list, and so does a copy; a freed meta leaves its list; everything else stays. The
      result of another producer is the one it attaches, that of a frame the one the frame is
      owed. Temporaries, copies and frees are accounted for one by one. */
  lemma MetaEvent(cfg: Config, t: seq<Event>, i: nat) returns (own: MetaView)
    requires i < |t|
    ensures var m, u := Before(cfg, t, i).meta, Before(cfg, t, i + 1).meta;
            && PoolMoves(cfg.appends, m.pool, t[i], own, u.pool)
            && StoreMoves(m, t[i], u)
            && u.attached == m.attached + (if Hands(m.pool, t[i]) then [own.value] else [])
            && own.origin == |m.attached|
    ensures t[i].Attach? ==> own.value == t[i].value
    ensures t[i].Frame? ==> IsOwed(cfg, t, i, own.value)
  {
    hide Step;
    var s := Before(cfg, t, i);
    own := MetaView(|s.meta.attached|, NO_MODEL);
    if t[i].Attach? {
      own := own.(value := t[i].value);
    } else if t[i].Frame? {
      own := own.(value := ResultFor(s.element, t[i].rpc));
      ResultIsOwed(cfg, t, i);
    }
    StepAt(cfg, t, i);
    StepMeta(cfg, s, t[i], own);
    hide IsOwed;
    hide PoolMoves;
    hide StoreMoves;
  }

  lemma StepPush(cfg: Config, s: State, e: Event)
    requires s.client.Valid()
    ensures var u := Step(cfg, s, e);
            if e.Frame? && e.buffer < |s.meta.pool| then
              var b := u.meta.pool[e.buffer];
              && u.sink.delivered == s.sink.delivered + [b]
              && u.sink.published == s.sink.published +
                   (if b.metas != [] && b.metas[0].value.status.SUCCESSFUL?
                    then [Publication(s.sink.topic, b.metas[0].value.isAnomalous, b.metas[0].value.confidence)]
                    else [])
            else u.sink.delivered == s.sink.delivered && u.sink.published == s.sink.published
  {}

  /** At a frame whose buffer has arrived, the buffer is pushed on as it now is; and if its
      first meta holds a SUCCESSFUL result, that result is published, once, on the topic last
      set, or on the default one. No other event pushes or publishes anything. */
  lemma PushEvent(cfg: Config, t: seq<Event>, i: nat) returns (topic: string)
    requires i < |t|
    ensures IsLatest(Told(t[..i], TopicIn), "lookoutvision/anomalydetection/result", topic)
    ensures var s, u := Before(cfg, t, i), Before(cfg, t, i + 1);
            if t[i].Frame? && t[i].buffer < |s.meta.pool| then
              |u.meta.pool| == |s.meta.pool| &&
              var b := u.meta.pool[t[i].buffer];
              && u.sink.delivered == s.sink.delivered + [b]
              && u.sink.published == s.sink.published +
                   (if b.metas != [] && b.metas[0].value.status.SUCCESSFUL?
                    then [Publication(topic, b.metas[0].value.isAnomalous, b.metas[0].value.confidence)]
                    else [])
            else u.sink.delivered == s.sink.delivered && u.sink.published == s.sink.published
  {
    hide Step;
    topic := Before(cfg, t, i).sink.topic;
    SettingsHistory(cfg, t[..i]);
    hide IsLatest;
    StepAt(cfg, t, i);
    StepPush(cfg, Before(cfg, t, i), t[i]);
    var own := MetaEvent(cfg, t, i);
    hide StoreMoves;
    hide IsOwed;
  }

  // ---------------------------------------------------------------- over runs

  /** The metas of q are those of p, with others added at the end where they are added. */
  predicate Extends(appends: bool, p: seq<MetaView>, q: seq<MetaView>) {
    if appends then p <= q else |p| <= |q| && q[|q| - |p|..] == p
  }

  /** A buffer keeps its metas, in order, for as long as none of them is freed. */
  lemma {:induction false} MetasKept(cfg: Config, t: seq<Event>, b: nat, i: nat, j: nat)
    requires i <= j <= |t| && b < |Before(cfg, t, i).meta.pool|
    requires forall l :: i <= l < j ==> !(t[l].FreeMeta? && t[l].buffer == b)
    ensures b < |Before(cfg, t, j).meta.pool|
    ensures Extends(cfg.appends, Before(cfg, t, i).meta.pool[b].metas, Before(cfg, t, j).meta.pool[b].metas)
    decreases j
  {
    hide Step;
    if i < j {
      MetasKept(cfg, t, b, i, j - 1);
      var own := MetaEvent(cfg, t, j - 1);
      var p, q := Before(cfg, t, j - 1).meta.pool, Before(cfg, t, j).meta.pool;
      hide IsOwed;
      hide StoreMoves;
      PoolExtends(cfg.appends, p, t[j - 1], own, q, b);
      hide PoolMoves;
    }
  }

  lemma GainsExtends(appends: bool, p: seq<MetaView>, q: seq<MetaView>, m: MetaView)
    requires Gains(appends, p, q, m)
    ensures Extends(appends, p, q)
  {
    if appends {
      assert q[..|p|] == p;
    } else {
      assert q[1..] == p;
    }
  }

  lemma PoolExtends(appends: bool, p: seq<BufferView>, e: Event, own: MetaView, q: seq<BufferView>, b: nat)
    requires PoolMoves(appends, p, e, own, q) && b < |p|
    requires !(e.FreeMeta? && e.buffer == b)
    ensures b < |q| && Extends(appends, p[b].metas, q[b].metas)
  {
    hide Gains;
    if q[b] == p[b] {
      return;
    }
    if Hands(p, e) {
      GainsExtends(appends, p[b].metas, q[b].metas, own);
    } else {
      GainsExtends(appends, p[b].metas, q[b].metas, p[e.buffer].metas[e.pos]);
    }
  }

  /** Where the meta next to be added to a list of n comes to lie in a list of length `later`,
      if none is taken out of it. */
  function PlaceOf(appends: bool, n: nat, later: nat): int {
    if appends then n else later - 1 - n
  }

  /** A copy outlives its source, told from the trace: from the event that copies a meta to a
      buffer until one that frees a meta of that buffer, the copy stays there and holds the
      result originally attached, whatever becomes of the source and its buffer. */
  lemma CopyOutlivesSource(cfg: Config, t: seq<Event>, i: nat, j: nat)
    requires i < j <= |t| && t[i].CopyMeta? && t[i].metaOk && Names(Before(cfg, t, i).meta.pool, t[i])
    requires forall l :: i < l < j ==> !(t[l].FreeMeta? && t[l].buffer == t[i].dest)
    ensures var p, u := Before(cfg, t, i).meta.pool, Before(cfg, t, j).meta;
            var source := p[t[i].buffer].metas[t[i].pos];
            && t[i].dest < |u.pool|
            && var copies := u.pool[t[i].dest].metas;
               var k := PlaceOf(cfg.appends, |p[t[i].dest].metas|, |copies|);
            && 0 <= k < |copies| && copies[k] == source
            && source.origin < |u.attached| && source.value == u.attached[source.origin]
  {
    hide Step;
    var own := MetaEvent(cfg, t, i);
    hide IsOwed;
    hide StoreMoves;
    var dest := t[i].dest;
    MetasKept(cfg, t, dest, i + 1, j);
    MetadataConserved(cfg, t[..j]);
    var q, r := Before(cfg, t, i + 1).meta.pool[dest].metas, Before(cfg, t, j).meta.pool[dest].metas;
    var n := |Before(cfg, t, i).meta.pool[dest].metas|;
    if cfg.appends {
      assert r[n] == q[n];
    } else {
      assert r[|r| - |q|..][0] == q[0];
    }
  }

  /** Some buffer carries the o-th result handed over, or a copy of it. */
  ghost predicate Carried(pool: seq<BufferView>, o: nat) {
    exists b, k :: 0 <= b < |pool| && 0 <= k < |pool[b].metas| && pool[b].metas[k].origin == o
  }

  lemma NotCarriedAnew(appends: bool, p: seq<BufferView>, e: Event, own: MetaView, q: seq<BufferView>, o: nat)
    requires PoolMoves(appends, p, e, own, q) && !Carried(p, o) && own.origin != o
    ensures !Carried(q, o)
  {}

  /** Gone for good: once a result has been handed over and no buffer carries it or a copy of
      it any more, none ever will. */
  lemma {:induction false} GoneForGood(cfg: Config, t: seq<Event>, o: nat, i: nat, j: nat)
    requires i <= j <= |t| && o < |Before(cfg, t, i).meta.attached|
    requires !Carried(Before(cfg, t, i).meta.pool, o)
    ensures o < |Before(cfg, t, j).meta.attached| && !Carried(Before(cfg, t, j).meta.pool, o)
    decreases j
  {
    hide Step;
    hide Carried;
    if i < j {
      GoneForGood(cfg, t, o, i, j - 1);
      var own := MetaEvent(cfg, t, j - 1);
      NotCarriedAnew(cfg.appends, Before(cfg, t, j - 1).meta.pool, t[j - 1], own, Before(cfg, t, j).meta.pool, o);
      hide IsOwed;
      hide PoolMoves;
      hide StoreMoves;
    }
  }

  /** The meta freed at event i, if it frees one. */
  ghost function FreedAt(cfg: Config, t: seq<Event>, i: nat): Option<MetaView>
    requires i < |t|
  {
    var p := Before(cfg, t, i).meta.pool;
    if t[i].FreeMeta? && Names(p, t[i]) then Some(p[t[i].buffer].metas[t[i].pos]) else None
  }

  ghost function Frees(cfg: Config, t: seq<Event>): seq<Option<MetaView>> {
    seq(|t|, i requires 0 <= i < |t| => FreedAt(cfg, t, i))
  }

  lemma FreesGrow(cfg: Config, t: seq<Event>)
    requires t != []
    ensures Frees(cfg, t) == Frees(cfg, t[..|t| - 1]) + [FreedAt(cfg, t, |t| - 1)]
  {
    hide Step;
    BeforeInPrefix(cfg, t, |t| - 1);
  }

  /** Deletions, told from the run: one temporary for every result ever handed over, and one
      result for every meta freed; nothing else is ever deleted. */
  lemma {:induction false} DeletionsHistory(cfg: Config, t: seq<Event>)
    ensures Run(cfg, t).meta.deletions == |Run(cfg, t).meta.attached| + |Collect(Frees(cfg, t))|
  {
    hide Step;
    if t != [] {
      var n := |t| - 1;
      DeletionsHistory(cfg, t[..n]);
      var own := MetaEvent(cfg, t, n);
      hide IsOwed;
      hide PoolMoves;
      assert t[..n + 1] == t;
      FreesGrow(cfg, t);
      CollectGrows(Frees(cfg, t[..n]), FreedAt(cfg, t, n));
    }
  }
}
