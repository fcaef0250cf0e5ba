/** The metadata attached to buffers: adding, copying, freeing and reading it.

    Buffers live in a pool; upstream elements may hand over buffers that already carry
    metadata, and downstream elements may copy and free metadata at any time. */
module Metadata {
  import opened Basics
  import opened Results

  // ---------------------------------------------------------------- on values

  /** A piece of metadata: its result, and which of the results ever handed to a buffer
      (in the order of their attachment) it is a copy of. */
  datatype MetaView = MetaView(origin: nat, value: ResultValue)

  datatype BufferView = BufferView(bytes: seq<byte>, metas: seq<MetaView>)

  /** The pool, every result ever handed to a buffer, and the free-store account. */
  datatype MetaState = MetaState(
    pool: seq<BufferView>, attached: seq<ResultValue>, allocations: nat, deletions: nat)

  /** GStreamer's list of metadata grows at its tail, or in older releases at its head. */
  function Inserted<T>(appends: bool, s: seq<T>, x: T): seq<T> {
    if appends then s + [x] else [x] + s
  }

  function Without<T>(s: seq<T>, i: nat): seq<T>
    requires i < |s|
  {
    s[..i] + s[i + 1..]
  }

  function PoolAdded(appends: bool, pool: seq<BufferView>, b: nat, m: MetaView): seq<BufferView>
    requires b < |pool|
  {
    pool[b := pool[b].(metas := Inserted(appends, pool[b].metas, m))]
  }

  function Arrived(s: MetaState, bytes: seq<byte>): MetaState {
    s.(pool := s.pool + [BufferView(bytes, [])])
  }

  /** A new result is handed to buffer b, then its temporary is deleted. */
  function Attached(appends: bool, s: MetaState, b: nat, value: ResultValue, metaOk: bool): MetaState
    requires b < |s.pool|
  {
    MetaState(if metaOk then PoolAdded(appends, s.pool, b, MetaView(|s.attached|, value)) else s.pool,
              s.attached + [value],
              s.allocations + (if metaOk then 2 else 1),
              s.deletions + 1)
  }

  function Copied(appends: bool, s: MetaState, dest: nat, b: nat, pos: nat, metaOk: bool): MetaState {
    if metaOk && dest < |s.pool| && b < |s.pool| && pos < |s.pool[b].metas|
    then s.(pool := PoolAdded(appends, s.pool, dest, s.pool[b].metas[pos]), allocations := s.allocations + 1)
    else s
  }

  function PoolFreed(pool: seq<BufferView>, b: nat, pos: nat): seq<BufferView> {
    if b < |pool| && pos < |pool[b].metas|
    then pool[b := pool[b].(metas := Without(pool[b].metas, pos))]
    else pool
  }

  function Freed(s: MetaState, b: nat, pos: nat): MetaState {
    if b < |s.pool| && pos < |s.pool[b].metas|
    then s.(pool := PoolFreed(s.pool, b, pos), deletions := s.deletions + 1)
    else s
  }

  // ---------------------------------------------------------------- on the heap

  class Meta {
    var result: Result?
    ghost const buffer: nat
    ghost const origin: nat

    /** gst_lookout_vision_meta_init */
    constructor (ghost buffer: nat, ghost origin: nat)
      ensures this.buffer == buffer && this.origin == origin && result == null
    {
      this.buffer, this.origin, result := buffer, origin, null;
    }
  }

  /** A buffer as GStreamer keeps it: its memory and its list of metadata. */
  datatype Buffer = Buffer(bytes: seq<byte>, metas: seq<Meta>)

  /** GStreamer's buffers, named by their position in the pool, with their metadata. */
  class MetaStore {
    const appends: bool
    const heap: ResultHeap
    var pool: seq<Buffer>
    ghost var metas: set<Meta>          // all live metadata
    ghost var owner: map<Result, Meta>  // which of it owns which result
    ghost var view: seq<BufferView>
    ghost var attached: seq<ResultValue>

    /** m owns a result of its own, equal to the one originally attached. */
    ghost predicate Owns(m: Meta)
      reads this, m, owner.Keys
    {
      && m.result != null
      && m.result in owner && owner[m.result] == m
      && m.origin < |attached| && m.result.Value() == attached[m.origin]
    }

    /** Buffer b lists live metadata of its own, each piece once. */
    ghost predicate Lists(b: nat)
      requires b < |pool| && b < |view|
      reads this
    {
      var list := pool[b].metas;
      && view[b].bytes == pool[b].bytes
      && |view[b].metas| == |list|
      && (forall k :: 0 <= k < |list| ==> list[k] in metas && list[k].buffer == b)
      && (forall k :: 0 <= k < |list| ==>
            && list[k].origin < |attached|
            && view[b].metas[k] == MetaView(list[k].origin, attached[list[k].origin]))
      && (forall k, l :: 0 <= k < l < |list| ==> list[k] != list[l])
    }

    /** Every live meta owns a live result that no other meta shares. */
    ghost predicate Valid()
      reads this, heap, metas, owner.Keys
    {
      && heap.Valid()
      && owner.Keys <= heap.live
      && Consistent()
    }

    ghost predicate Consistent()
      reads this, metas, owner.Keys
    {
      && (forall m :: m in metas ==> Owns(m))
      && (forall r :: r in owner ==> owner[r] in metas && owner[r].result == r)
      && |view| == |pool|
      && (forall b :: 0 <= b < |pool| ==> Lists(b))
    }

    /** No temporary results are around: the live results are exactly those of the metas. */
    ghost predicate Settled()
      reads this, heap
    {
      owner.Keys == heap.live
    }

    /** The only live result that no meta owns. */
    ghost predicate OneTemporary(result: Result)
      reads this, heap
    {
      heap.live == owner.Keys + {result} && result !in owner
    }

    ghost function View(): MetaState
      reads this, heap
    {
      MetaState(view, attached, heap.allocations, heap.deletions)
    }

    constructor (appends: bool)
      ensures this.appends == appends && fresh(heap) && Valid() && Settled()
      ensures pool == [] && metas == {} && View() == MetaState([], [], 0, 0)
    {
      this.appends := appends;
      heap := new ResultHeap();
      pool, metas, owner, view, attached := [], {}, map[], [], [];
    }

    /** A buffer is allocated upstream. */
    method Arrive(bytes: seq<byte>)
      requires Valid()
      modifies `pool, `view
      ensures Valid() && |pool| == |old(pool)| + 1
      ensures View() == Arrived(old(View()), bytes)
    {
      pool, view := pool + [Buffer(bytes, [])], view + [BufferView(bytes, [])];
      forall b: nat | b < |pool| ensures Lists(b) {
        assert b < |pool| - 1 ==> old(Lists(b));
      }
    }

    /** A meta for `buffer` with a copy of `result`, not yet in the buffer's list. */
    method CopyFor(buffer: nat, result: Result, ghost origin: nat) returns (meta: Meta)
      requires Valid() && result in heap.live
      requires origin < |attached| && attached[origin] == result.Value()
      modifies `metas, `owner, heap
      ensures Valid()
      ensures fresh(meta) && meta.buffer == buffer && meta.origin == origin && metas == old(metas) + {meta}
      ensures meta.result != null && fresh(meta.result) && meta.result.Value() == result.Value()
      ensures owner == old(owner)[meta.result := meta]
      ensures heap.live == old(heap.live) + {meta.result}
      ensures heap.allocations == old(heap.allocations) + 1 && heap.deletions == old(heap.deletions)
    {
      meta := new Meta(buffer, origin);
      var copy := heap.NewCopy(result);
      meta.result := copy;
      metas, owner := metas + {meta}, owner[copy := meta];
      forall m | m in metas ensures Owns(m) {
        assert m != meta ==> old(Owns(m)) && m.result == old(m.result);
      }
      forall b: nat | b < |pool| ensures Lists(b) {
        assert old(Lists(b));
      }
    }

    function Listed(pool: seq<Buffer>, b: nat, meta: Meta): seq<Buffer>
      requires b < |pool|
    {
      pool[b := pool[b].(metas := Inserted(appends, pool[b].metas, meta))]
    }

    /** The list part of gst_buffer_add_meta. */
    method Link(buffer: nat, meta: Meta)
      requires Valid() && buffer < |pool| && meta in metas && meta.buffer == buffer && meta !in pool[buffer].metas
      modifies `pool, `view
      ensures Valid() && pool == Listed(old(pool), buffer, meta)
      ensures view == PoolAdded(appends, old(view), buffer, MetaView(meta.origin, attached[meta.origin]))
    {
      hide heap.Valid;
      pool := Listed(pool, buffer, meta);
      view := PoolAdded(appends, view, buffer, MetaView(meta.origin, attached[meta.origin]));
      forall b: nat | b < |pool| ensures Lists(b) {
        assert old(Lists(b));
      }
    }

    /** gst_buffer_add_lookout_vision_meta on a buffer or on NULL (None); `metaOk` says
        whether gst_buffer_add_meta yields a meta. `origin` names the attachment that
        `result` is a copy of. */
    method AddMeta(buffer: Option<nat>, result: Result, metaOk: bool, ghost origin: nat) returns (meta: Meta?)
      requires Valid() && result in heap.live
      requires buffer.Some? ==> buffer.value < |pool|
      requires origin < |attached| && attached[origin] == result.Value()
      modifies `metas, `owner, `pool, `view, heap
      ensures Valid() && |pool| == |old(pool)|
      ensures meta == null <==> buffer.None? || !metaOk
      ensures pool == if meta == null then old(pool) else Listed(old(pool), buffer.value, meta)
      ensures meta == null ==>
                && metas == old(metas) && owner == old(owner) && heap.live == old(heap.live) && View() == old(View())
      ensures meta != null ==>
                && fresh(meta) && meta.origin == origin && metas == old(metas) + {meta}
                && meta.result != null && fresh(meta.result) && meta.result.Value() == result.Value()
                && owner == old(owner)[meta.result := meta] && heap.live == old(heap.live) + {meta.result}
                && View() == old(View()).(
                     pool := PoolAdded(appends, old(view), buffer.value, MetaView(origin, result.Value())),
                     allocations := old(heap.allocations) + 1)
    {
      if buffer.None? || !metaOk {
        return null;
      }
      assert Lists(buffer.value);
      meta := CopyFor(buffer.value, result, origin);
      Link(buffer.value, meta);
    }

    /** The first attachment of a result gives it the next origin. */
    ghost method Record(value: ResultValue)
      requires Valid()
      modifies `attached
      ensures Valid() && attached == old(attached) + [value]
    {
      attached := attached + [value];
      forall m | m in metas ensures Owns(m) {
        assert old(Owns(m));
      }
      forall b: nat | b < |pool| ensures Lists(b) {
        assert old(Lists(b));
      }
    }

    /** The temporary recorded last is added to a buffer. */
    method AddRecorded(buffer: nat, result: Result, metaOk: bool)
      requires Valid() && OneTemporary(result) && buffer < |pool|
      requires attached != [] && attached[|attached| - 1] == result.Value()
      modifies `metas, `owner, `pool, `view, heap
      ensures Valid() && |pool| == |old(pool)| && OneTemporary(result)
      ensures forall m :: m in metas ==> m in old(metas) || fresh(m)
      ensures View() ==
              if !metaOk then old(View())
              else old(View()).(
                     pool := PoolAdded(appends, old(view), buffer, MetaView(|attached| - 1, old(result.Value()))),
                     allocations := old(heap.allocations) + 1)
    {
      hide Consistent, heap.Valid;
      var meta := AddMeta(Some(buffer), result, metaOk, |attached| - 1);
      if meta != null {
        assert owner.Keys == old(owner).Keys + {meta.result};
        assert heap.live == old(heap.live) + {meta.result};
      }
    }

    /** The first attachment of a result: recorded, then added. */
    method Attach(buffer: nat, result: Result, metaOk: bool)
      requires Valid() && OneTemporary(result) && buffer < |pool|
      modifies `metas, `owner, `pool, `view, `attached, heap
      ensures Valid() && |pool| == |old(pool)| && OneTemporary(result)
      ensures forall m :: m in metas ==> m in old(metas) || fresh(m)
      ensures View() == old(
                Attached(appends, View(), buffer, result.Value(), metaOk).(
                  allocations := heap.allocations + (if metaOk then 1 else 0), deletions := heap.deletions))
    {
      hide Consistent, PoolAdded;
      Record(result.Value());
      AddRecorded(buffer, result, metaOk);
    }

    method DeleteTemporary(result: Result)
      requires Valid() && result in heap.live && result !in owner
      modifies heap
      ensures Valid() && heap.live == old(heap.live) - {result}
      ensures heap.allocations == old(heap.allocations) && heap.deletions == old(heap.deletions) + 1
    {
      heap.Delete(result);
    }

    /** A producer hands its temporary result to a buffer, then deletes it. */
    method AttachTemporary(buffer: nat, result: Result, metaOk: bool)
      requires Valid() && OneTemporary(result) && heap.allocations > 0
      requires buffer < |pool|
      modifies `metas, `owner, `pool, `view, `attached, heap
      ensures Valid() && Settled() && |pool| == |old(pool)|
      ensures forall m :: m in metas ==> m in old(metas) || fresh(m)
      ensures View() == old(
                Attached(appends, View().(allocations := heap.allocations - 1), buffer, result.Value(), metaOk))
    {
      Attach(buffer, result, metaOk);
      DeleteTemporary(result);
    }

    /** gst_lookout_vision_meta_transform: the copy gets a result of its own. */
    method Transform(dest: Option<nat>, source: Meta, metaOk: bool) returns (ok: bool, ghost copy: Meta?)
      requires Valid() && source in metas
      requires dest.Some? ==> dest.value < |pool|
      modifies `metas, `owner, `pool, `view, heap
      ensures Valid() && (old(Settled()) ==> Settled()) && |pool| == |old(pool)|
      ensures ok <==> dest.Some? && metaOk
      ensures metas == old(metas) + if copy == null then {} else {copy}
      ensures source.result == old(source.result)
      ensures ok <==> copy != null
      ensures pool == if copy == null then old(pool) else Listed(old(pool), dest.value, copy)
      ensures copy != null ==>
                && fresh(copy) && copy.result != null && fresh(copy.result)
                && copy.origin == source.origin && copy.result.Value() == attached[source.origin]
      ensures View() ==
              if !ok then old(View())
              else old(View()).(
                     pool := PoolAdded(appends, old(view), dest.value,
                                       MetaView(source.origin, attached[source.origin])),
                     allocations := old(heap.allocations) + 1)
    {
      assert Owns(source);
      hide Consistent;
      var meta := AddMeta(dest, source.result, metaOk, source.origin);
      return meta != null, meta;
    }

    /** A producer other than the inference element attaches a result of its own. */
    method Produce(buffer: nat, value: ResultValue, metaOk: bool)
      requires Valid() && Settled()
      modifies `metas, `owner, `pool, `view, `attached, heap
      ensures Valid() && Settled() && forall m :: m in metas ==> m in old(metas) || fresh(m)
      ensures View() == if buffer < |old(view)|
                        then Attached(appends, old(View()), buffer, value, metaOk)
                        else old(View())
    {
      if buffer < |pool| {
        var result := NewTemporary(value);
        AttachTemporary(buffer, result, metaOk);
      }
    }

    method NewTemporary(value: ResultValue) returns (result: Result)
      requires Valid() && Settled()
      modifies heap
      ensures Valid() && result.Value() == value
      ensures OneTemporary(result)
      ensures heap.allocations == old(heap.allocations) + 1 && heap.deletions == old(heap.deletions)
    {
      hide Consistent;
      result := heap.New(value);
    }

    /** A downstream element copies the pos-th meta of a buffer to another buffer. */
    method Copy(dest: nat, buffer: nat, pos: nat, metaOk: bool)
      requires Valid() && Settled()
      modifies `metas, `owner, `pool, `view, heap
      ensures Valid() && Settled() && forall m :: m in metas ==> m in old(metas) || fresh(m)
      ensures View() == Copied(appends, old(View()), dest, buffer, pos, metaOk)
    {
      hide heap.Valid;
      if dest < |pool| && buffer < |pool| {
        assert Lists(buffer);
        if pos < |pool[buffer].metas| {
          var _, _ := Transform(Some(dest), pool[buffer].metas[pos], metaOk);
        }
      }
    }

    ghost predicate Unlisted(meta: Meta)
      reads this
    {
      forall b :: 0 <= b < |pool| ==> meta !in pool[b].metas
    }

    /** GStreamer takes the pos-th meta out of the buffer's list. */
    method Unlink(buffer: nat, pos: nat) returns (meta: Meta)
      requires Valid() && buffer < |pool| && pos < |pool[buffer].metas|
      modifies `pool, `view
      ensures Valid() && |pool| == |old(pool)|
      ensures meta == old(pool)[buffer].metas[pos] && meta in metas && Unlisted(meta)
      ensures view == PoolFreed(old(view), buffer, pos)
    {
      hide heap.Valid;
      assert Lists(buffer);
      meta := pool[buffer].metas[pos];
      pool := pool[buffer := pool[buffer].(metas := Without(pool[buffer].metas, pos))];
      view := PoolFreed(view, buffer, pos);
      forall b: nat | b < |pool| ensures Lists(b) && meta !in pool[b].metas {
        assert old(Lists(b));
        if b == buffer {
          assert forall k :: 0 <= k < |pool[b].metas| ==>
              pool[b].metas[k] == old(pool[b].metas)[if k < pos then k else k + 1];
        } else {
          assert pool[b] == old(pool[b]);
        }
      }
    }

    /** gst_lookout_vision_meta_free: the meta's result is deleted and the pointer cleared;
        no other meta loses its result. */
    method Release(meta: Meta)
      requires Valid() && meta in metas && Unlisted(meta)
      modifies `metas, `owner, heap, meta
      ensures Valid() && metas == old(metas) - {meta} && meta.result == null
      ensures owner == old(owner) - {old(meta.result)}
      ensures heap.live == old(heap.live) - {old(meta.result)}
      ensures heap.allocations == old(heap.allocations) && heap.deletions == old(heap.deletions) + 1
      ensures forall m :: m in metas ==> m.result == old(m.result) && m.result in heap.live
    {
      assert Owns(meta);
      heap.Delete(meta.result);
      owner := owner - {meta.result};
      meta.result := null;
      metas := metas - {meta};
      forall m | m in metas ensures Owns(m) && m.result == old(m.result) {
        assert old(Owns(m));
      }
      forall b: nat | b < |pool| ensures Lists(b) {
        assert old(Lists(b));
      }
    }

    /** The whole of dropping the pos-th meta of a buffer. */
    method FreeMeta(buffer: nat, pos: nat)
      requires Valid() && buffer < |pool| && pos < |pool[buffer].metas|
      modifies `metas, `owner, `pool, `view, heap, metas
      ensures Valid() && (old(Settled()) ==> Settled()) && |pool| == |old(pool)|
      ensures metas == old(metas) - {old(pool)[buffer].metas[pos]}
      ensures View() == Freed(old(View()), buffer, pos)
      ensures forall m :: m in metas ==> m.result == old(m.result) && m.result in heap.live
      ensures old(pool[buffer].metas[pos].result) !in heap.live
    {
      assert pos < |view[buffer].metas| by { assert Lists(buffer); }
      ghost var gone := pool[buffer].metas[pos];
      assert gone in metas && Owns(gone) by { assert Lists(buffer); }
      ghost var result := gone.result;
      assert result in owner;
      hide Consistent, Unlisted;
      var meta := Unlink(buffer, pos);
      Release(meta);
      assert heap.live == old(heap.live) - {result};
      assert owner.Keys == old(owner).Keys - {result};
    }

    /** Copying the pos-th meta of a buffer to another one leaves it where it is. */
    method Duplicate(dest: nat, buffer: nat, pos: nat) returns (ghost source: Meta, ghost copy: Meta)
      requires Valid() && Settled()
      requires dest < |pool| && buffer < |pool| && dest != buffer && pos < |pool[buffer].metas|
      modifies `metas, `owner, `pool, `view, heap
      ensures Valid() && Settled() && |pool| == |old(pool)|
      ensures pool[buffer] == old(pool)[buffer] && source == pool[buffer].metas[pos] && source.result != null
      ensures metas == old(metas) + {copy} && copy != source && fresh(copy) && copy.origin == source.origin
      ensures copy.result != null && copy.result != source.result && source.result == old(source.result)
      ensures copy.origin < |attached| && copy.result.Value() == attached[copy.origin] && attached == old(attached)
      ensures View() == Copied(appends, old(View()), dest, buffer, pos, true)
    {
      assert Lists(buffer);
      var m := pool[buffer].metas[pos];
      assert Owns(m);
      var _, c := Transform(Some(dest), m, true);
      source, copy := m, c;
    }

    /** A copy outlives its source: when the pos-th meta of a buffer is copied to another
        buffer and then freed, the copy is live with a live result of its own, equal to the
        one originally attached, while the source's result is gone. */
    method CopyOutlivesSource(dest: nat, buffer: nat, pos: nat) returns (ghost source: Meta, ghost copy: Meta)
      requires Valid() && Settled()
      requires dest < |pool| && buffer < |pool| && dest != buffer && pos < |pool[buffer].metas|
      modifies `metas, `owner, `pool, `view, heap, metas
      ensures Valid() && Settled()
      ensures source == old(pool)[buffer].metas[pos] && source !in metas
      ensures old(source.result) !in heap.live
      ensures copy in metas && fresh(copy) && copy.origin == source.origin
      ensures copy.result != null && copy.result != old(source.result) && copy.result in heap.live
      ensures copy.origin < |old(attached)| && copy.result.Value() == old(attached)[copy.origin]
      ensures View() == Freed(Copied(appends, old(View()), dest, buffer, pos, true), buffer, pos)
    {
      source, copy := Duplicate(dest, buffer, pos);
      hide Consistent;
      FreeMeta(buffer, pos);
    }

    /** A downstream element frees the pos-th meta of a buffer. */
    method Free(buffer: nat, pos: nat)
      requires Valid() && Settled()
      modifies `metas, `owner, `pool, `view, heap, metas
      ensures Valid() && Settled() && metas <= old(metas)
      ensures View() == Freed(old(View()), buffer, pos)
    {
      if buffer < |pool| {
        assert Lists(buffer);
        if pos < |pool[buffer].metas| {
          FreeMeta(buffer, pos);
        }
      }
    }

    /** gst_buffer_get_lookout_vision_meta: the first meta in the list, NULL if there is no
        buffer or no meta. */
    method GetMeta(buffer: Option<nat>) returns (meta: Meta?)
      requires Valid() && (buffer.Some? ==> buffer.value < |pool|)
      ensures meta == null <==> buffer.None? || view[buffer.value].metas == []
      ensures meta != null ==>
                && meta in metas && meta.result != null && meta.result in heap.live
                && meta.result.Value() == view[buffer.value].metas[0].value
    {
      if buffer.None? {
        return null;
      }
      assert Lists(buffer.value);
      if |pool[buffer.value].metas| == 0 {
        return null;
      }
      meta := pool[buffer.value].metas[0];
      assert Owns(meta);
    }
  }

  /** No two live metas share a result, and every result is live. */
  lemma ResultsNotShared(s: MetaStore, m: Meta, n: Meta)
    requires s.Valid() && m in s.metas && n in s.metas && m != n
    ensures m.result != n.result && m.result in s.heap.live && n.result in s.heap.live
  {
    assert s.Owns(m) && s.Owns(n);
  }
}
