/** The shared-memory bitmap transport: one POSIX shared-memory object, grown on
    demand and reused by every frame.

    ftruncate and mmap follow the System Interfaces volume of POSIX.1-2017: growth
    extends the object with zero bytes, and every MAP_SHARED mapping shows the
    object's own bytes. Lengths are counted in bytes, not in pages. */
module SharedMemory {
  import opened Basics

  type Bytes = seq<byte>

  const INITIAL_SIZE: nat := 1920 * 1920 * 3

  /** What a client and the kernel know about the segment: the bytes of the object
      behind the descriptor, the client's shm_size, the lengths of all mappings ever
      made, the mappings still in place, and the one shm_data points at. */
  datatype Segment = Segment(bytes: Bytes, size: nat, created: seq<nat>, live: set<nat>, current: nat)
  {
    /** Descriptor length, recorded size and current mapping length coincide. */
    ghost predicate Valid() {
      && size == |bytes|
      && current < |created|
      && created[current] == size
      && current in live
    }
  }

  /** ftruncate to n bytes. */
  function Resized(bytes: Bytes, n: nat): Bytes {
    if n <= |bytes| then bytes[..n] else bytes + seq(n - |bytes|, _ => 0)
  }

  /** setupSHM on an object already holding `previous` ([] when shm_open creates it). */
  function Opened(previous: Bytes): Segment {
    Segment(Resized(previous, INITIAL_SIZE), INITIAL_SIZE, [INITIAL_SIZE], {0}, 0)
  }

  function Mapped(s: Segment, n: nat): Segment {
    s.(created := s.created + [n], live := s.live + {|s.created|}, current := |s.created|)
  }

  /** writeSHM: grow and map again when the frame is longer than the segment, then copy. */
  function Written(s: Segment, frame: Bytes): Segment
    requires |s.bytes| == s.size
  {
    var g := if |frame| > s.size
             then Mapped(s.(size := |frame|, bytes := Resized(s.bytes, |frame|)), |frame|)
             else s;
    g.(bytes := frame + g.bytes[|frame|..])
  }

  /** The client's destructor: munmap of the current mapping only. */
  function Closed(s: Segment): Segment {
    s.(live := s.live - {s.current})
  }

  lemma WrittenValid(s: Segment, frame: Bytes)
    requires s.Valid()
    ensures var w, grows := Written(s, frame), |frame| > s.size;
            && w.Valid()
            && w.size == (if grows then |frame| else s.size)
            && w.created == s.created + (if grows then [|frame|] else [])
            && w.live == s.live + (if grows then {|s.created|} else {})
            && w.current == if grows then |s.created| else s.current
  {}

  /** Every frame of a run, in order. */
  function WrittenAll(s: Segment, frames: seq<Bytes>): (r: Segment)
    requires |s.bytes| == s.size
    ensures |r.bytes| == r.size
  {
    if frames == [] then s else Written(WrittenAll(s, frames[..|frames|-1]), frames[|frames|-1])
  }

  lemma WrittenAllGrows(s: Segment, frames: seq<Bytes>, frame: Bytes)
    requires |s.bytes| == s.size
    ensures WrittenAll(s, frames + [frame]) == Written(WrittenAll(s, frames), frame)
  {
    assert (frames + [frame])[..|frames|] == frames;
  }

  // ---------------------------------------------------------------- whole runs

  /** The bytes an agent finds behind the handle (offset, size). */
  function ReadHandle(s: Segment, offset: nat, size: nat): Bytes
    requires offset + size <= |s.bytes|
  {
    s.bytes[offset..offset + size]
  }

  /** Whatever was sent before, the handle of the k-th frame shows exactly that frame:
      nothing left over from a longer one is inside it. */
  lemma HandleShowsFrame(previous: Bytes, frames: seq<Bytes>, k: nat)
    requires k < |frames|
    ensures var s := WrittenAll(Opened(previous), frames[..k + 1]);
            && |frames[k]| <= |s.bytes|
            && ReadHandle(s, 0, |frames[k]|) == frames[k]
            && forall i :: 0 <= i < |frames[k]| ==> s.bytes[i] == frames[k][i]
  {
    assert frames[..k + 1][..k] == frames[..k];
  }

  /** Frame k is longer than the initial size and than every frame before it. */
  ghost predicate IsRecord(frames: seq<Bytes>, k: nat)
    requires k < |frames|
  {
    && INITIAL_SIZE < |frames[k]|
    && forall j :: 0 <= j < k ==> |frames[j]| < |frames[k]|
  }

  /** The lengths of the record frames, in order. */
  ghost function Records(frames: seq<Bytes>): seq<nat> {
    if frames == [] then []
    else
      var n := |frames| - 1;
      Records(frames[..n]) + if IsRecord(frames, n) then [|frames[n]|] else []
  }

  ghost predicate StrictlyIncreasing(s: seq<nat>) {
    forall i, j :: 0 <= i < j < |s| ==> s[i] < s[j]
  }

  /** shm_size is the maximum of the initial size and the frame lengths seen. */
  ghost predicate IsHighWaterMark(size: nat, frames: seq<Bytes>) {
    && INITIAL_SIZE <= size
    && (forall j :: 0 <= j < |frames| ==> |frames[j]| <= size)
    && (size == INITIAL_SIZE || exists j :: 0 <= j < |frames| && |frames[j]| == size)
  }

  /** The indices of the first n mappings. */
  ghost function Below(n: nat): (r: set<nat>)
    ensures |r| == n
    ensures forall i: nat :: i in r <==> i < n
  {
    if n == 0 then {} else Below(n - 1) + {n - 1}
  }

  /** What holds of the segment once `frames` have been written to it. */
  ghost predicate Accounts(s: Segment, frames: seq<Bytes>) {
    && s.Valid()
    && IsHighWaterMark(s.size, frames)
    && s.created == [INITIAL_SIZE] + Records(frames)
    && StrictlyIncreasing(s.created)
    && s.current == |s.created| - 1
    && s.live == Below(|s.created|)
  }

  lemma WrittenHighWaterMark(size: nat, before: seq<Bytes>, frame: Bytes)
    requires IsHighWaterMark(size, before)
    ensures IsHighWaterMark(if |frame| > size then |frame| else size, before + [frame])
    ensures |frame| > size <==> IsRecord(before + [frame], |before|)
  {
    var frames := before + [frame];
    assert frames[|before|] == frame;
    assert forall j :: 0 <= j < |before| ==> before[j] == frames[j];
    if size != INITIAL_SIZE {
      var j :| 0 <= j < |before| && |before[j]| == size;
      assert |frames[j]| == size;
    }
  }

  lemma WrittenAccounts(s: Segment, before: seq<Bytes>, frame: Bytes)
    requires Accounts(s, before)
    ensures Accounts(Written(s, frame), before + [frame])
    ensures |frame| > s.size <==> IsRecord(before + [frame], |before|)
  {
    WrittenHighWaterMark(s.size, before, frame);
    WrittenValid(s, frame);
    hide Written;
    hide IsHighWaterMark;
    hide IsRecord;
    assert (before + [frame])[..|before|] == before;
    assert Records(before + [frame]) == Records(before) + if |frame| > s.size then [|frame|] else [];
    assert forall i :: 0 <= i < |s.created| ==> s.created[i] <= s.size;
  }

  /** After any run the segment is as long as the longest frame (or its initial size),
      the descriptor and the current mapping agree, and there is one mapping per record
      besides the first, all of them still in place and of strictly increasing length. */
  lemma {:induction false} HighWaterMark(previous: Bytes, frames: seq<Bytes>)
    ensures Accounts(WrittenAll(Opened(previous), frames), frames)
  {
    if frames != [] {
      var n := |frames| - 1;
      HighWaterMark(previous, frames[..n]);
      WrittenAccounts(WrittenAll(Opened(previous), frames[..n]), frames[..n], frames[n]);
      assert frames[..n] + [frames[n]] == frames;
    }
  }

  /** The segment grows at frame k exactly when frame k is a record. */
  lemma GrowsExactlyAtRecords(previous: Bytes, frames: seq<Bytes>, k: nat)
    requires k < |frames|
    ensures var before := WrittenAll(Opened(previous), frames[..k]);
            var after := WrittenAll(Opened(previous), frames[..k + 1]);
            && (after.size > before.size <==> IsRecord(frames, k))
            && (after.created != before.created <==> IsRecord(frames, k))
  {
    var p, q := frames[..k], frames[..k + 1];
    HighWaterMark(previous, p);
    WrittenAccounts(WrittenAll(Opened(previous), p), p, frames[k]);
    assert p + [frames[k]] == q && q[..k] == p;
    assert forall j :: 0 <= j <= k ==> q[j] == frames[j];
  }

  /** j is the most recent frame longer than i. */
  ghost predicate LastLonger(frames: seq<Bytes>, i: nat, j: nat) {
    && j < |frames|
    && i < |frames[j]|
    && forall k :: j < k < |frames| ==> |frames[k]| <= i
  }

  /** Byte i of the segment after any run: byte i of the most recent frame longer than i;
      if there is none, what setupSHM left there. */
  lemma {:induction false} SegmentContents(previous: Bytes, frames: seq<Bytes>, i: nat)
    requires i < WrittenAll(Opened(previous), frames).size
    ensures var s := WrittenAll(Opened(previous), frames);
            && (forall j: nat :: LastLonger(frames, i, j) ==> s.bytes[i] == frames[j][i])
            && ((forall j :: 0 <= j < |frames| ==> |frames[j]| <= i) ==>
                  i < INITIAL_SIZE && s.bytes[i] == if i < |previous| then previous[i] else 0)
  {
    HighWaterMark(previous, frames);
    if frames != [] {
      var n := |frames| - 1;
      var before := frames[..n];
      if |frames[n]| <= i {
        assert i < WrittenAll(Opened(previous), before).size;
        SegmentContents(previous, before, i);
        forall j: nat | LastLonger(frames, i, j)
          ensures WrittenAll(Opened(previous), frames).bytes[i] == frames[j][i]
        {
          assert LastLonger(before, i, j);
        }
        if forall j :: 0 <= j < |frames| ==> |frames[j]| <= i {
          assert forall j :: 0 <= j < |before| ==> |before[j]| <= i by {
            assert forall j :: 0 <= j < |before| ==> before[j] == frames[j];
          }
        }
      } else {
        forall j: nat | LastLonger(frames, i, j) ensures j == n {}
      }
    }
  }

  /** There is a record exactly if some frame is longer than the initial size. */
  lemma {:induction false} RecordsEmpty(frames: seq<Bytes>)
    ensures Records(frames) == [] <==> forall j :: 0 <= j < |frames| ==> |frames[j]| <= INITIAL_SIZE
  {
    if frames != [] {
      var n := |frames| - 1;
      RecordsEmpty(frames[..n]);
      assert forall j :: 0 <= j < n ==> frames[..n][j] == frames[j];
    }
  }

  /** In numbers: the segment starts at 11059200 bytes, and is never mapped again if and only
      if no frame is longer than that. */
  lemma NeverMappedAgain(previous: Bytes, frames: seq<Bytes>)
    ensures var s := WrittenAll(Opened(previous), frames);
            && s.size >= 11059200 && s.created != [] && s.created[0] == 11059200
            && (s.created == [11059200] <==> forall j :: 0 <= j < |frames| ==> |frames[j]| <= 11059200)
  {
    HighWaterMark(previous, frames);
    RecordsEmpty(frames);
  }

  /** As written, only the newest mapping is ever unmapped: the destructor leaves one
      superseded mapping per growth behind, so it leaves none if and only if no frame was
      longer than the initial size. */
  lemma LeakedMappings(previous: Bytes, frames: seq<Bytes>)
    ensures var s := Closed(WrittenAll(Opened(previous), frames));
            && |s.live| == |Records(frames)|
            && (forall i: nat :: i in s.live <==> i < |s.created| - 1)
            && (s.live == {} <==> forall j :: 0 <= j < |frames| ==> |frames[j]| <= 11059200)
  {
    HighWaterMark(previous, frames);
    RecordsEmpty(frames);
    var w := WrittenAll(Opened(previous), frames);
    assert Closed(w).live == Below(|Records(frames)|);
  }

  /** A run that leaks: one frame longer than the initial size leaves the first mapping. */
  lemma OneLongFrameLeaks(previous: Bytes, frame: Bytes)
    requires |frame| > INITIAL_SIZE
    ensures Closed(WrittenAll(Opened(previous), [frame])).live == {0}
  {
    assert [frame][..0] == [];
    assert WrittenAll(Opened(previous), [frame]) == Written(Opened(previous), frame);
  }

  // ------------------------------------------- a variant that unmaps before remapping

  function WrittenUnmapping(s: Segment, frame: Bytes): Segment
    requires |s.bytes| == s.size
  {
    Written(if |frame| > s.size then s.(live := s.live - {s.current}) else s, frame)
  }

  function WrittenAllUnmapping(s: Segment, frames: seq<Bytes>): (r: Segment)
    requires |s.bytes| == s.size
    ensures |r.bytes| == r.size
  {
    if frames == [] then s
    else WrittenUnmapping(WrittenAllUnmapping(s, frames[..|frames|-1]), frames[|frames|-1])
  }

  /** Unmapping first keeps one live mapping at all times and none after the destructor,
      and changes nothing an agent can read. */
  lemma {:induction false} UnmappingKeepsOneMapping(previous: Bytes, frames: seq<Bytes>)
    ensures var s := WrittenAll(Opened(previous), frames);
            var u := WrittenAllUnmapping(Opened(previous), frames);
            && u == s.(live := {s.current})
            && Closed(u).live == {}
  {
    if frames != [] {
      UnmappingKeepsOneMapping(previous, frames[..|frames|-1]);
    }
  }

  // ---------------------------------------------------------------- the kernel object

  /** The object behind the descriptor, with the table of mappings made of it. */
  class SharedObject {
    var cells: array<byte>
    var created: seq<nat>
    var live: set<nat>
    var open: bool    // the client's descriptor
    var linked: bool  // the object's name

    /** shm_open: the name is linked to the object, and a descriptor is open. */
    constructor (previous: Bytes)
      ensures cells[..] == previous && created == [] && live == {} && open && linked && fresh(cells)
    {
      cells := new byte[|previous|](i requires 0 <= i < |previous| => previous[i]);
      created, live, open, linked := [], {}, true, true;
    }

    method Close()
      requires open
      modifies `open
      ensures !open
    {
      open := false;
    }

    method Unlink()
      modifies `linked
      ensures !linked
    {
      linked := false;
    }

    method Ftruncate(n: nat)
      requires open
      modifies this`cells
      ensures fresh(cells) && cells[..] == Resized(old(cells[..]), n)
      ensures cells.Length == n
      ensures forall i :: 0 <= i < n ==> cells[i] == if i < old(cells.Length) then old(cells[i]) else 0
    {
      var grown := new byte[n];
      var i := 0;
      while i < n
        invariant 0 <= i <= n
        invariant fresh(grown) && cells == old(cells) && cells[..] == old(cells[..])
        invariant forall j :: 0 <= j < i ==> grown[j] == if j < cells.Length then cells[j] else 0
      {
        grown[i] := if i < cells.Length then cells[i] else 0;
        i := i + 1;
      }
      cells := grown;
      assert forall j :: 0 <= j < n ==> cells[..][j] == Resized(old(cells[..]), n)[j];
    }

    method Mmap(n: nat) returns (id: nat)
      requires open
      modifies this`created, this`live
      ensures id == |old(created)| && created == old(created) + [n] && live == old(live) + {id}
    {
      id := |created|;
      created, live := created + [n], live + {id};
    }

    method Munmap(id: nat)
      requires id in live
      modifies this`live
      ensures live == old(live) - {id}
    {
      live := live - {id};
    }

    /** One byte stored through a mapping: the mapping must be in place and the address
        inside both the mapping and the object. */
    method Store(id: nat, i: nat, b: byte)
      requires id in live && id < |created| && i < created[id] && i < cells.Length
      modifies cells
      ensures cells[..] == old(cells[..])[i := b]
    {
      cells[i] := b;
    }

    /** memcpy into a mapping. */
    method Memcpy(id: nat, buf: Bytes)
      requires id in live && id < |created| && |buf| <= created[id] && |buf| <= cells.Length
      modifies cells
      ensures cells[..] == buf + old(cells[..])[|buf|..]
    {
      var i := 0;
      while i < |buf|
        invariant 0 <= i <= |buf|
        invariant forall j :: 0 <= j < i ==> cells[j] == buf[j]
        invariant forall j :: i <= j < cells.Length ==> cells[j] == old(cells[j])
      {
        Store(id, i, buf[i]);
        i := i + 1;
      }
    }
  }
}
