/** The per-process receive-buffer allocator of `crates/aim-binder-driver/src/alloc.rs`: best fit over
    the mapping, half of it for one-way transactions, and the one-way spam report. */
module ReceiveAllocator {
  import opened Common

  const MAX_MAPPING: nat := 4 * 1024 * 1024

  datatype Errno = EINVAL | ENOSPC

  /** `align8`: nothing when the sum leaves 64 bits. */
  function Align8(value: nat): (r: Option<nat>)
    ensures r.Some? ==> value <= r.value < value + 8 && r.value % 8 == 0 && r.value <= U64_MAX
    ensures r.None? <==> Up8(value) > U64_MAX
    ensures r.Some? ==> r.value == Up8(value)
  {
    if value + 7 > U64_MAX then None else Some((value + 7) / 8 * 8)
  }

  /** The next multiple of eight, of whatever size. */
  function Up8(value: nat): nat {
    (value + 7) / 8 * 8
  }

  function CheckedAdd(a: Option<nat>, b: Option<nat>): (r: Option<nat>) {
    if a.Some? && b.Some? && a.value + b.value <= U64_MAX then Some(a.value + b.value) else None
  }

  datatype Buffer = Buffer(size: nat, dataSize: nat, offsetsSize: nat, isAsync: bool, senderPid: int)

  datatype Allocation = Allocation(offset: nat, onewaySpamSuspect: bool)
  datatype Result<+T> = Ok(value: T) | Err(error: Errno)

  // ---- layout ----

  /** `x` lies in a live buffer. */
  ghost predicate InBuffer(buffers: map<nat, Buffer>, x: int) {
    exists b :: b in buffers && b <= x < b + buffers[b].size
  }

  /** `x` lies in a free range. */
  ghost predicate InFree(free: map<nat, nat>, x: int) {
    exists f :: f in free && f <= x < f + free[f]
  }

  /** Live buffers lie inside the mapping and do not overlap. */
  ghost predicate BuffersApart(size: nat, buffers: map<nat, Buffer>) {
    && (forall b :: b in buffers ==> 0 < buffers[b].size && b + buffers[b].size <= size)
    && (forall a, b :: a in buffers && b in buffers && a < b ==> a + buffers[a].size <= b)
  }

  /** Free ranges lie inside the mapping and neither overlap nor touch. */
  ghost predicate FreeApart(size: nat, free: map<nat, nat>) {
    && (forall f :: f in free ==> 0 < free[f] && f + free[f] <= size)
    && (forall f, g :: f in free && g in free && f < g ==> f + free[f] < g)
  }

  ghost predicate Disjoint(free: map<nat, nat>, buffers: map<nat, Buffer>) {
    forall f, b :: f in free && b in buffers ==> f + free[f] <= b || b + buffers[b].size <= f
  }

  ghost predicate Tiled(size: nat, free: map<nat, nat>, buffers: map<nat, Buffer>) {
    forall x :: 0 <= x < size ==> InBuffer(buffers, x) || InFree(free, x)
  }

  /** The free map is the set of maximal gaps between the buffers. */
  ghost predicate FreeIsGaps(size: nat, free: map<nat, nat>, buffers: map<nat, Buffer>) {
    && BuffersApart(size, buffers) && FreeApart(size, free) && Disjoint(free, buffers) && Tiled(size, free, buffers)
  }

  /** Bytes are free exactly when no buffer holds them. */
  lemma FreeIffUnallocated(size: nat, free: map<nat, nat>, buffers: map<nat, Buffer>)
    requires FreeIsGaps(size, free, buffers)
    ensures forall x :: InFree(free, x) <==> 0 <= x < size && !InBuffer(buffers, x)
  {
    forall x ensures InFree(free, x) <==> 0 <= x < size && !InBuffer(buffers, x) {
      if InFree(free, x) {
        var f :| f in free && f <= x < f + free[f];
        forall b | b in buffers ensures !(b <= x < b + buffers[b].size) {
        }
      }
    }
  }

  /** A range ends where its bytes do, on both sides. */
  lemma RangeEdges(free: map<nat, nat>, size: nat, f: nat)
    requires FreeApart(size, free) && f in free
    ensures InFree(free, f) && !InFree(free, f - 1) && !InFree(free, f + free[f])
  {
    forall g | g in free ensures !(g <= f - 1 < g + free[g]) && !(g <= f + free[f] < g + free[g]) {
    }
  }

  lemma RangeFound(free: map<nat, nat>, other: map<nat, nat>, size: nat, f: nat)
    requires FreeApart(size, free) && FreeApart(size, other)
    requires forall x :: InFree(free, x) <==> InFree(other, x)
    requires f in free
    ensures f in other && other[f] <= free[f]
  {
    RangeEdges(free, size, f);
    assert InFree(other, f) && !InFree(other, f - 1) && !InFree(other, f + free[f]);
    var g :| g in other && g <= f < g + other[g];
    assert g > f - 1;
  }

  /** Ranges that neither overlap nor touch are determined by the bytes they hold. */
  lemma RangesFromBytes(free: map<nat, nat>, other: map<nat, nat>, size: nat)
    requires FreeApart(size, free) && FreeApart(size, other)
    requires forall x :: InFree(free, x) <==> InFree(other, x)
    ensures free == other
  {
    forall f | f in free ensures f in other && other[f] == free[f] {
      RangeFound(free, other, size, f);
      RangeFound(other, free, size, f);
    }
    forall f | f in other ensures f in free {
      RangeFound(other, free, size, f);
    }
  }

  /** The same places taken, by whatever buffers. */
  ghost predicate SameExtents(a: map<nat, Buffer>, b: map<nat, Buffer>) {
    a.Keys == b.Keys && forall o :: o in a ==> a[o].size == b[o].size
  }

  /** The free map depends on the live buffers alone, not on the order they came and went in. */
  lemma FreeIsHistoryIndependent(size: nat, free: map<nat, nat>, buffers: map<nat, Buffer>,
                                 free': map<nat, nat>, buffers': map<nat, Buffer>)
    requires FreeIsGaps(size, free, buffers) && FreeIsGaps(size, free', buffers')
    requires SameExtents(buffers, buffers')
    ensures free == free'
  {
    FreeIffUnallocated(size, free, buffers);
    FreeIffUnallocated(size, free', buffers');
    forall x ensures InBuffer(buffers, x) <==> InBuffer(buffers', x) {
      if InBuffer(buffers, x) {
        var b :| b in buffers && b <= x < b + buffers[b].size;
        assert b in buffers';
      }
      if InBuffer(buffers', x) {
        var b :| b in buffers' && b <= x < b + buffers'[b].size;
        assert b in buffers;
      }
    }
    RangesFromBytes(free, free', size);
  }

  // ---- taking and returning a range ----

  /** The free map after the front of a range is taken. */
  function Taken(free: map<nat, nat>, offset: nat, n: nat): map<nat, nat>
    requires offset in free && n <= free[offset]
  {
    var rest := free - {offset};
    if free[offset] > n then rest[offset + n := free[offset] - n] else rest
  }

  lemma TakenApart(size: nat, free: map<nat, nat>, offset: nat, n: nat)
    requires FreeApart(size, free) && offset in free && 0 < n <= free[offset]
    ensures FreeApart(size, Taken(free, offset, n))
  {
  }

  lemma TakenDisjoint(size: nat, free: map<nat, nat>, buffers: map<nat, Buffer>, offset: nat, buffer: Buffer)
    requires BuffersApart(size, buffers) && FreeApart(size, free) && Disjoint(free, buffers)
    requires offset in free && 0 < buffer.size <= free[offset]
    ensures offset !in buffers
    ensures BuffersApart(size, buffers[offset := buffer])
    ensures Disjoint(Taken(free, offset, buffer.size), buffers[offset := buffer])
  {
    forall b | b in buffers ensures free[offset] + offset <= b || b + buffers[b].size <= offset {
    }
  }

  lemma TakenTiled(size: nat, free: map<nat, nat>, buffers: map<nat, Buffer>, offset: nat, buffer: Buffer)
    requires Tiled(size, free, buffers) && offset !in buffers
    requires offset in free && 0 < buffer.size <= free[offset]
    requires offset + buffer.size !in free
    ensures Tiled(size, Taken(free, offset, buffer.size), buffers[offset := buffer])
  {
    var n := buffer.size;
    var free', buffers' := Taken(free, offset, n), buffers[offset := buffer];
    forall x | 0 <= x < size ensures InBuffer(buffers', x) || InFree(free', x) {
      if InBuffer(buffers, x) {
        var b :| b in buffers && b <= x < b + buffers[b].size;
        assert b in buffers' && buffers'[b] == buffers[b];
      } else {
        assert InFree(free, x);
        var f :| f in free && f <= x < f + free[f];
        if f != offset {
          assert f in free' && free'[f] == free[f];
        } else if x < offset + n {
          assert offset in buffers' && buffers'[offset] == buffer;
        } else {
          assert offset + n in free';
        }
      }
    }
  }

  lemma TakenIsGaps(size: nat, free: map<nat, nat>, buffers: map<nat, Buffer>, offset: nat, buffer: Buffer)
    requires FreeIsGaps(size, free, buffers)
    requires offset in free && 0 < buffer.size <= free[offset]
    ensures offset !in buffers
    ensures FreeIsGaps(size, Taken(free, offset, buffer.size), buffers[offset := buffer])
  {
    TakenApart(size, free, offset, buffer.size);
    TakenDisjoint(size, free, buffers, offset, buffer);
    TakenTiled(size, free, buffers, offset, buffer);
  }

  /** The greatest start of a free range before `offset`, if any. */
  ghost predicate IsPredecessor(free: map<nat, nat>, offset: nat, p: Option<nat>) {
    match p
    case None => forall f :: f in free ==> offset <= f
    case Some(f) => f in free && f < offset && forall g :: g in free && g < offset ==> g <= f
  }

  /** The free map after a range is returned, joined to the neighbours it touches. */
  function Returned(free: map<nat, nat>, offset: nat, n: nat, p: Option<nat>): map<nat, nat>
    requires p.Some? ==> p.value in free
  {
    var joins := p.Some? && p.value + free[p.value] == offset;
    var start := if joins then p.value else offset;
    var low := if joins then free[p.value] else 0;
    var rest := if joins then free - {p.value} else free;
    var high := if offset + n in rest then rest[offset + n] else 0;
    (rest - {offset + n})[start := low + n + high]
  }

  /** Where the returned range starts and ends once joined, and that nothing else moved. */
  lemma ReturnedShape(free: map<nat, nat>, offset: nat, n: nat, p: Option<nat>) returns (start: nat, len: nat)
    requires p.Some? ==> p.value in free && p.value < offset
    ensures if p.Some? && p.value + free[p.value] == offset then start == p.value else start == offset
    ensures start + len == offset + n + (if offset + n in free then free[offset + n] else 0)
    ensures start in Returned(free, offset, n, p) && Returned(free, offset, n, p)[start] == len
    ensures forall f :: f in Returned(free, offset, n, p) && f != start ==>
              f in free && Returned(free, offset, n, p)[f] == free[f] && f != offset + n
  {
    start := if p.Some? && p.value + free[p.value] == offset then p.value else offset;
    len := Returned(free, offset, n, p)[start];
  }

  lemma ReturnedApart(size: nat, free: map<nat, nat>, buffers: map<nat, Buffer>, offset: nat, p: Option<nat>)
    requires BuffersApart(size, buffers) && FreeApart(size, free) && Disjoint(free, buffers)
    requires offset in buffers && IsPredecessor(free, offset, p)
    ensures FreeApart(size, Returned(free, offset, buffers[offset].size, p))
  {
    hide Returned;
    var n := buffers[offset].size;
    var start, len := ReturnedShape(free, offset, n, p);
    forall f: nat | f in Returned(free, offset, n, p) && f != start ensures f + free[f] < start || start + len < f {
      assert f + free[f] <= offset || offset + n <= f;
    }
  }

  lemma ReturnedDisjoint(size: nat, free: map<nat, nat>, buffers: map<nat, Buffer>, offset: nat, p: Option<nat>)
    requires BuffersApart(size, buffers) && FreeApart(size, free) && Disjoint(free, buffers)
    requires offset in buffers && IsPredecessor(free, offset, p)
    ensures BuffersApart(size, buffers - {offset})
    ensures Disjoint(Returned(free, offset, buffers[offset].size, p), buffers - {offset})
  {
    var n := buffers[offset].size;
    forall b | b in buffers && b != offset ensures b + buffers[b].size <= offset || offset + n <= b {
    }
  }

  lemma ReturnedTiled(size: nat, free: map<nat, nat>, buffers: map<nat, Buffer>, offset: nat, p: Option<nat>)
    requires Tiled(size, free, buffers) && FreeApart(size, free) && offset !in free
    requires offset in buffers && IsPredecessor(free, offset, p)
    ensures Tiled(size, Returned(free, offset, buffers[offset].size, p), buffers - {offset})
  {
    var n := buffers[offset].size;
    var free', buffers' := Returned(free, offset, n, p), buffers - {offset};
    var start := if p.Some? && p.value + free[p.value] == offset then p.value else offset;
    forall x | 0 <= x < size ensures InBuffer(buffers', x) || InFree(free', x) {
      if start <= x < start + free'[start] {
        assert start in free';
      } else if InBuffer(buffers, x) {
        var b :| b in buffers && b <= x < b + buffers[b].size;
        assert b in buffers' && buffers'[b] == buffers[b];
      } else {
        assert InFree(free, x);
        var f :| f in free && f <= x < f + free[f];
        assert f in free' && free'[f] == free[f];
      }
    }
  }

  lemma ReturnedIsGaps(size: nat, free: map<nat, nat>, buffers: map<nat, Buffer>, offset: nat, p: Option<nat>)
    requires FreeIsGaps(size, free, buffers)
    requires offset in buffers && IsPredecessor(free, offset, p)
    ensures FreeIsGaps(size, Returned(free, offset, buffers[offset].size, p), buffers - {offset})
  {
    ReturnedApart(size, free, buffers, offset, p);
    ReturnedDisjoint(size, free, buffers, offset, p);
    ReturnedTiled(size, free, buffers, offset, p);
  }

  /** Taking a range and returning it restores the free map. */
  lemma TakeThenReturn(size: nat, free: map<nat, nat>, buffers: map<nat, Buffer>, offset: nat, buffer: Buffer,
      p: Option<nat>)
    requires FreeIsGaps(size, free, buffers)
    requires offset in free && 0 < buffer.size <= free[offset]
    requires IsPredecessor(Taken(free, offset, buffer.size), offset, p)
    ensures Returned(Taken(free, offset, buffer.size), offset, buffer.size, p) == free
  {
    TakenIsGaps(size, free, buffers, offset, buffer);
    var buffers' := buffers[offset := buffer];
    ReturnedIsGaps(size, Taken(free, offset, buffer.size), buffers', offset, p);
    assert buffers' - {offset} == buffers;
    FreeIsHistoryIndependent(size, free, buffers, Returned(Taken(free, offset, buffer.size), offset, buffer.size, p),
        buffers);
  }

  // ---- one-way space and spam reports ----

  ghost function Sizes(buffers: map<nat, Buffer>, offsets: set<nat>): nat
    requires offsets <= buffers.Keys
  {
    if offsets == {} then 0
    else
      var o :| o in offsets;
      buffers[o].size + Sizes(buffers, offsets - {o})
  }

  lemma {:induction false} SizesRemove(buffers: map<nat, Buffer>, offsets: set<nat>, o: nat)
    requires o in offsets && offsets <= buffers.Keys
    ensures Sizes(buffers, offsets) == buffers[o].size + Sizes(buffers, offsets - {o})
    decreases |offsets|
  {
    var p :| p in offsets && Sizes(buffers, offsets) == buffers[p].size + Sizes(buffers, offsets - {p});
    if p != o {
      SizesRemove(buffers, offsets - {p}, o);
      SizesRemove(buffers, offsets - {o}, p);
      assert offsets - {p} - {o} == offsets - {o} - {p};
    }
  }

  lemma {:induction false} SizesAgree(buffers: map<nat, Buffer>, other: map<nat, Buffer>, offsets: set<nat>)
    requires offsets <= buffers.Keys && offsets <= other.Keys
    requires forall o :: o in offsets ==> buffers[o] == other[o]
    ensures Sizes(buffers, offsets) == Sizes(other, offsets)
    decreases |offsets|
  {
    if offsets != {} {
      var o :| o in offsets && Sizes(buffers, offsets) == buffers[o].size + Sizes(buffers, offsets - {o});
      SizesAgree(buffers, other, offsets - {o});
      SizesRemove(other, offsets, o);
    }
  }

  ghost function OneWayOffsets(buffers: map<nat, Buffer>): set<nat> {
    set o | o in buffers && buffers[o].isAsync
  }

  ghost function SenderOffsets(buffers: map<nat, Buffer>, pid: int): set<nat> {
    set o | o in buffers && buffers[o].isAsync && buffers[o].senderPid == pid
  }

  /** The bytes live one-way buffers hold. */
  ghost function OneWayBytes(buffers: map<nat, Buffer>): nat {
    Sizes(buffers, OneWayOffsets(buffers))
  }

  lemma OneWayAdded(buffers: map<nat, Buffer>, offset: nat, buffer: Buffer)
    requires offset !in buffers
    ensures OneWayBytes(buffers[offset := buffer]) == OneWayBytes(buffers) + (if buffer.isAsync then buffer.size else 0)
  {
    var after := buffers[offset := buffer];
    SizesAgree(buffers, after, OneWayOffsets(buffers));
    if buffer.isAsync {
      SizesRemove(after, OneWayOffsets(after), offset);
      assert OneWayOffsets(after) - {offset} == OneWayOffsets(buffers);
    } else {
      assert OneWayOffsets(after) == OneWayOffsets(buffers);
    }
  }

  lemma OneWayRemoved(buffers: map<nat, Buffer>, offset: nat)
    requires offset in buffers
    ensures OneWayBytes(buffers) ==
            OneWayBytes(buffers - {offset}) + (if buffers[offset].isAsync then buffers[offset].size else 0)
  {
    OneWayAdded(buffers - {offset}, offset, buffers[offset]);
    assert (buffers - {offset})[offset := buffers[offset]] == buffers;
  }

  /** What a run has done to the one-way space: an allocation with the space it left, or anything else. */
  datatype Event = OneWay(left: nat, suspect: bool) | Other

  /** Whether a report is standing: it was made and no allocation has since left a tenth of the mapping. */
  ghost function Standing(log: seq<Event>, size: nat): bool {
    if log == [] then false
    else
      match log[|log| - 1]
      case Other => Standing(log[..|log| - 1], size)
      case OneWay(left, suspect) => left < size / 10 && (suspect || Standing(log[..|log| - 1], size))
  }

  /** Reports are made only when none is standing and less than a tenth is left. */
  ghost predicate ReportsOncePerEpisode(log: seq<Event>, size: nat) {
    forall k :: 0 <= k < |log| && log[k].OneWay? && log[k].suspect ==>
      log[k].left < size / 10 && !Standing(log[..k], size)
  }

  lemma LogExtended(log: seq<Event>, size: nat, e: Event)
    requires ReportsOncePerEpisode(log, size)
    requires e.OneWay? && e.suspect ==> e.left < size / 10 && !Standing(log, size)
    ensures ReportsOncePerEpisode(log + [e], size)
    ensures Standing(log + [e], size) ==
            (if e.Other? then Standing(log, size) else e.left < size / 10 && (e.suspect || Standing(log, size)))
  {
    var now := log + [e];
    assert now[..|log|] == log;
    forall k | 0 <= k < |now| && now[k].OneWay? && now[k].suspect
      ensures now[k].left < size / 10 && !Standing(now[..k], size)
    {
      if k < |log| {
        assert now[..k] == log[..k];
      }
    }
  }

  lemma {:induction false} StandingPersists(log: seq<Event>, size: nat, i: nat, j: nat)
    requires i <= j <= |log| && Standing(log[..i], size)
    requires forall k :: i <= k < j ==> log[k].OneWay? ==> log[k].left < size / 10
    ensures Standing(log[..j], size)
    decreases j - i
  {
    if i < j {
      assert log[..i + 1][..i] == log[..i] && log[..i + 1][i] == log[i];
      StandingPersists(log, size, i + 1, j);
    }
  }

  /** Between two reports some one-way allocation left at least a tenth of the mapping. */
  lemma ReportsAreSeparated(log: seq<Event>, size: nat, i: nat, j: nat)
    requires ReportsOncePerEpisode(log, size) && i < j < |log|
    requires log[i].OneWay? && log[i].suspect && log[j].OneWay? && log[j].suspect
    ensures exists k :: i < k < j && log[k].OneWay? && log[k].left >= size / 10
  {
    assert log[..i + 1][..i] == log[..i] && log[..i + 1][i] == log[i];
    if forall k :: i + 1 <= k < j ==> log[k].OneWay? ==> log[k].left < size / 10 {
      StandingPersists(log, size, i + 1, j);
      assert false;
    }
  }

  // ---- the allocator ----

  /** The bytes a request takes, at least eight; nothing when the sum leaves 64 bits. */
  function RequestSize(dataSize: nat, offsetsSize: nat, extraSize: nat): (r: Option<nat>)
    ensures r.None? <==> Up8(dataSize) + Up8(offsetsSize) + Up8(extraSize) > U64_MAX
    ensures r.Some? ==>
              var total := Up8(dataSize) + Up8(offsetsSize) + Up8(extraSize);
              r.value == if total < 8 then 8 else total
    ensures r.Some? ==> Align8(dataSize).Some? && Align8(offsetsSize).Some?
    ensures r.Some? ==> Align8(dataSize).value + Align8(offsetsSize).value + extraSize <= r.value
  {
    var total := CheckedAdd(CheckedAdd(Align8(dataSize), Align8(offsetsSize)), Align8(extraSize));
    if total.None? then None else Some(if total.value < 8 then 8 else total.value)
  }

  /** The data, then from the next multiple of eight the offsets, all inside the buffer. */
  ghost predicate RegionsInside(b: Buffer) {
    && Align8(b.dataSize).Some?
    && b.dataSize <= Align8(b.dataSize).value
    && Align8(b.dataSize).value + b.offsetsSize <= b.size
  }

  /** The smallest sufficient range, the lowest of those; nothing when none suffices. */
  ghost predicate IsBestFit(free: map<nat, nat>, n: nat, o: Option<nat>) {
    match o
    case None => forall f :: f in free ==> free[f] < n
    case Some(b) =>
      && b in free && n <= free[b]
      && forall f :: f in free && n <= free[f] ==> free[b] < free[f] || (free[b] == free[f] && b <= f)
  }

  class Allocator {
    const vmStart: nat
    const size: nat
    var free: map<nat, nat>
    var buffers: map<nat, Buffer>
    var freeAsyncSpace: nat
    var onewaySpamDetected: bool
    ghost var log: seq<Event>

    ghost predicate Valid()
      reads this
    {
      && size <= MAX_MAPPING
      && (if size == 0 then free == map[0 := 0] && buffers == map[] else FreeIsGaps(size, free, buffers))
      && (forall b :: b in buffers ==> RegionsInside(buffers[b]))
      && freeAsyncSpace + OneWayBytes(buffers) == size / 2
      && onewaySpamDetected == Standing(log, size)
      && ReportsOncePerEpisode(log, size)
    }

    constructor (vmStart: nat, size: nat)
      ensures Valid()
      ensures this.vmStart == vmStart && this.size == (if size < 0x40_0000 then size else 0x40_0000)
      ensures buffers == map[] && free == map[0 := this.size]
      ensures freeAsyncSpace == this.size / 2 && !onewaySpamDetected
    {
      var n := if size < MAX_MAPPING then size else MAX_MAPPING;
      this.vmStart := vmStart;
      this.size := n;
      free := map[0 := n];
      buffers := map[];
      freeAsyncSpace := n / 2;
      onewaySpamDetected := false;
      log := [];
      new;
      assert Tiled(n, free, buffers) by {
        forall x | 0 <= x < n ensures InFree(free, x) {
          assert 0 in free;
        }
      }
    }

    method BestFit(n: nat) returns (o: Option<nat>)
      ensures IsBestFit(free, n, o)
    {
      o := None;
      var left := free.Keys;
      while left != {}
        invariant left <= free.Keys
        invariant o.Some? ==> o.value in free && n <= free[o.value]
        invariant forall f :: f in free && f !in left && n <= free[f] ==>
            o.Some? && (free[o.value] < free[f] || (free[o.value] == free[f] && o.value <= f))
        decreases left
      {
        var f :| f in left;
        left := left - {f};
        if n <= free[f] && (o.None? || free[f] < free[o.value] || (free[f] == free[o.value] && f < o.value)) {
          o := Some(f);
        }
      }
    }

    method Predecessor(offset: nat) returns (p: Option<nat>)
      ensures IsPredecessor(free, offset, p)
    {
      p := None;
      var left := free.Keys;
      while left != {}
        invariant left <= free.Keys
        invariant p.Some? ==> p.value in free && p.value < offset
        invariant forall f :: f in free && f !in left && f < offset ==> p.Some? && f <= p.value
        decreases left
      {
        var f :| f in left;
        left := left - {f};
        if f < offset && (p.None? || p.value < f) {
          p := Some(f);
        }
      }
    }

    /** `count` and `total` of the sender's live one-way buffers. */
    method SenderUse(pid: int) returns (count: nat, total: nat)
      ensures count == |SenderOffsets(buffers, pid)|
      ensures total == Sizes(buffers, SenderOffsets(buffers, pid))
    {
      count, total := 0, 0;
      var left := buffers.Keys;
      ghost var seen: set<nat> := {};
      while left != {}
        invariant left <= buffers.Keys
        invariant forall o :: o in seen <==> o in SenderOffsets(buffers, pid) && o !in left
        invariant count == |seen| && total == Sizes(buffers, seen)
        decreases left
      {
        var o :| o in left;
        left := left - {o};
        if buffers[o].isAsync && buffers[o].senderPid == pid {
          count, total := count + 1, total + buffers[o].size;
          ghost var was := seen;
          seen := seen + {o};
          assert seen - {o} == was;
          SizesRemove(buffers, seen, o);
        }
      }
      assert seen == SenderOffsets(buffers, pid);
    }

    /** `low_async_space`: whether the sender is reported, which also moves the flag. */
    method LowAsyncSpace(senderPid: int) returns (suspect: bool)
      modifies this`onewaySpamDetected
      ensures suspect <==>
        && freeAsyncSpace < size / 10 && !old(onewaySpamDetected)
        && (|SenderOffsets(buffers, senderPid)| + 1 > 50
             || Sizes(buffers, SenderOffsets(buffers, senderPid)) > size / 4)
      ensures onewaySpamDetected == (freeAsyncSpace < size / 10 && (suspect || old(onewaySpamDetected)))
    {
      if freeAsyncSpace >= size / 10 {
        onewaySpamDetected := false;
        return false;
      }
      var count, total := SenderUse(senderPid);
      if (count + 1 > 50 || total > size / 4) && !onewaySpamDetected {
        onewaySpamDetected := true;
        return true;
      }
      return false;
    }

    method Allocate(dataSize: nat, offsetsSize: nat, extraSize: nat, isAsync: bool, senderPid: int)
        returns (r: Result<Allocation>)
      requires Valid()
      modifies this
      ensures Valid()
      ensures r == Err(EINVAL) <==> RequestSize(dataSize, offsetsSize, extraSize).None?
      ensures r == Err(ENOSPC) <==>
        var n := RequestSize(dataSize, offsetsSize, extraSize);
        n.Some? && ((isAsync && old(freeAsyncSpace) < n.value) || IsBestFit(old(free), n.value, None))
      ensures r.Err? ==> unchanged(this)
      ensures r.Ok? ==>
        var n, o := RequestSize(dataSize, offsetsSize, extraSize).value, r.value.offset;
        && IsBestFit(old(free), n, Some(o))
        && o !in old(buffers)
        && buffers == old(buffers)[o := Buffer(n, dataSize, offsetsSize, isAsync, senderPid)]
        && free == Taken(old(free), o, n)
        && freeAsyncSpace == old(freeAsyncSpace) - (if isAsync then n else 0)
      ensures r.Ok? ==> (r.value.onewaySpamSuspect <==>
        && isAsync && freeAsyncSpace < size / 10 && !old(onewaySpamDetected)
        && (|SenderOffsets(old(buffers), senderPid)| + 1 > 50
            || Sizes(old(buffers), SenderOffsets(old(buffers), senderPid)) > size / 4))
      ensures r.Ok? ==> log == old(log) + [if isAsync then OneWay(freeAsyncSpace, r.value.onewaySpamSuspect) else Other]
    {
      hide FreeIsGaps, Standing, ReportsOncePerEpisode, OneWayBytes, Taken;
      var request := RequestSize(dataSize, offsetsSize, extraSize);
      if request.None? {
        return Err(EINVAL);
      }
      var n := request.value;
      if isAsync && freeAsyncSpace < n {
        return Err(ENOSPC);
      }
      var fit := BestFit(n);
      if fit.None? {
        return Err(ENOSPC);
      }
      var offset := fit.value;
      var buffer := Buffer(n, dataSize, offsetsSize, isAsync, senderPid);
      TakenIsGaps(size, free, buffers, offset, buffer);
      OneWayAdded(buffers, offset, buffer);
      free := Taken(free, offset, n);
      var suspect := false;
      if isAsync {
        freeAsyncSpace := freeAsyncSpace - n;
        suspect := LowAsyncSpace(senderPid);
      }
      buffers := buffers[offset := buffer];
      ghost var event := if isAsync then OneWay(freeAsyncSpace, suspect) else Other;
      LogExtended(log, size, event);
      log := log + [event];
      return Ok(Allocation(offset, suspect));
    }

    /** The part of `free` that edits the free map. */
    method Coalesce(offset: nat, n: nat, p: Option<nat>)
      requires IsPredecessor(free, offset, p)
      modifies this`free
      ensures free == Returned(old(free), offset, n, p)
    {
      var start, len := offset, n;
      if p.Some? && p.value + free[p.value] == offset {
        start, len := p.value, len + free[p.value];
        free := free - {p.value};
      }
      if offset + n in free {
        len := len + free[offset + n];
        free := free - {offset + n};
      }
      free := free[start := len];
    }

    /** `free`: the buffer is gone and its range joined to the free ranges it touches. */
    method Free(offset: nat) returns (r: Option<Buffer>)
      requires Valid()
      modifies this
      ensures Valid()
      ensures r == if offset in old(buffers) then Some(old(buffers)[offset]) else None
      ensures r.None? ==> unchanged(this)
      ensures r.Some? ==>
        && buffers == old(buffers) - {offset}
        && freeAsyncSpace == old(freeAsyncSpace) + (if r.value.isAsync then r.value.size else 0)
        && onewaySpamDetected == old(onewaySpamDetected)
        && log == old(log) + [Other]
    {
      hide FreeIsGaps, Standing, ReportsOncePerEpisode, OneWayBytes, Returned;
      if offset !in buffers {
        return None;
      }
      var buffer := buffers[offset];
      OneWayRemoved(buffers, offset);
      var p := Predecessor(offset);
      ReturnedIsGaps(size, free, buffers, offset, p);
      buffers := buffers - {offset};
      if buffer.isAsync {
        freeAsyncSpace := freeAsyncSpace + buffer.size;
      }
      Coalesce(offset, buffer.size, p);
      LogExtended(log, size, Other);
      log := log + [Other];
      return Some(buffer);
    }

    /** `offset_of`: the buffer a user pointer names, if it is the start of a live one. */
    method OffsetOf(userPtr: nat) returns (r: Option<nat>)
      ensures forall o :: r == Some(o) <==> o in buffers && userPtr == vmStart + o
    {
      if userPtr < vmStart || userPtr - vmStart !in buffers {
        return None;
      }
      return Some(userPtr - vmStart);
    }

    /** An allocation freed at once leaves the free map and the one-way space as they were. */
    method AllocateAndFree(dataSize: nat, offsetsSize: nat, extraSize: nat, isAsync: bool, senderPid: int)
      requires Valid()
      modifies this
      ensures Valid()
      ensures free == old(free) && buffers == old(buffers) && freeAsyncSpace == old(freeAsyncSpace)
    {
      var r := Allocate(dataSize, offsetsSize, extraSize, isAsync, senderPid);
      if r.Ok? {
        var b := Free(r.value.offset);
        assert buffers == old(buffers);
        FreeIsHistoryIndependent(size, free, buffers, old(free), old(buffers));
      }
    }
  }
}
