/**
 * What a reader sees of the clock ring after a reset and any number of successful writes: the newest
 * timestamp among the last 50.
 */
module ClockHistory {
  import opened Common
  import opened Laps
  import opened ByteCodec
  import opened ClockRing

  datatype Write = Write(frameNum: UInt32, pts: Int64)

  predicate AllValid(ws: seq<Write>) {
    forall i | 0 <= i < |ws| :: ws[i].frameNum > 0 && ws[i].pts > 0
  }

  datatype Ring = Ring(bytes: seq<Byte>, index: nat)

  /** The region and the writer's index after a reset and the writes `ws`. */
  function RingAfter(size: nat, ws: seq<Write>): (r: Ring)
    requires UNIT * MAX_CLOCK_UNIT_COUNT <= size
    ensures |r.bytes| == size && r.index < MAX_CLOCK_UNIT_COUNT
  {
    if ws == [] then
      Ring(Zeros(size), 0)
    else
      var r := RingAfter(size, ws[..|ws| - 1]);
      var w := ws[|ws| - 1];
      Ring(WithUnit(r.bytes, r.index, w.frameNum, w.pts), NextIndex(r.index))
  }

  lemma RingAfterOneMore(size: nat, ws: seq<Write>, w: Write)
    requires UNIT * MAX_CLOCK_UNIT_COUNT <= size
    ensures var r := RingAfter(size, ws);
      RingAfter(size, ws + [w]) == Ring(WithUnit(r.bytes, r.index, w.frameNum, w.pts), NextIndex(r.index))
  {
    assert (ws + [w])[..|ws|] == ws;
  }

  // ----- One write -----

  lemma WrittenUnitReadsBack(bytes: seq<Byte>, i: nat, frameNum: UInt32, pts: Int64)
    requires UNIT * (i + 1) <= |bytes|
    ensures var r := WithUnit(bytes, i, frameNum, pts); FrameAt(r, i) == frameNum && PtsAt(r, i) == pts
  {
    var r := WithUnit(bytes, i, frameNum, pts);
    Ranges();
    assert FrameBytes(r, i) == ToBytes(frameNum, 4);
    assert PtsBytes(r, i) == ToBytes(AsUnsigned(pts), 8);
    RoundTrip(frameNum, 4);
    RoundTrip(AsUnsigned(pts), 8);
  }

  /** A write changes no byte but the twelve of its unit, so every other unit reads as before. */
  lemma WriteIsLocal(bytes: seq<Byte>, i: nat, frameNum: UInt32, pts: Int64, k: nat)
    requires UNIT * (i + 1) <= |bytes| && UNIT * (k + 1) <= |bytes| && k != i
    ensures var r := WithUnit(bytes, i, frameNum, pts);
      && (forall j | 0 <= j < |bytes| && !(UNIT * i <= j < UNIT * (i + 1)) :: r[j] == bytes[j])
      && FrameAt(r, k) == FrameAt(bytes, k)
      && PtsAt(r, k) == PtsAt(bytes, k)
  {
    var r := WithUnit(bytes, i, frameNum, pts);
    assert forall j | 0 <= j < |bytes| && !(UNIT * i <= j < UNIT * (i + 1)) :: r[j] == bytes[j];
    assert FrameBytes(r, k) == FrameBytes(bytes, k);
    assert PtsBytes(r, k) == PtsBytes(bytes, k);
  }

  // ----- Any number of writes -----

  lemma {:induction false} IndexCounts(size: nat, ws: seq<Write>)
    requires UNIT * MAX_CLOCK_UNIT_COUNT <= size
    ensures RingAfter(size, ws).index == |ws| % 50
  {
    if ws != [] {
      IndexCounts(size, ws[..|ws| - 1]);
      NextInLap(50, |ws| - 1);
    }
  }

  /** What unit k reads as: its last write, or zeros before the first. */
  predicate UnitHolds(bytes: seq<Byte>, ws: seq<Write>, k: nat)
    requires k < MAX_CLOCK_UNIT_COUNT && UNIT * MAX_CLOCK_UNIT_COUNT <= |bytes|
  {
    if k < |ws| then
      FrameAt(bytes, k) == ws[Latest(50, k, |ws|)].frameNum && PtsAt(bytes, k) == ws[Latest(50, k, |ws|)].pts
    else
      FrameAt(bytes, k) == 0 && PtsAt(bytes, k) == 0
  }

  lemma ZerosHold(size: nat, k: nat)
    requires UNIT * MAX_CLOCK_UNIT_COUNT <= size && k < MAX_CLOCK_UNIT_COUNT
    ensures UnitHolds(Zeros(size), [], k)
  {
    ZeroBytes(FrameBytes(Zeros(size), k));
    ZeroBytes(PtsBytes(Zeros(size), k));
  }

  lemma WriteKeepsUnit(r: Ring, ws: seq<Write>, w: Write, k: nat)
    requires k < MAX_CLOCK_UNIT_COUNT && UNIT * MAX_CLOCK_UNIT_COUNT <= |r.bytes|
    requires r.index == |ws| % 50 && UnitHolds(r.bytes, ws, k)
    ensures UnitHolds(WithUnit(r.bytes, r.index, w.frameNum, w.pts), ws + [w], k)
  {
    LatestOfNext(50, k, |ws|);
    if k == r.index {
      WrittenUnitReadsBack(r.bytes, k, w.frameNum, w.pts);
    } else {
      WriteIsLocal(r.bytes, r.index, w.frameNum, w.pts, k);
      assert k < |ws| ==> (ws + [w])[Latest(50, k, |ws|)] == ws[Latest(50, k, |ws|)];
    }
  }

  lemma {:induction false} UnitsHoldLastWrites(size: nat, ws: seq<Write>, k: nat)
    requires UNIT * MAX_CLOCK_UNIT_COUNT <= size && k < MAX_CLOCK_UNIT_COUNT
    ensures UnitHolds(RingAfter(size, ws).bytes, ws, k)
  {
    if ws == [] {
      ZerosHold(size, k);
    } else {
      var before, w := ws[..|ws| - 1], ws[|ws| - 1];
      UnitsHoldLastWrites(size, before, k);
      IndexCounts(size, before);
      WriteKeepsUnit(RingAfter(size, before), before, w, k);
      assert before + [w] == ws;
    }
  }

  // ----- What a read makes of it -----

  /** Write j is the one to be read: the largest of the last 50, in the lowest unit on ties. */
  predicate IsNewestWrite(ws: seq<Write>, j: nat) {
    && j < |ws| <= j + 50
    && forall i: nat | i < |ws| <= i + 50 ::
         && ws[i].pts <= ws[j].pts
         && (ws[i].pts == ws[j].pts ==> j % 50 <= i % 50)
  }

  /** The readiness test fails exactly when nothing was written. */
  lemma ReadyIffWritten(size: nat, ws: seq<Write>)
    requires UNIT * MAX_CLOCK_UNIT_COUNT <= size && AllValid(ws)
    ensures FrameAt(RingAfter(size, ws).bytes, 0) == 0 <==> ws == []
  {
    UnitsHoldLastWrites(size, ws, 0);
  }

  lemma RecentWriteIsInItsUnit(size: nat, ws: seq<Write>, i: nat)
    requires UNIT * MAX_CLOCK_UNIT_COUNT <= size && i < |ws| <= i + 50
    ensures PtsAt(RingAfter(size, ws).bytes, i % 50) == ws[i].pts
  {
    var k := i % 50;
    UnitsHoldLastWrites(size, ws, k);
    SameSlot(50, i, Latest(50, k, |ws|));
  }

  /** The unit that the scan picks holds the newest of the last 50 writes. */
  lemma NewestUnitIsNewestWrite(size: nat, ws: seq<Write>, b: nat)
    requires READER_SIZE <= size && AllValid(ws)
    requires IsNewest(RingAfter(size, ws).bytes, b)
    ensures b < |ws|
    ensures var j := Latest(50, b, |ws|);
      && IsNewestWrite(ws, j)
      && PtsAt(RingAfter(size, ws).bytes, b) == ws[j].pts
      && FrameAt(RingAfter(size, ws).bytes, b) == ws[j].frameNum
  {
    var bytes := RingAfter(size, ws).bytes;
    UnitsHoldLastWrites(size, ws, b);
    var j := Latest(50, b, |ws|);
    forall i: nat | i < |ws| <= i + 50
      ensures ws[i].pts <= ws[j].pts && (ws[i].pts == ws[j].pts ==> b <= i % 50)
    {
      RecentWriteIsInItsUnit(size, ws, i);
      assert PtsAt(bytes, i % 50) <= PtsAt(bytes, b);
    }
  }

  /** Some unit is the newest as soon as there was a write. */
  lemma NewestExists(size: nat, ws: seq<Write>)
    requires READER_SIZE <= size && AllValid(ws) && ws != []
    ensures exists b: nat :: IsNewest(RingAfter(size, ws).bytes, b)
  {
    var bytes := RingAfter(size, ws).bytes;
    UnitsHoldLastWrites(size, ws, 0);
    var b := LowestMaximum(bytes, MAX_CLOCK_UNIT_COUNT);
    assert PtsAt(bytes, 0) <= PtsAt(bytes, b);
    assert IsNewest(bytes, b);
  }

  lemma LowestMaximum(bytes: seq<Byte>, n: nat) returns (b: nat)
    requires 0 < n && UNIT * n <= |bytes|
    ensures b < n
    ensures forall k: nat | k < n :: PtsAt(bytes, k) <= PtsAt(bytes, b)
    ensures forall k: nat | k < b :: PtsAt(bytes, k) < PtsAt(bytes, b)
  {
    if n == 1 {
      b := 0;
    } else {
      b := LowestMaximum(bytes, n - 1);
      if PtsAt(bytes, b) < PtsAt(bytes, n - 1) {
        b := n - 1;
      }
    }
  }

  /** With strictly increasing timestamps the newest write is the last one. */
  lemma IncreasingMeansLast(ws: seq<Write>, j: nat)
    requires forall i, k | 0 <= i < k < |ws| :: ws[i].pts < ws[k].pts
    requires IsNewestWrite(ws, j)
    ensures j == |ws| - 1
  {
    assert ws[|ws| - 1].pts <= ws[j].pts;
  }

  // ----- Writer and reader on one region -----

  /** The writing side: its region, its running index, and the writes since the reset. */
  class MasterClock {
    const memory: SharedMemory
    const region: array<Byte>
    var smIndex: UInt32
    ghost var history: seq<Write>

    ghost predicate Valid()
      reads this, region
    {
      && !IsInvalidSharedMemory(memory)
      && memory.addr == region
      && memory.size == region.Length
      && UNIT * MAX_CLOCK_UNIT_COUNT <= region.Length
      && AllValid(history)
      && RingAfter(region.Length, history) == Ring(region[..], smIndex)
    }

    constructor (memory: SharedMemory, region: array<Byte>)
      requires !IsInvalidSharedMemory(memory) && memory.addr == region && memory.size == region.Length
      requires UNIT * MAX_CLOCK_UNIT_COUNT <= region.Length && region[..] == Zeros(region.Length)
      ensures Valid() && history == [] && this.region == region
    {
      this.memory, this.region, smIndex, history := memory, region, 0, [];
    }

    /** `WriteMasterClockToMemory`: the index moves on only after a successful write. */
    method WriteMasterClock(frameNum: UInt32, pts: Int64, os: Ashmem) returns (status: Status)
      requires Valid() && os.size == region.Length
      modifies this, region
      ensures Valid()
      ensures status == Success <==> frameNum > 0 && pts > 0 && os.setProt >= 0
      ensures history == if status == Success then old(history) + [Write(frameNum, pts)] else old(history)
    {
      ghost var was := history;
      RingAfterOneMore(region.Length, was, Write(frameNum, pts));
      assert smIndex < MAX_CLOCK_UNIT_COUNT;
      var unit, overrun;
      status, unit, overrun := WriteClockUnit(memory, ClockUnit(smIndex, frameNum, pts), os);
      if status == Success {
        assert !overrun;
        smIndex := unit.index;
        history := was + [Write(frameNum, pts)];
      }
    }

    /**
     * A read of the region by a caller whose unit has a frame number.  The receiving side allocates
     * 600 bytes, so a read there always takes the first case.
     */
    method Read(unit: ClockUnit, os: Ashmem) returns (status: Status, read: ClockUnit)
      requires Valid() && os.size == region.Length && os.setProt >= 0 && unit.frameNum > 0
      ensures region.Length < 604 ==> status == InvalidParam
      ensures region.Length >= 604 ==> status == if history == [] then MasterNotReady else Success
      ensures status != Success ==> read == unit
      ensures status == Success ==>
        exists j: nat :: IsNewestWrite(history, j)
          && read == unit.(frameNum := history[j].frameNum, pts := history[j].pts)
    {
      ReadyIffWritten(region.Length, history);
      status, read := ReadClockUnit(memory, unit, os);
      if status == Success {
        NewestExists(region.Length, history);
        ghost var b: nat :| IsNewest(region[..], b)
          && read == unit.(pts := PtsAt(region[..], b), frameNum := FrameAt(region[..], b));
        NewestUnitIsNewestWrite(region.Length, history, b);
      }
    }
  }
}
