/**
 * The shared-memory clock: a ring of 50 units of 12 bytes, each a frame number and a timestamp.
 * One writer fills the units round and round, readers look for the largest timestamp.
 */
module ClockRing {
  import opened Common
  import opened ByteCodec

  const MAX_CLOCK_UNIT_COUNT: nat := 50
  const UNIT: nat := 12
  /** What the reader demands of a region: all units and four bytes more. */
  const READER_SIZE: nat := 604

  const UINT32_END: nat := 0x1_0000_0000
  const UINT64_END: nat := 0x1_0000_0000_0000_0000

  type UInt32 = x: nat | x < UINT32_END

  datatype ClockUnit = ClockUnit(index: UInt32, frameNum: UInt32, pts: Int64)

  /** A handle on a mapped region; no address stands for a null one. */
  datatype SharedMemory = SharedMemory(fd: int, size: int, name: string, addr: array?<Byte>)

  /** What the operating system answers about the region. */
  datatype Ashmem = Ashmem(size: int, setProt: int)

  predicate IsInvalidSharedMemory(m: SharedMemory) {
    m.fd <= 0 || m.size <= 0 || m.name == "" || m.addr == null
  }

  predicate IsInvalidClockUnit(u: ClockUnit) {
    u.index >= MAX_CLOCK_UNIT_COUNT || u.frameNum == 0 || u.pts <= 0
  }

  function AsUnsigned(pts: Int64): (v: nat)
    ensures v < UINT64_END
  {
    if pts < 0 then pts + UINT64_END else pts
  }

  function AsSigned(v: nat): Int64
    requires v < UINT64_END
  {
    if v > INT64_MAX then v - UINT64_END else v
  }

  // ----- The region as bytes -----

  function Zeros(size: nat): seq<Byte> {
    seq(size, _ => 0)
  }

  /** The bytes with unit i overwritten. */
  function WithUnit(bytes: seq<Byte>, i: nat, frameNum: UInt32, pts: Int64): (r: seq<Byte>)
    requires UNIT * (i + 1) <= |bytes|
    ensures |r| == |bytes|
  {
    bytes[..UNIT * i] + ToBytes(frameNum, 4) + ToBytes(AsUnsigned(pts), 8) + bytes[UNIT * (i + 1)..]
  }

  function FrameBytes(bytes: seq<Byte>, i: nat): (r: seq<Byte>)
    requires UNIT * (i + 1) <= |bytes|
    ensures |r| == 4
  {
    bytes[UNIT * i..UNIT * i + 4]
  }

  function PtsBytes(bytes: seq<Byte>, i: nat): (r: seq<Byte>)
    requires UNIT * (i + 1) <= |bytes|
    ensures |r| == 8
  {
    bytes[UNIT * i + 4..UNIT * (i + 1)]
  }

  lemma {:induction false} FromBytesBound(s: seq<Byte>)
    ensures FromBytes(s) < Range(|s|)
  {
    if s != [] {
      FromBytesBound(s[1..]);
    }
  }

  function FrameAt(bytes: seq<Byte>, i: nat): UInt32
    requires UNIT * (i + 1) <= |bytes|
  {
    FromBytesBound(FrameBytes(bytes, i));
    Ranges();
    FromBytes(FrameBytes(bytes, i))
  }

  function PtsAt(bytes: seq<Byte>, i: nat): Int64
    requires UNIT * (i + 1) <= |bytes|
  {
    FromBytesBound(PtsBytes(bytes, i));
    Ranges();
    AsSigned(FromBytes(PtsBytes(bytes, i)))
  }

  /** Unit b has the largest positive timestamp of the region, and is the lowest such unit. */
  ghost predicate IsNewest(bytes: seq<Byte>, b: nat)
    requires READER_SIZE <= |bytes|
  {
    && b < MAX_CLOCK_UNIT_COUNT
    && 0 < PtsAt(bytes, b)
    && (forall k: nat | k < MAX_CLOCK_UNIT_COUNT :: PtsAt(bytes, k) <= PtsAt(bytes, b))
    && (forall k: nat | k < b :: PtsAt(bytes, k) < PtsAt(bytes, b))
  }

  // ----- The three operations -----

  function NextIndex(i: nat): nat {
    if i + 1 == MAX_CLOCK_UNIT_COUNT then 0 else i + 1
  }

  /** The status that the writer's checks arrive at, in their order. */
  function WriteStatus(m: SharedMemory, u: ClockUnit, os: Ashmem): Status {
    if IsInvalidSharedMemory(m) || m.size < UNIT || IsInvalidClockUnit(u) then InvalidParam
    else if os.size != m.size || os.setProt < 0 then SharedMemoryFailed
    else Success
  }

  /** The writer accepts exactly a mapped region of 12 bytes and a unit with positive values. */
  lemma AcceptedExactly(m: SharedMemory, u: ClockUnit, os: Ashmem)
    ensures WriteStatus(m, u, os) != InvalidParam <==>
      && m.fd > 0 && m.name != "" && m.addr != null && m.size >= 12
      && u.index < 50 && u.frameNum > 0 && u.pts > 0
    ensures WriteStatus(m, u, os) == Success <==>
      WriteStatus(m, u, os) != InvalidParam && os.size == m.size && os.setProt >= 0
  {
  }

  /** The two stores of a write, timestamp first, make up the unit. */
  lemma StoresMakeUnit(was: seq<Byte>, mid: seq<Byte>, now: seq<Byte>, i: nat, frameNum: UInt32, pts: Int64)
    requires UNIT * (i + 1) <= |was|
    requires mid == was[..UNIT * i + 4] + ToBytes(AsUnsigned(pts), 8) + was[UNIT * (i + 1)..]
    requires now == mid[..UNIT * i] + ToBytes(frameNum, 4) + mid[UNIT * i + 4..]
    ensures now == WithUnit(was, i, frameNum, pts)
  {
    assert mid[..UNIT * i] == was[..UNIT * i];
    assert mid[UNIT * i + 4..] == ToBytes(AsUnsigned(pts), 8) + was[UNIT * (i + 1)..];
  }

  /**
   * `WriteClockUnitToMemory`.  The code checks the region for 12 bytes only; `overrun` says that it goes
   * on to store outside of it, and nothing is promised about the bytes then.
   */
  method WriteClockUnit(m: SharedMemory, u: ClockUnit, os: Ashmem)
    returns (status: Status, next: ClockUnit, overrun: bool)
    requires m.addr != null ==> m.addr.Length == os.size
    modifies m.addr
    ensures status == WriteStatus(m, u, os)
    ensures status != Success ==> next == u && (m.addr != null ==> m.addr[..] == old(m.addr[..]))
    ensures status == Success ==> next == u.(index := NextIndex(u.index))
    ensures overrun <==> status == Success && m.size < UNIT * (u.index + 1)
    ensures status == Success && !overrun ==>
      m.addr[..] == WithUnit(old(m.addr[..]), u.index, u.frameNum, u.pts)
  {
    next, overrun := u, false;
    if IsInvalidSharedMemory(m) || m.size < UNIT || IsInvalidClockUnit(u) {
      return InvalidParam, next, false;
    }
    if os.size != m.size || os.setProt < 0 {
      return SharedMemoryFailed, next, false;
    }
    var fOffset := UNIT * u.index;
    if fOffset + UNIT > m.size {
      overrun := true;
    } else {
      ghost var was := m.addr[..];
      StoreBytes(m.addr, fOffset + 4, AsUnsigned(u.pts), 8, 8);
      ghost var mid := m.addr[..];
      StoreBytes(m.addr, fOffset, u.frameNum, 4, 4);
      StoresMakeUnit(was, mid, m.addr[..], u.index, u.frameNum, u.pts);
    }
    next := next.(index := next.index + 1);
    if next.index == MAX_CLOCK_UNIT_COUNT {
      next := next.(index := 0);
    }
    status := Success;
  }

  function ReadStatus(m: SharedMemory, u: ClockUnit, os: Ashmem, firstFrame: nat): Status {
    if IsInvalidSharedMemory(m) || m.size < READER_SIZE || u.frameNum == 0 then InvalidParam
    else if os.size != m.size || os.setProt < 0 then SharedMemoryFailed
    else if firstFrame == 0 then MasterNotReady
    else Success
  }

  /** The reader demands 604 bytes and a caller's unit with a frame number. */
  lemma ReadableExactly(m: SharedMemory, u: ClockUnit, os: Ashmem, firstFrame: nat)
    ensures var status := ReadStatus(m, u, os, firstFrame);
      var valid := m.fd > 0 && m.name != "" && m.addr != null && m.size >= 604 && u.frameNum > 0;
      && (status == InvalidParam <==> !valid)
      && (status == SharedMemoryFailed <==> valid && (os.size != m.size || os.setProt < 0))
      && (status == MasterNotReady <==> valid && os.size == m.size && os.setProt >= 0 && firstFrame == 0)
      && (status == Success <==> valid && os.size == m.size && os.setProt >= 0 && firstFrame > 0)
  {
  }

  /** One turn of the reader's scan: the unit's two loads. */
  method LoadUnit(mem: array<Byte>, i: nat) returns (frameNum: UInt32, pts: Int64)
    requires UNIT * (i + 1) <= mem.Length
    ensures frameNum == FrameAt(mem[..], i) && pts == PtsAt(mem[..], i)
  {
    assert mem[UNIT * i..UNIT * i + 4] == FrameBytes(mem[..], i);
    assert mem[UNIT * i + 4..UNIT * i + 4 + 8] == PtsBytes(mem[..], i);
    FromBytesBound(FrameBytes(mem[..], i));
    FromBytesBound(PtsBytes(mem[..], i));
    Ranges();
    var frame := LoadBytes(mem, UNIT * i, 4, 4);
    var raw := LoadBytes(mem, UNIT * i + 4, 8, 8);
    frameNum, pts := frame, AsSigned(raw);
  }

  /** `ReadClockUnitFromMemory`: the newest unit, or the caller's own values if no timestamp is positive. */
  method ReadClockUnit(m: SharedMemory, u: ClockUnit, os: Ashmem) returns (status: Status, read: ClockUnit)
    requires m.addr != null ==> m.addr.Length == os.size
    ensures status ==
      ReadStatus(m, u, os, if m.addr != null && m.addr.Length >= UNIT then FrameAt(m.addr[..], 0) else 0)
    ensures status != Success ==> read == u
    ensures status == Success ==> m.addr != null && READER_SIZE <= m.addr.Length
    ensures status == Success ==>
      || (read == u && forall k: nat | k < MAX_CLOCK_UNIT_COUNT :: PtsAt(m.addr[..], k) <= 0)
      || (exists b: nat :: IsNewest(m.addr[..], b)
            && read == u.(pts := PtsAt(m.addr[..], b), frameNum := FrameAt(m.addr[..], b)))
  {
    read := u;
    if IsInvalidSharedMemory(m) || m.size < READER_SIZE || u.frameNum == 0 {
      return InvalidParam, read;
    }
    if os.size != m.size || os.setProt < 0 {
      return SharedMemoryFailed, read;
    }
    ghost var bytes := m.addr[..];
    var firstUnit := LoadBytes(m.addr, 0, 4, 4);
    assert bytes[0..4] == FrameBytes(bytes, 0);
    if firstUnit == 0 {
      return MasterNotReady, read;
    }
    var index, latestPts: Int64 := 0, 0;
    ghost var best: nat := 0;
    while index < MAX_CLOCK_UNIT_COUNT
      invariant index <= MAX_CLOCK_UNIT_COUNT
      invariant 0 <= latestPts
      invariant forall k: nat | k < index :: PtsAt(bytes, k) <= latestPts
      invariant latestPts == 0 ==> read == u
      invariant latestPts > 0 ==>
        && best < index
        && PtsAt(bytes, best) == latestPts
        && (forall k: nat | k < best :: PtsAt(bytes, k) < latestPts)
        && read == u.(pts := latestPts, frameNum := FrameAt(bytes, best))
    {
      var frameNum, pts := LoadUnit(m.addr, index);
      if pts > latestPts {
        latestPts := pts;
        read := read.(pts := pts, frameNum := frameNum);
        best := index;
      }
      index := index + 1;
    }
    assert latestPts > 0 ==> IsNewest(bytes, best);
    status := Success;
  }

  /** `ResetSharedMemory`. */
  method ResetSharedMemory(m: SharedMemory, os: Ashmem) returns (status: Status)
    requires m.addr != null ==> m.addr.Length == os.size
    modifies m.addr
    ensures status == if IsInvalidSharedMemory(m) then InvalidParam
                      else if os.size != m.size || os.setProt < 0 then SharedMemoryFailed else Success
    ensures status == Success ==> m.addr[..] == Zeros(m.addr.Length)
    ensures status != Success && m.addr != null ==> m.addr[..] == old(m.addr[..])
  {
    if IsInvalidSharedMemory(m) {
      return InvalidParam;
    }
    if os.size != m.size || os.setProt < 0 {
      return SharedMemoryFailed;
    }
    forall i | 0 <= i < m.addr.Length {
      m.addr[i] := 0;
    }
    return Success;
  }
}
