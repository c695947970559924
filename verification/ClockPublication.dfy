/**
 * The first write after a reset, byte by byte: eight timestamp bytes, then four bytes of the frame
 * number, on which the reader's readiness test looks.  Byte stores become visible in program order.
 */
module ClockPublication {
  import opened Common
  import opened ByteCodec
  import opened ClockRing
  import ClockHistory

  /** The t-th store of a write to unit i: its offset and its byte. */
  function StoreAt(i: nat, frameNum: UInt32, pts: Int64, t: nat): (nat, Byte)
    requires t < UNIT
  {
    if t < 8 then (UNIT * i + 4 + t, ToBytes(AsUnsigned(pts), 8)[t])
    else (UNIT * i + t - 8, ToBytes(frameNum, 4)[t - 8])
  }

  /** The region after the first t stores of a write to unit i. */
  function MemAfter(bytes: seq<Byte>, i: nat, frameNum: UInt32, pts: Int64, t: nat): (r: seq<Byte>)
    requires UNIT * (i + 1) <= |bytes| && t <= UNIT
    ensures |r| == |bytes|
  {
    if t == 0 then
      bytes
    else
      var (offset, b) := StoreAt(i, frameNum, pts, t - 1);
      MemAfter(bytes, i, frameNum, pts, t - 1)[offset := b]
  }

  predicate StoresFit(size: nat, i: nat, frameNum: UInt32, pts: Int64) {
    forall t: nat | t < UNIT :: StoreAt(i, frameNum, pts, t).0 < size
  }

  /** A write to unit i stays inside the region exactly if the region holds that unit. */
  lemma StoresFitExactly(size: nat, i: nat, frameNum: UInt32, pts: Int64)
    ensures StoresFit(size, i, frameNum, pts) <==> UNIT * (i + 1) <= size
  {
    assert StoreAt(i, frameNum, pts, 7).0 == UNIT * i + 11;
  }

  /** So 600 bytes are what the writer needs for all the indices that it accepts. */
  lemma AllIndicesFitExactly(size: nat, frameNum: UInt32, pts: Int64)
    ensures (forall i: nat | i < MAX_CLOCK_UNIT_COUNT :: StoresFit(size, i, frameNum, pts)) <==>
      UNIT * MAX_CLOCK_UNIT_COUNT <= size
  {
    forall i: nat ensures StoresFit(size, i, frameNum, pts) <==> UNIT * (i + 1) <= size {
      StoresFitExactly(size, i, frameNum, pts);
    }
    assert StoresFit(size, MAX_CLOCK_UNIT_COUNT - 1, frameNum, pts) <==> UNIT * MAX_CLOCK_UNIT_COUNT <= size;
  }

  /** What each byte of the unit is in between. */
  lemma {:induction false} MemAfterAt(bytes: seq<Byte>, i: nat, frameNum: UInt32, pts: Int64, t: nat, j: nat)
    requires UNIT * (i + 1) <= |bytes| && t <= UNIT && j < |bytes|
    ensures var offset := j - UNIT * i;
      MemAfter(bytes, i, frameNum, pts, t)[j] ==
        if 4 <= offset < 4 + t && offset < UNIT then ToBytes(AsUnsigned(pts), 8)[offset - 4]
        else if 0 <= offset < 4 && offset + 8 < t then ToBytes(frameNum, 4)[offset]
        else bytes[j]
  {
    if t > 0 {
      MemAfterAt(bytes, i, frameNum, pts, t - 1, j);
    }
  }

  /** All twelve stores together are the write. */
  lemma AllStoresAreTheWrite(bytes: seq<Byte>, i: nat, frameNum: UInt32, pts: Int64)
    requires UNIT * (i + 1) <= |bytes|
    ensures MemAfter(bytes, i, frameNum, pts, UNIT) == WithUnit(bytes, i, frameNum, pts)
  {
    forall j: nat | j < |bytes|
      ensures MemAfter(bytes, i, frameNum, pts, UNIT)[j] == WithUnit(bytes, i, frameNum, pts)[j]
    {
      MemAfterAt(bytes, i, frameNum, pts, UNIT, j);
    }
  }

  /** The frame number that a reader assembles when it loads byte k of it after `loads[k]` stores. */
  function LoadedFrame(size: nat, frameNum: UInt32, pts: Int64, loads: seq<nat>): seq<Byte>
    requires UNIT <= size && |loads| == 4 && forall k | 0 <= k < 4 :: loads[k] <= UNIT
  {
    seq(4, k requires 0 <= k < 4 => MemAfter(Zeros(size), 0, frameNum, pts, loads[k])[k])
  }

  /**
   * However a reader's loads fall between the writer's stores: if its readiness test passes, then from
   * its last load of the frame number on, the timestamp of the unit is complete.
   */
  lemma ReadyMeansTimestampFinal(size: nat, frameNum: UInt32, pts: Int64, loads: seq<nat>, later: nat)
    requires UNIT <= size && |loads| == 4 && later <= UNIT
    requires forall k | 0 <= k < 4 :: loads[k] <= later
    requires FromBytes(LoadedFrame(size, frameNum, pts, loads)) != 0
    ensures var mem := MemAfter(Zeros(size), 0, frameNum, pts, later);
      && PtsBytes(mem, 0) == ToBytes(AsUnsigned(pts), 8)
      && PtsAt(mem, 0) == pts
  {
    var loaded := LoadedFrame(size, frameNum, pts, loads);
    ZeroBytes(loaded);
    var k :| 0 <= k < 4 && loaded[k] != 0;
    MemAfterAt(Zeros(size), 0, frameNum, pts, loads[k], k);
    assert later > 8;
    var mem := MemAfter(Zeros(size), 0, frameNum, pts, later);
    var written := WithUnit(Zeros(size), 0, frameNum, pts);
    forall j: nat | 4 <= j < UNIT ensures mem[j] == written[j] {
      MemAfterAt(Zeros(size), 0, frameNum, pts, later, j);
    }
    assert PtsBytes(mem, 0) == PtsBytes(written, 0);
    ClockHistory.WrittenUnitReadsBack(Zeros(size), 0, frameNum, pts);
    assert PtsBytes(written, 0) == ToBytes(AsUnsigned(pts), 8);
  }

  /** The test passes after t stores exactly when a non-zero byte of the frame number is among them. */
  lemma ReadyExactlyWhen(size: nat, frameNum: UInt32, pts: Int64, t: nat)
    requires UNIT <= size && t <= UNIT
    ensures FrameAt(MemAfter(Zeros(size), 0, frameNum, pts, t), 0) != 0
       <==> exists k | 0 <= k < 4 && k + 8 < t :: ToBytes(frameNum, 4)[k] != 0
  {
    var bytes := FrameBytes(MemAfter(Zeros(size), 0, frameNum, pts, t), 0);
    ZeroBytes(bytes);
    forall k: nat | k < 4 ensures bytes[k] == if k + 8 < t then ToBytes(frameNum, 4)[k] else 0 {
      MemAfterAt(Zeros(size), 0, frameNum, pts, t, k);
    }
    if k :| 0 <= k < 4 && bytes[k] != 0 {
      assert k + 8 < t && ToBytes(frameNum, 4)[k] != 0;
    }
  }

  // ----- When the frame number itself is whole -----

  /** At most one of the bytes is not zero. */
  predicate AtMostOneByte(s: seq<Byte>) {
    forall i, j | 0 <= i < j < |s| :: s[i] == 0 || s[j] == 0
  }

  predicate InOrder(loads: seq<nat>) {
    forall j, k | 0 <= j < k < |loads| :: loads[j] <= loads[k]
  }

  /** The readiness test fails, or the frame number that was loaded is the one being written. */
  predicate NotTorn(size: nat, frameNum: UInt32, pts: Int64, loads: seq<nat>)
    requires UNIT <= size && |loads| == 4 && forall k | 0 <= k < 4 :: loads[k] <= UNIT
  {
    var loaded := LoadedFrame(size, frameNum, pts, loads);
    FromBytes(loaded) != 0 ==> loaded == ToBytes(frameNum, 4)
  }

  /** Each byte of the frame number is loaded as it will be, or as zero before its store. */
  lemma LoadedFrameAt(size: nat, frameNum: UInt32, pts: Int64, loads: seq<nat>, k: nat)
    requires UNIT <= size && |loads| == 4 && (forall k | 0 <= k < 4 :: loads[k] <= UNIT) && k < 4
    ensures LoadedFrame(size, frameNum, pts, loads)[k] == if k + 8 < loads[k] then ToBytes(frameNum, 4)[k] else 0
  {
    MemAfterAt(Zeros(size), 0, frameNum, pts, loads[k], k);
  }

  /** A frame number of one non-zero byte is never torn, in whatever order its bytes are loaded. */
  lemma OneByteIsNeverTorn(size: nat, frameNum: UInt32, pts: Int64, loads: seq<nat>)
    requires UNIT <= size && |loads| == 4 && forall k | 0 <= k < 4 :: loads[k] <= UNIT
    requires AtMostOneByte(ToBytes(frameNum, 4))
    ensures NotTorn(size, frameNum, pts, loads)
  {
    var loaded, frame := LoadedFrame(size, frameNum, pts, loads), ToBytes(frameNum, 4);
    forall k: nat | k < 4 ensures loaded[k] == if k + 8 < loads[k] then frame[k] else 0 {
      LoadedFrameAt(size, frameNum, pts, loads, k);
    }
    ZeroBytes(loaded);
  }

  /** Two non-zero bytes are torn by a reader that comes between their stores. */
  lemma TwoBytesAreTorn(size: nat, frameNum: UInt32, pts: Int64, i: nat, j: nat)
    requires UNIT <= size && i < j < 4 && ToBytes(frameNum, 4)[i] != 0 && ToBytes(frameNum, 4)[j] != 0
    ensures !NotTorn(size, frameNum, pts, [i + 9, i + 9, i + 9, i + 9])
  {
    var loads := [i + 9, i + 9, i + 9, i + 9];
    LoadedFrameAt(size, frameNum, pts, loads, i);
    LoadedFrameAt(size, frameNum, pts, loads, j);
    ZeroBytes(LoadedFrame(size, frameNum, pts, loads));
  }

  /**
   * No reader of the first write, loading the bytes in order, ever passes the readiness test with a
   * wrong frame number if and only if at most one byte of the frame number is not zero.
   */
  lemma FrameNumberIsWholeExactlyWhen(size: nat, frameNum: UInt32, pts: Int64)
    requires UNIT <= size
    ensures AtMostOneByte(ToBytes(frameNum, 4)) <==>
      forall loads: seq<nat> | |loads| == 4 && InOrder(loads) && (forall k | 0 <= k < 4 :: loads[k] <= UNIT) ::
        NotTorn(size, frameNum, pts, loads)
  {
    var frame := ToBytes(frameNum, 4);
    if AtMostOneByte(frame) {
      forall loads: seq<nat> | |loads| == 4 && forall k | 0 <= k < 4 :: loads[k] <= UNIT
        ensures NotTorn(size, frameNum, pts, loads)
      {
        OneByteIsNeverTorn(size, frameNum, pts, loads);
      }
    } else {
      var i: nat, j: nat :| i < j < 4 && frame[i] != 0 && frame[j] != 0;
      TwoBytesAreTorn(size, frameNum, pts, i, j);
      assert InOrder([i + 9, i + 9, i + 9, i + 9]);
    }
  }

  /** The same for a reader whose loads all come after t stores. */
  predicate NotTornAfter(size: nat, frameNum: UInt32, pts: Int64, t: nat)
    requires UNIT <= size && t <= UNIT
  {
    var mem := MemAfter(Zeros(size), 0, frameNum, pts, t);
    FrameAt(mem, 0) != 0 ==> FrameAt(mem, 0) == frameNum
  }

  lemma FromBytesIsInjective(a: seq<Byte>, b: seq<Byte>)
    requires |a| == |b| && FromBytes(a) == FromBytes(b)
    ensures a == b
  {
    if a != [] {
      FromBytesIsInjective(a[1..], b[1..]);
      assert a == [a[0]] + a[1..] && b == [b[0]] + b[1..];
    }
  }

  lemma LoadingAtOnce(size: nat, frameNum: UInt32, pts: Int64, t: nat)
    requires UNIT <= size && t <= UNIT
    ensures NotTornAfter(size, frameNum, pts, t) <==> NotTorn(size, frameNum, pts, [t, t, t, t])
  {
    var mem, frame := MemAfter(Zeros(size), 0, frameNum, pts, t), ToBytes(frameNum, 4);
    assert FrameBytes(mem, 0) == LoadedFrame(size, frameNum, pts, [t, t, t, t]);
    Ranges();
    RoundTrip(frameNum, 4);
    if FrameAt(mem, 0) == frameNum {
      FromBytesIsInjective(FrameBytes(mem, 0), frame);
    }
  }

  lemma FrameAtIsWholeExactlyWhen(size: nat, frameNum: UInt32, pts: Int64)
    requires UNIT <= size
    ensures AtMostOneByte(ToBytes(frameNum, 4)) <==>
      forall t: nat | t <= UNIT :: NotTornAfter(size, frameNum, pts, t)
  {
    var frame := ToBytes(frameNum, 4);
    if AtMostOneByte(frame) {
      forall t: nat | t <= UNIT ensures NotTornAfter(size, frameNum, pts, t) {
        LoadingAtOnce(size, frameNum, pts, t);
        OneByteIsNeverTorn(size, frameNum, pts, [t, t, t, t]);
      }
    } else {
      var i: nat, j: nat :| i < j < 4 && frame[i] != 0 && frame[j] != 0;
      TwoBytesAreTorn(size, frameNum, pts, i, j);
      LoadingAtOnce(size, frameNum, pts, i + 9);
    }
  }

  lemma SmallFramesAreWhole(frameNum: UInt32)
    requires frameNum <= 256
    ensures AtMostOneByte(ToBytes(frameNum, 4))
  {
    var high := frameNum / 256;
    assert ToBytes(frameNum, 4) == [frameNum % 256] + ToBytes(high, 3);
    assert ToBytes(high, 3) == [high] + ToBytes(0, 2);
    assert ToBytes(0, 2) == [0] + ToBytes(0, 1) && ToBytes(0, 1) == [0] + ToBytes(0, 0);
    assert high == 0 || frameNum == 256;
  }

  /** The least frame number that can be torn: 257 reads as 1 after nine stores. */
  lemma FrameNumberMayBeTorn(pts: Int64)
    ensures FrameAt(MemAfter(Zeros(UNIT), 0, 257, pts, 9), 0) == 1
  {
    var mem := MemAfter(Zeros(UNIT), 0, 257, pts, 9);
    forall k: nat | k < 4
      ensures mem[k] == if k == 0 then 1 else 0
    {
      MemAfterAt(Zeros(UNIT), 0, 257, pts, 9, k);
    }
    assert FrameBytes(mem, 0) == [1] + [0, 0, 0];
    ZeroBytes([0, 0, 0]);
  }
}
