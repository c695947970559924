/**
 * The decoder's timestamp table: 15 slots refilled lap after lap, and a slot 15 that keeps the
 * special value of the latest fifteenth packet and is never erased.  Worker and output callback run
 * on different threads and share only the table lock.
 */
module AudioDecoder {
  import opened Common
  import opened Laps

  const INDEX_FLAG: nat := 15

  /** The fields guarded by `ptsMutex_`. */
  datatype Table = Table(ptsMap: map<nat, Int64>, inIndex: nat, outIndex: nat)

  const EMPTY_TABLE := Table(map[], 0, 0)

  /** The worker's locked region; a packet that completes a group also sets slot 15. */
  function RecordInput(t: Table, p: Packet): Table {
    var stored := t.ptsMap[t.inIndex := p.pts];
    if t.inIndex + 1 == INDEX_FLAG then
      Table(stored[INDEX_FLAG := p.special], 0, t.outIndex)
    else
      Table(stored, t.inIndex + 1, t.outIndex)
  }

  /** The callback's first locked region. */
  function TakeOutput(t: Table): (Table, Int64) {
    (Table(t.ptsMap - {t.outIndex}, t.inIndex, t.outIndex + 1),
     if t.outIndex in t.ptsMap then t.ptsMap[t.outIndex] else 0)
  }

  /** The callback's second locked region: the index wraps only if slot 15 is filled. */
  function FinishOutput(t: Table, pts: Int64): (Table, Packet) {
    if t.outIndex == INDEX_FLAG && INDEX_FLAG in t.ptsMap then
      (t.(outIndex := 0), Packet(pts, t.ptsMap[INDEX_FLAG]))
    else
      (t, Packet(pts, pts))
  }

  /** The decoder filter's timestamp fields, updated in place. */
  class DecoderFilter {
    var ptsMap: map<nat, Int64>
    var frameInIndex: nat
    var frameOutIndex: nat

    function State(): Table
      reads this
    {
      Table(ptsMap, frameInIndex, frameOutIndex)
    }

    constructor ()
      ensures State() == EMPTY_TABLE
    {
      ptsMap, frameInIndex, frameOutIndex := map[], 0, 0;
    }

    /** `ProcessData`: returns the timestamp that goes on to the codec with the frame. */
    method ProcessDataTimestamp(packet: Packet) returns (pts: Int64)
      modifies this
      ensures State() == RecordInput(old(State()), packet)
      ensures pts == if State().inIndex == 0 && old(State().inIndex) == 14 then packet.special else packet.pts
    {
      pts := packet.pts;
      ptsMap := ptsMap[frameInIndex := pts];
      frameInIndex := frameInIndex + 1;
      if frameInIndex == INDEX_FLAG {
        pts := packet.special;
        ptsMap := ptsMap[INDEX_FLAG := pts];
        frameInIndex := 0;
      }
    }

    /** `OnDecOutputBufferAvailable`, up to the end of its first locked region. */
    method OutputTakeTimestamp() returns (pts: Int64)
      modifies this
      ensures (State(), pts) == TakeOutput(old(State()))
    {
      pts := 0;
      ghost var before := ptsMap;
      if frameOutIndex in ptsMap {
        pts := ptsMap[frameOutIndex];
        ptsMap := ptsMap - {frameOutIndex};
      }
      frameOutIndex := frameOutIndex + 1;
      assert ptsMap == before - {old(frameOutIndex)};
    }

    /** `OnDecOutputBufferAvailable`, its second locked region and the packet it pushes. */
    method OutputFinish(pts: Int64) returns (packet: Packet)
      modifies this
      ensures (State(), packet) == FinishOutput(old(State()), pts)
    {
      packet := Packet(pts, pts);
      if frameOutIndex == INDEX_FLAG && INDEX_FLAG in ptsMap {
        packet := packet.(special := ptsMap[INDEX_FLAG]);
        frameOutIndex := 0;
      }
    }
  }

  // ----- Runs: any interleaving of the worker's region with the callback's two -----

  datatype Event = Input(packet: Packet) | Take | Finish

  /** The table, the timestamp a callback holds between its regions, and the packets in and out. */
  datatype Run = Run(table: Table, held: Option<Int64>, received: seq<Packet>, delivered: seq<Packet>)

  const START := Run(EMPTY_TABLE, None, [], [])

  /** The codec delivers one output callback at a time. */
  predicate Enabled(r: Run, e: Event) {
    match e
    case Input(_) => true
    case Take => r.held.None?
    case Finish => r.held.Some?
  }

  function Next(r: Run, e: Event): Run
    requires Enabled(r, e)
  {
    match e
    case Input(p) => r.(table := RecordInput(r.table, p), received := r.received + [p])
    case Take =>
      var (t, pts) := TakeOutput(r.table);
      r.(table := t, held := Some(pts))
    case Finish =>
      var (t, p) := FinishOutput(r.table, r.held.value);
      r.(table := t, held := None, delivered := r.delivered + [p])
  }

  function After(es: seq<Event>): Option<Run> {
    if es == [] then
      Some(START)
    else
      match After(es[..|es| - 1])
      case None => None
      case Some(r) => if Enabled(r, es[|es| - 1]) then Some(Next(r, es[|es| - 1])) else None
  }

  /** The codec is causal: an output never overtakes the input it decodes. */
  predicate Causal(r: Run, e: Event) {
    e.Take? ==> |r.delivered| < |r.received|
  }

  predicate AlwaysCausal(es: seq<Event>) {
    es != [] ==>
      var prefix := es[..|es| - 1];
      AlwaysCausal(prefix) && (After(prefix).Some? ==> Causal(After(prefix).value, es[|es| - 1]))
  }

  /** Causal, and at most one lap behind in both regions of the callback. */
  predicate WithinLag(r: Run, e: Event) {
    var n := |r.delivered|;
    match e
    case Input(_) => true
    case Take => n < |r.received| <= n + 15
    case Finish => n % 15 == 14 ==> |r.received| <= n + 15
  }

  predicate LagBounded(es: seq<Event>) {
    es != [] ==>
      var prefix := es[..|es| - 1];
      LagBounded(prefix) && (After(prefix).Some? ==> WithinLag(After(prefix).value, es[|es| - 1]))
  }

  // ----- Causality alone keeps the output index wrapping -----

  /**
   * The indices count packets, slot 15 is filled from the first complete group on, and no output
   * is ahead of the inputs.
   */
  predicate IndicesCount(r: Run) {
    var held := if r.held.Some? then 1 else 0;
    && r.table.inIndex == |r.received| % 15
    && r.table.outIndex == |r.delivered| % 15 + held
    && (INDEX_FLAG in r.table.ptsMap <==> 15 <= |r.received|)
    && |r.delivered| + held <= |r.received|
  }

  lemma StepsKeepCount(r: Run, e: Event)
    requires IndicesCount(r) && Enabled(r, e) && Causal(r, e)
    ensures IndicesCount(Next(r, e))
  {
    match e
    case Input(_) => NextInLap(15, |r.received|);
    case Take =>
    case Finish => NextInLap(15, |r.delivered|);
  }

  lemma {:induction false} CausalRunsCount(es: seq<Event>)
    requires After(es).Some? && AlwaysCausal(es)
    ensures IndicesCount(After(es).value)
  {
    if es != [] {
      var prefix := es[..|es| - 1];
      CausalRunsCount(prefix);
      StepsKeepCount(After(prefix).value, es[|es| - 1]);
    }
  }

  /**
   * However far the inputs run ahead, slot 15 is there whenever the output index reaches 15, so
   * finishing a callback always leaves the index below 15.
   */
  lemma OutputIndexAlwaysWraps(es: seq<Event>)
    requires After(es).Some? && AlwaysCausal(es)
    ensures var t := After(es).value.table;
      && (t.outIndex == INDEX_FLAG ==> INDEX_FLAG in t.ptsMap)
      && (After(es).value.held.None? ==> t.outIndex < INDEX_FLAG)
      && (After(es).value.held.Some? ==> Next(After(es).value, Finish).table.outIndex < INDEX_FLAG)
  {
    CausalRunsCount(es);
  }

  // ----- Alignment within the lag bound -----

  /** How many outputs have taken their timestamp. */
  function Taken(r: Run): nat {
    |r.delivered| + if r.held.Some? then 1 else 0
  }

  /** The first number from `taken` on that belongs to slot s. */
  function Due(s: nat, taken: nat): (k: nat)
    requires s < 15
    ensures taken <= k < taken + 15 && k % 15 == s
  {
    taken - taken % 15 + s + if s < taken % 15 then 15 else 0
  }

  predicate SlotAligned(r: Run, s: nat)
    requires s < 15
  {
    && Due(s, Taken(r)) < |r.received| + 15
    && (s in r.table.ptsMap <==> Due(s, Taken(r)) < |r.received|)
    && (s in r.table.ptsMap ==> s < |r.received| && r.table.ptsMap[s] == r.received[Latest(15, s, |r.received|)].pts)
  }

  /** Slot 15 holds the special value of the last packet of the last complete group. */
  predicate SpecialAligned(r: Run) {
    var m := |r.received|;
    15 <= m ==> INDEX_FLAG in r.table.ptsMap && r.table.ptsMap[INDEX_FLAG] == r.received[15 * (m / 15) - 1].special
  }

  /** Output n carries input n's timestamp, and each fifteenth its own input's special value too. */
  predicate Carries(p: Packet, n: nat, received: seq<Packet>) {
    && n < |received|
    && p == Packet(received[n].pts, if n % 15 == 14 then received[n].special else received[n].pts)
  }

  ghost predicate Aligned(r: Run) {
    && IndicesCount(r)
    && (forall s: nat | s < 15 :: SlotAligned(r, s))
    && SpecialAligned(r)
    && (r.held.Some? ==> r.held.value == r.received[|r.delivered|].pts)
    && (forall n: nat | n < |r.delivered| :: Carries(r.delivered[n], n, r.received))
  }

  lemma InputKeepsSlot(r: Run, p: Packet, s: nat)
    requires IndicesCount(r) && s < 15 && SlotAligned(r, s)
    ensures SlotAligned(Next(r, Input(p)), s)
  {
    var m := |r.received|;
    var q := Next(r, Input(p));
    var due := Due(s, Taken(r));
    assert Taken(q) == Taken(r);
    if s == m % 15 {
      if due > m {
        SameSlot(15, due, m);
      }
      assert Latest(15, s, m + 1) == m;
      assert q.table.ptsMap[s] == p.pts;
    } else {
      assert due != m;
      assert s in q.table.ptsMap <==> s in r.table.ptsMap;
      if s in r.table.ptsMap {
        assert Latest(15, s, m + 1) == Latest(15, s, m);
      }
    }
  }

  lemma InputKeepsSpecial(r: Run, p: Packet)
    requires IndicesCount(r) && SpecialAligned(r)
    ensures SpecialAligned(Next(r, Input(p)))
  {
    var m := |r.received|;
    if m % 15 == 14 {
      assert 15 * ((m + 1) / 15) - 1 == m;
    } else {
      assert (m + 1) / 15 == m / 15;
    }
  }

  lemma TakeKeepsSlot(r: Run, s: nat)
    requires IndicesCount(r) && Enabled(r, Take) && WithinLag(r, Take) && s < 15 && SlotAligned(r, s)
    ensures SlotAligned(Next(r, Take), s)
  {
    var n, m := |r.delivered|, |r.received|;
    var q := Next(r, Take);
    assert Taken(r) == n && Taken(q) == n + 1;
    if s == n % 15 {
      SameSlot(15, Due(s, n), n);
      SameSlot(15, Due(s, n + 1), n + 15);
    } else {
      assert Due(s, n) != n;
      SameSlot(15, Due(s, n), Due(s, n + 1));
    }
    assert s != n % 15 ==> (s in q.table.ptsMap <==> s in r.table.ptsMap);
  }

  lemma TakeHoldsDue(r: Run)
    requires IndicesCount(r) && Enabled(r, Take) && WithinLag(r, Take) && SlotAligned(r, |r.delivered| % 15)
    ensures Next(r, Take).held == Some(r.received[|r.delivered|].pts)
  {
    var n := |r.delivered|;
    SameSlot(15, Due(n % 15, n), n);
    SameSlot(15, Latest(15, n % 15, |r.received|), n);
  }

  lemma FinishCarries(r: Run)
    requires IndicesCount(r) && SpecialAligned(r) && Enabled(r, Finish) && WithinLag(r, Finish)
    requires r.held.value == r.received[|r.delivered|].pts
    ensures Carries(Next(r, Finish).delivered[|r.delivered|], |r.delivered|, r.received)
  {
    var n, m := |r.delivered|, |r.received|;
    if n % 15 == 14 {
      assert 15 * (m / 15) - 1 == n;
    }
  }

  lemma InputKeepsAligned(r: Run, p: Packet)
    requires Aligned(r)
    ensures Aligned(Next(r, Input(p)))
  {
    var q := Next(r, Input(p));
    forall s: nat | s < 15 ensures SlotAligned(q, s) {
      InputKeepsSlot(r, p, s);
    }
    StepsKeepCount(r, Input(p));
    InputKeepsSpecial(r, p);
    forall n: nat | n < |q.delivered| ensures Carries(q.delivered[n], n, q.received) {
      assert Carries(r.delivered[n], n, r.received);
    }
  }

  lemma TakeKeepsAligned(r: Run)
    requires Aligned(r) && Enabled(r, Take) && WithinLag(r, Take)
    ensures Aligned(Next(r, Take))
  {
    var q := Next(r, Take);
    StepsKeepCount(r, Take);
    forall s: nat | s < 15 ensures SlotAligned(q, s) {
      TakeKeepsSlot(r, s);
    }
    assert SlotAligned(r, |r.delivered| % 15);
    TakeHoldsDue(r);
  }

  lemma FinishKeepsAligned(r: Run)
    requires Aligned(r) && Enabled(r, Finish) && WithinLag(r, Finish)
    ensures Aligned(Next(r, Finish))
  {
    var q := Next(r, Finish);
    StepsKeepCount(r, Finish);
    forall s: nat | s < 15 ensures SlotAligned(q, s) {
      assert SlotAligned(r, s) && Taken(q) == Taken(r);
    }
    FinishCarries(r);
    forall k: nat | k < |q.delivered| ensures Carries(q.delivered[k], k, q.received) {
      if k < |r.delivered| {
        assert Carries(r.delivered[k], k, r.received);
      }
    }
  }

  lemma {:induction false} RunsAreAligned(es: seq<Event>)
    requires After(es).Some? && LagBounded(es)
    ensures Aligned(After(es).value)
  {
    if es != [] {
      var prefix := es[..|es| - 1];
      RunsAreAligned(prefix);
      var r := After(prefix).value;
      match es[|es| - 1]
      case Input(p) => InputKeepsAligned(r, p);
      case Take => TakeKeepsAligned(r);
      case Finish => FinishKeepsAligned(r);
    }
  }

  /**
   * Under any interleaving within the lag bound output m carries input m's timestamp, and each
   * fifteenth output its own input's special value although its two regions are apart.
   */
  lemma DecoderAlignment(es: seq<Event>, m: nat)
    requires After(es).Some? && LagBounded(es) && m < |After(es).value.delivered|
    ensures var r := After(es).value;
      && m < |r.received|
      && r.delivered[m].pts == r.received[m].pts
      && (m % 15 == 14 ==> r.delivered[m].special == r.received[m].special)
  {
    RunsAreAligned(es);
    var r := After(es).value;
    assert Carries(r.delivered[m], m, r.received);
  }

  // ----- The bound is exact -----

  /** Packets told apart by either of their timestamps, none of them the default 0. */
  predicate Identifying(received: seq<Packet>) {
    && (forall i | 0 <= i < |received| :: received[i].pts != 0)
    && (forall i, j | 0 <= i < j < |received| ::
          received[i].pts != received[j].pts && received[i].special != received[j].special)
  }

  lemma TakeIsRightWithinLag(r: Run)
    requires IndicesCount(r) && Enabled(r, Take)
    requires SlotAligned(r, |r.delivered| % 15) && Identifying(r.received)
    ensures var n := |r.delivered|;
      WithinLag(r, Take) <==> n < |r.received| && Next(r, Take).held == Some(r.received[n].pts)
  {
    var n, m := |r.delivered|, |r.received|;
    assert Due(n % 15, n) == n;
    if n < m <= n + 15 {
      SameSlot(15, Latest(15, n % 15, m), n);
    }
  }

  /** Number n closes the last complete group of m exactly if no further group is complete. */
  lemma GroupIsLastExactly(n: nat, m: nat)
    requires n % 15 == 14 && n < m
    ensures 15 <= m
    ensures 15 * (m / 15) - 1 == n <==> m <= n + 15
  {
  }

  lemma FinishIsRightWithinLag(r: Run)
    requires IndicesCount(r) && SpecialAligned(r) && Enabled(r, Finish) && Identifying(r.received)
    requires r.held.value == r.received[|r.delivered|].pts
    ensures WithinLag(r, Finish) <==> Carries(Next(r, Finish).delivered[|r.delivered|], |r.delivered|, r.received)
  {
    var n, m := |r.delivered|, |r.received|;
    if n % 15 == 14 {
      GroupIsLastExactly(n, m);
    }
  }

  /**
   * Right after a run within the bound, a callback's first region takes its own packet's timestamp
   * if and only if it is itself within the bound.
   */
  lemma TakeBoundIsExact(es: seq<Event>)
    requires After(es).Some? && LagBounded(es)
    requires Identifying(After(es).value.received) && Enabled(After(es).value, Take)
    ensures var r := After(es).value; var n := |r.delivered|;
      WithinLag(r, Take) <==> n < |r.received| && Next(r, Take).held == Some(r.received[n].pts)
  {
    RunsAreAligned(es);
    var r := After(es).value;
    assert SlotAligned(r, |r.delivered| % 15);
    TakeIsRightWithinLag(r);
  }

  /** Likewise for the second region: the output is right if and only if the step is within the bound. */
  lemma FinishBoundIsExact(es: seq<Event>)
    requires After(es).Some? && LagBounded(es)
    requires Identifying(After(es).value.received) && Enabled(After(es).value, Finish)
    ensures var r := After(es).value; var n := |r.delivered|;
      WithinLag(r, Finish) <==> Carries(Next(r, Finish).delivered[n], n, r.received)
  {
    RunsAreAligned(es);
    FinishIsRightWithinLag(After(es).value);
  }
}
