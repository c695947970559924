/**
 * The encoder's timestamp table.  The worker thread records one timestamp for each raw frame in a
 * table of 16 slots; the codec's output callback takes 15 of them as packet timestamps and sends
 * the sixteenth as the special value of the fifteenth packet.  The two threads share only the
 * table lock, so each locked region is one atomic step here.
 */
module AudioEncoder {
  import opened Common
  import opened Laps

  const INDEX_FLAG: nat := 15
  const FRAME_OUTINDEX_FLAG: nat := 16

  /** The fields guarded by `ptsMutex_`. */
  datatype Table = Table(ptsMap: map<nat, Int64>, inIndex: nat, outIndex: nat)

  const EMPTY_TABLE := Table(map[], 0, 0)

  /** The worker's locked region: store at the input index, advance it round 16. */
  function RecordInput(t: Table, pts: Int64): Table {
    var next := t.inIndex + 1;
    Table(t.ptsMap[t.inIndex := pts], if next % FRAME_OUTINDEX_FLAG == 0 then 0 else next, t.outIndex)
  }

  /** What a lookup that erases its entry leaves behind. */
  function Without(m: map<nat, Int64>, k: nat): map<nat, Int64> {
    m - {k}
  }

  /** A lookup, falling back to the caller's current value when the slot is empty. */
  function Lookup(m: map<nat, Int64>, k: nat, otherwise: Int64): Int64 {
    if k in m then m[k] else otherwise
  }

  /** The callback's first locked region. */
  function TakeOutput(t: Table): (Table, Int64) {
    (Table(Without(t.ptsMap, t.outIndex), t.inIndex, t.outIndex + 1), Lookup(t.ptsMap, t.outIndex, 0))
  }

  /** The rest of the callback, with its second locked region when the group is complete. */
  function FinishOutput(t: Table, pts: Int64): (Table, Packet) {
    if t.outIndex == INDEX_FLAG then
      (Table(Without(t.ptsMap, t.outIndex), t.inIndex, 0), Packet(pts, Lookup(t.ptsMap, t.outIndex, pts)))
    else
      (t, Packet(pts, pts))
  }

  /** The encoder filter's timestamp fields, updated in place. */
  class EncoderFilter {
    var ptsMap: map<nat, Int64>
    var frameInIndex: nat
    var frameOutIndex: nat

    function State(): Table
      reads this
    {
      Table(ptsMap, frameInIndex, frameOutIndex)
    }

    constructor ()
      ensures State() == EMPTY_TABLE
    {
      ptsMap, frameInIndex, frameOutIndex := map[], 0, 0;
    }

    /** `ProcessData`, the region that records the timestamp of the frame being pushed. */
    method ProcessDataTimestamp(pts: Int64)
      modifies this
      ensures State() == RecordInput(old(State()), pts)
    {
      ptsMap := ptsMap[frameInIndex := pts];
      frameInIndex := frameInIndex + 1;
      if frameInIndex % FRAME_OUTINDEX_FLAG == 0 {
        frameInIndex := 0;
      }
    }

    /** `OnEncOutputBufferAvailable`, up to the end of its first locked region. */
    method OutputTakeTimestamp() returns (pts: Int64)
      modifies this
      ensures (State(), pts) == TakeOutput(old(State()))
    {
      pts := 0;
      if frameOutIndex in ptsMap {
        pts := ptsMap[frameOutIndex];
        ptsMap := ptsMap - {frameOutIndex};
      }
      frameOutIndex := frameOutIndex + 1;
      assert ptsMap == Without(old(ptsMap), old(frameOutIndex));
    }

    /** `OnEncOutputBufferAvailable`, from the buffer's own timestamp to the packet it pushes. */
    method OutputFinish(pts: Int64) returns (packet: Packet)
      modifies this
      ensures (State(), packet) == FinishOutput(old(State()), pts)
    {
      var special := pts;
      if frameOutIndex == INDEX_FLAG {
        if frameOutIndex in ptsMap {
          special := ptsMap[frameOutIndex];
          ptsMap := ptsMap - {frameOutIndex};
        }
        assert ptsMap == Without(old(ptsMap), old(frameOutIndex));
        frameOutIndex := 0;
      }
      packet := Packet(pts, special);
    }
  }

  // ----- Runs: any interleaving of the worker's region with the callback's two -----

  datatype Event = Input(pts: Int64) | Take | Finish

  /**
   * A run so far: the table, the timestamp held by a callback between its two regions, and the
   * history of what was pushed in and what was sent out.
   */
  datatype Run = Run(table: Table, held: Option<Int64>, pushed: seq<Int64>, sent: seq<Packet>)

  const START := Run(EMPTY_TABLE, None, [], [])

  /** The codec delivers one output callback at a time. */
  predicate Enabled(r: Run, e: Event) {
    match e
    case Input(_) => true
    case Take => r.held.None?
    case Finish => r.held.Some?
  }

  function Next(r: Run, e: Event): Run
    requires Enabled(r, e)
  {
    match e
    case Input(pts) => r.(table := RecordInput(r.table, pts), pushed := r.pushed + [pts])
    case Take =>
      var (t, pts) := TakeOutput(r.table);
      r.(table := t, held := Some(pts))
    case Finish =>
      var (t, packet) := FinishOutput(r.table, r.held.value);
      r.(table := t, held := None, sent := r.sent + [packet])
  }

  /** The input whose timestamp packet n carries: packet 15c+j carries input 16c+j. */
  function Source(n: nat): nat {
    16 * (n / 15) + n % 15
  }

  predicate ClosesGroup(n: nat) {
    n % 15 == 14
  }

  /**
   * The bound on the codec's lag.  A slot may be read only after the frame it belongs to was
   * pushed and before the frame one lap later is: for packet n that is input Source(n), and for the
   * second region of a fifteenth packet it is the input after it.
   */
  predicate WithinLag(r: Run, e: Event) {
    var n := |r.sent|;
    match e
    case Input(_) => true
    case Take => Source(n) < |r.pushed| <= Source(n) + 16
    case Finish => ClosesGroup(n) ==> Source(n) + 1 < |r.pushed| <= Source(n) + 17
  }

  /** The run after the events `es`, if each of them was enabled when it happened. */
  function After(es: seq<Event>): Option<Run> {
    if es == [] then
      Some(START)
    else
      match After(es[..|es| - 1])
      case None => None
      case Some(r) => if Enabled(r, es[|es| - 1]) then Some(Next(r, es[|es| - 1])) else None
  }

  /** Every step of the run keeps to the lag bound. */
  predicate LagBounded(es: seq<Event>) {
    es != [] ==>
      var prefix := es[..|es| - 1];
      LagBounded(prefix) && (After(prefix).Some? ==> WithinLag(After(prefix).value, es[|es| - 1]))
  }

  // ----- The indices, in every run -----

  /** With or without the lag bound the indices count the frames in and the packets out. */
  predicate IndicesCount(r: Run) {
    && r.table.inIndex == |r.pushed| % 16
    && r.table.outIndex == |r.sent| % 15 + (if r.held.Some? then 1 else 0)
  }

  lemma StepsKeepCount(r: Run, e: Event)
    requires IndicesCount(r) && Enabled(r, e)
    ensures IndicesCount(Next(r, e))
  {
    NextInLap(15, |r.sent|);
  }

  lemma {:induction false} IndicesAlwaysCount(es: seq<Event>)
    requires After(es).Some?
    ensures IndicesCount(After(es).value)
  {
    if es != [] {
      var prefix := es[..|es| - 1];
      IndicesAlwaysCount(prefix);
      StepsKeepCount(After(prefix).value, es[|es| - 1]);
    }
  }

  /** Between calls the input index is in 0..15 and the output index in 0..14, in every run. */
  lemma {:induction false} IndicesStayInRange(es: seq<Event>)
    requires After(es).Some?
    ensures var r := After(es).value;
      && r.table.inIndex <= 15
      && r.table.outIndex <= 15
      && (r.held.None? ==> r.table.outIndex <= 14)
  {
    IndicesAlwaysCount(es);
  }

  // ----- The contents of the slots, in every run within the lag bound -----

  /** The number of the next input that a region of the callback will take from slot s. */
  function Due(s: nat, lap: nat, outIndex: nat): (k: nat)
    requires s < 16
    ensures k % 16 == s
  {
    16 * lap + s + if s < outIndex then 16 else 0
  }

  function DueIn(r: Run, s: nat): nat
    requires s < 16
  {
    Due(s, |r.sent| / 15, r.table.outIndex)
  }

  /**
   * A slot is filled exactly when its due input has been pushed, and holds the latest one; the
   * input a lap before the due one has been pushed.
   */
  predicate SlotAligned(r: Run, s: nat)
    requires s < 16
  {
    && DueIn(r, s) < |r.pushed| + 16
    && (s in r.table.ptsMap <==> DueIn(r, s) < |r.pushed|)
    && (s in r.table.ptsMap ==> s < |r.pushed| && r.table.ptsMap[s] == r.pushed[Latest(16, s, |r.pushed|)])
  }

  /** Packet n carries its source, and as its special value the source again or the input after it. */
  predicate Carries(p: Packet, n: nat, pushed: seq<Int64>) {
    var extra := if ClosesGroup(n) then 1 else 0;
    && Source(n) + extra < |pushed|
    && p == Packet(pushed[Source(n)], pushed[Source(n) + extra])
  }

  ghost predicate Aligned(r: Run) {
    && IndicesCount(r)
    && (forall s: nat | s < 16 :: SlotAligned(r, s))
    && (r.held.Some? ==> Source(|r.sent|) < |r.pushed| && r.held.value == r.pushed[Source(|r.sent|)])
    && (forall n: nat | n < |r.sent| :: Carries(r.sent[n], n, r.pushed))
  }

  lemma InputKeepsSlot(r: Run, pts: Int64, s: nat)
    requires IndicesCount(r) && s < 16 && SlotAligned(r, s)
    ensures SlotAligned(Next(r, Input(pts)), s)
  {
    var m := |r.pushed|;
    var q := Next(r, Input(pts));
    var due := DueIn(r, s);
    assert DueIn(q, s) == due;
    if s == m % 16 {
      if due > m {
        SameSlot(16, due, m);
      }
      assert Latest(16, s, m + 1) == m;
      assert q.table.ptsMap[s] == pts;
    } else {
      assert due != m;
      assert s in q.table.ptsMap <==> s in r.table.ptsMap;
      if s in r.table.ptsMap {
        assert Latest(16, s, m + 1) == Latest(16, s, m);
      }
    }
  }

  lemma TakeKeepsSlot(r: Run, s: nat)
    requires IndicesCount(r) && Enabled(r, Take) && WithinLag(r, Take) && s < 16 && SlotAligned(r, s)
    ensures SlotAligned(Next(r, Take), s)
  {
    var q := Next(r, Take);
    var out := |r.sent| % 15;
    assert r.table.outIndex == out && q.table.outIndex == out + 1;
    if s == out {
      assert DueIn(r, s) == Source(|r.sent|) && DueIn(q, s) == Source(|r.sent|) + 16;
    } else {
      assert DueIn(q, s) == DueIn(r, s);
      assert s in q.table.ptsMap <==> s in r.table.ptsMap;
    }
  }

  lemma TakeHoldsDue(r: Run)
    requires IndicesCount(r) && Enabled(r, Take) && WithinLag(r, Take) && SlotAligned(r, |r.sent| % 15)
    ensures Next(r, Take).held == Some(r.pushed[Source(|r.sent|)])
  {
    var s := |r.sent| % 15;
    assert DueIn(r, s) == Source(|r.sent|);
    SameSlot(16, Latest(16, s, |r.pushed|), Source(|r.sent|));
  }

  lemma FinishKeepsSlot(r: Run, s: nat)
    requires IndicesCount(r) && Enabled(r, Finish) && WithinLag(r, Finish) && s < 16 && SlotAligned(r, s)
    ensures SlotAligned(Next(r, Finish), s)
  {
    NextInLap(15, |r.sent|);
    var q := Next(r, Finish);
    if ClosesGroup(|r.sent|) {
      assert DueIn(q, s) == if s == 15 then DueIn(r, s) + 16 else DueIn(r, s);
      assert DueIn(r, 15) == Source(|r.sent|) + 1;
      assert s != 15 ==> (s in q.table.ptsMap <==> s in r.table.ptsMap);
    } else {
      assert DueIn(q, s) == DueIn(r, s);
    }
  }

  lemma FinishCarries(r: Run)
    requires IndicesCount(r) && Enabled(r, Finish) && WithinLag(r, Finish) && SlotAligned(r, 15)
    requires Source(|r.sent|) < |r.pushed| && r.held.value == r.pushed[Source(|r.sent|)]
    ensures Carries(Next(r, Finish).sent[|r.sent|], |r.sent|, r.pushed)
  {
    var k := Source(|r.sent|) + 1;
    if ClosesGroup(|r.sent|) {
      assert DueIn(r, 15) == k;
      SameSlot(16, Latest(16, 15, |r.pushed|), k);
    }
  }

  lemma InputKeepsAligned(r: Run, pts: Int64)
    requires Aligned(r)
    ensures Aligned(Next(r, Input(pts)))
  {
    var q := Next(r, Input(pts));
    StepsKeepCount(r, Input(pts));
    forall s: nat | s < 16 ensures SlotAligned(q, s) {
      InputKeepsSlot(r, pts, s);
    }
    forall n: nat | n < |q.sent| ensures Carries(q.sent[n], n, q.pushed) {
      assert Carries(r.sent[n], n, r.pushed);
    }
  }

  lemma TakeKeepsAligned(r: Run)
    requires Aligned(r) && Enabled(r, Take) && WithinLag(r, Take)
    ensures Aligned(Next(r, Take))
  {
    var q := Next(r, Take);
    StepsKeepCount(r, Take);
    forall s: nat | s < 16 ensures SlotAligned(q, s) {
      TakeKeepsSlot(r, s);
    }
    assert SlotAligned(r, |r.sent| % 15);
    TakeHoldsDue(r);
  }

  lemma FinishKeepsAligned(r: Run)
    requires Aligned(r) && Enabled(r, Finish) && WithinLag(r, Finish)
    ensures Aligned(Next(r, Finish))
  {
    var q := Next(r, Finish);
    StepsKeepCount(r, Finish);
    forall s: nat | s < 16 ensures SlotAligned(q, s) {
      FinishKeepsSlot(r, s);
    }
    assert SlotAligned(r, 15);
    FinishCarries(r);
    forall k: nat | k < |q.sent| ensures Carries(q.sent[k], k, q.pushed) {
      if k < |r.sent| {
        assert Carries(r.sent[k], k, r.pushed);
      }
    }
  }

  /** Under any interleaving within the lag bound, the table stays aligned. */
  lemma {:induction false} RunsAreAligned(es: seq<Event>)
    requires After(es).Some? && LagBounded(es)
    ensures Aligned(After(es).value)
  {
    if es != [] {
      var prefix := es[..|es| - 1];
      RunsAreAligned(prefix);
      var r := After(prefix).value;
      match es[|es| - 1]
      case Input(pts) => InputKeepsAligned(r, pts);
      case Take => TakeKeepsAligned(r);
      case Finish => FinishKeepsAligned(r);
    }
  }

  /** Output 15c+j carries input 16c+j, and output 15c+14 carries input 16c+15 as its special value. */
  lemma EncoderAlignment(es: seq<Event>, c: nat, j: nat)
    requires After(es).Some? && LagBounded(es)
    requires j < 15 && 15 * c + j < |After(es).value.sent|
    ensures var r := After(es).value; var p := r.sent[15 * c + j];
      && 16 * c + j < |r.pushed|
      && p.pts == r.pushed[16 * c + j]
      && (j == 14 ==> 16 * c + 15 < |r.pushed| && p.special == r.pushed[16 * c + 15])
  {
    RunsAreAligned(es);
    var r := After(es).value;
    SourceOf(c, j);
    assert Carries(r.sent[15 * c + j], 15 * c + j, r.pushed);
  }

  lemma SourceOf(c: nat, j: nat)
    requires j < 15
    ensures Source(15 * c + j) == 16 * c + j
    ensures ClosesGroup(15 * c + j) <==> j == 14
  {
    assert (15 * c + j) / 15 == c;
  }

  // ----- The bound is exact -----

  /** Timestamps that identify their frames: no two alike, and none equal to the default 0. */
  predicate Identifying(pushed: seq<Int64>) {
    && 0 !in pushed
    && forall i, j | 0 <= i < j < |pushed| :: pushed[i] != pushed[j]
  }

  lemma TakeIsRightWithinLag(r: Run)
    requires IndicesCount(r) && Enabled(r, Take)
    requires SlotAligned(r, |r.sent| % 15) && Identifying(r.pushed)
    ensures var k := Source(|r.sent|);
      WithinLag(r, Take) <==> k < |r.pushed| && Next(r, Take).held == Some(r.pushed[k])
  {
    var s, k, m := |r.sent| % 15, Source(|r.sent|), |r.pushed|;
    assert DueIn(r, s) == k;
    if k < m <= k + 16 {
      SameSlot(16, Latest(16, s, m), k);
    }
  }

  lemma FinishIsRightWithinLag(r: Run)
    requires IndicesCount(r) && Enabled(r, Finish) && SlotAligned(r, 15) && Identifying(r.pushed)
    requires Source(|r.sent|) < |r.pushed| && r.held.value == r.pushed[Source(|r.sent|)]
    requires ClosesGroup(|r.sent|)
    ensures WithinLag(r, Finish) <==> Carries(Next(r, Finish).sent[|r.sent|], |r.sent|, r.pushed)
  {
    var k, m := Source(|r.sent|) + 1, |r.pushed|;
    assert DueIn(r, 15) == k;
    if k < m <= k + 16 {
      SameSlot(16, Latest(16, 15, m), k);
    }
  }

  /**
   * Right after a run within the bound, a callback's first region takes its own frame's timestamp if
   * and only if it is itself within the bound.
   */
  lemma TakeBoundIsExact(es: seq<Event>)
    requires After(es).Some? && LagBounded(es)
    requires Identifying(After(es).value.pushed) && Enabled(After(es).value, Take)
    ensures var r := After(es).value; var k := Source(|r.sent|);
      WithinLag(r, Take) <==> k < |r.pushed| && Next(r, Take).held == Some(r.pushed[k])
  {
    RunsAreAligned(es);
    var r := After(es).value;
    assert SlotAligned(r, |r.sent| % 15);
    TakeIsRightWithinLag(r);
  }

  /** Likewise for the second region: the packet is right if and only if the step is within the bound. */
  lemma FinishBoundIsExact(es: seq<Event>)
    requires After(es).Some? && LagBounded(es)
    requires Identifying(After(es).value.pushed) && Enabled(After(es).value, Finish)
    ensures var r := After(es).value; var n := |r.sent|;
      WithinLag(r, Finish) <==> Carries(Next(r, Finish).sent[n], n, r.pushed)
  {
    RunsAreAligned(es);
    var r := After(es).value;
    assert SlotAligned(r, 15);
    if ClosesGroup(|r.sent|) {
      FinishIsRightWithinLag(r);
    } else {
      FinishCarries(r);
    }
  }

  // ----- Putting the specials back in their places -----

  /** What packet n adds: its own timestamp, and the special value if it closes a group. */
  function Letters(p: Packet, n: nat): seq<Int64> {
    if ClosesGroup(n) then [p.pts, p.special] else [p.pts]
  }

  /** The timestamps that a sequence of packets spells out. */
  function Spell(packets: seq<Packet>): seq<Int64> {
    if packets == [] then
      []
    else
      var n := |packets| - 1;
      Spell(packets[..n]) + Letters(packets[n], n)
  }

  lemma SourceAdvances(n: nat)
    ensures Source(n + 1) == Source(n) + if ClosesGroup(n) then 2 else 1
  {
    NextInLap(15, n);
  }

  lemma LettersAreNext(p: Packet, n: nat, pushed: seq<Int64>)
    requires Carries(p, n, pushed)
    ensures Source(n + 1) <= |pushed|
    ensures pushed[..Source(n)] + Letters(p, n) == pushed[..Source(n + 1)]
  {
    SourceAdvances(n);
    var k := Source(n);
    assert pushed[..k + 1] == pushed[..k] + [pushed[k]];
    if ClosesGroup(n) {
      assert pushed[..k + 2] == pushed[..k] + [pushed[k], pushed[k + 1]];
    }
  }

  lemma {:induction false} CarriedPacketsSpellAPrefix(packets: seq<Packet>, pushed: seq<Int64>)
    requires forall n: nat | n < |packets| :: Carries(packets[n], n, pushed)
    ensures Source(|packets|) <= |pushed|
    ensures Spell(packets) == pushed[..Source(|packets|)]
  {
    if packets != [] {
      var n := |packets| - 1;
      forall k: nat | k < n ensures Carries(packets[..n][k], k, pushed) {
        assert Carries(packets[k], k, pushed);
      }
      CarriedPacketsSpellAPrefix(packets[..n], pushed);
      LettersAreNext(packets[n], n, pushed);
    }
  }

  /** The packets of any run within the lag bound spell out the first frames pushed, none missing. */
  lemma {:induction false} EncoderSpellsItsInput(es: seq<Event>)
    requires After(es).Some? && LagBounded(es)
    ensures var r := After(es).value; Spell(r.sent) <= r.pushed && |Spell(r.sent)| == Source(|r.sent|)
  {
    RunsAreAligned(es);
    var r := After(es).value;
    CarriedPacketsSpellAPrefix(r.sent, r.pushed);
  }
}
