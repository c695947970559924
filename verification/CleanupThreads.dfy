/** Runs of the pending-request queue with any number of overlapping cleanup threads, in both builds. */
module CleanupThreads {
  import opened Common
  import opened PendingRequests

  /**
   * A cleanup thread between its steps: before the loop's test of the flag, asleep, between the second
   * test and the pass, handing out a batch (timed-out requests first), or ended.
   */
  datatype Thread = LoopTest | Asleep | Cleaning | Delivering(batch: Batch) | Gone

  /** The system, with the history of the requests queued, started and told that time is up. */
  datatype System = System(
    queue: Queue,
    threads: seq<Thread>,
    queued: seq<Request>,
    started: seq<Request>,
    timedOut: seq<Request>)

  const START := System(Queue([], 0, false), [], [], [], [])

  datatype Event =
    | Arrive(networkId: string, enableStep: EnableStep)
    | Test(thread: nat)
    | Wake(thread: nat)
    | Clean(thread: nat, init: Init)
    | Deliver(thread: nat)

  predicate ThreadAt(s: System, k: nat, t: Thread) {
    k < |s.threads| && s.threads[k] == t
  }

  predicate Enabled(s: System, e: Event) {
    match e
    case Arrive(_, _) => true
    case Test(k) => ThreadAt(s, k, LoopTest)
    case Wake(k) => ThreadAt(s, k, Asleep)
    case Clean(k, _) => ThreadAt(s, k, Cleaning)
    case Deliver(k) => k < |s.threads| && s.threads[k].Delivering?
  }

  /** Back to the loop's test once nothing is left to hand out. */
  function Onwards(batch: Batch): Thread {
    if batch.timeout == [] && batch.ready == [] then LoopTest else Delivering(batch)
  }

  function Next(sinkLocalInit: bool, s: System, e: Event): System
    requires Enabled(s, e)
  {
    match e
    case Arrive(networkId, enableStep) =>
      var r := Request(|s.queued|, networkId, enableStep);
      s.(queue := Enqueued(s.queue, r), queued := s.queued + [r],
         threads := if s.queue.requests == [] then s.threads + [LoopTest] else s.threads)
    case Test(k) => s.(threads := s.threads[k := if s.queue.running then Asleep else Gone])
    case Wake(k) => s.(threads := s.threads[k := if s.queue.running then Cleaning else Gone])
    case Clean(k, init) =>
      var (queue, batch) := Cleaned(sinkLocalInit, s.queue, init);
      s.(queue := queue, threads := s.threads[k := Onwards(batch)])
    case Deliver(k) =>
      var batch := s.threads[k].batch;
      if batch.timeout != [] then
        s.(timedOut := s.timedOut + [batch.timeout[0]],
           threads := s.threads[k := Onwards(batch.(timeout := batch.timeout[1..]))])
      else if batch.ready != [] then
        s.(started := s.started + [batch.ready[0]],
           threads := s.threads[k := Onwards(batch.(ready := batch.ready[1..]))])
      else
        s.(threads := s.threads[k := LoopTest])
  }

  function After(sinkLocalInit: bool, es: seq<Event>): Option<System> {
    if es == [] then
      Some(START)
    else
      match After(sinkLocalInit, es[..|es| - 1])
      case None => None
      case Some(s) => if Enabled(s, es[|es| - 1]) then Some(Next(sinkLocalInit, s, es[|es| - 1])) else None
  }

  // ----- Conservation -----

  /** How often a thread still has to hand out request r. */
  function OwedBy(t: Thread, r: Request): nat {
    if t.Delivering? then multiset(t.batch.ready)[r] + multiset(t.batch.timeout)[r] else 0
  }

  function Owed(threads: seq<Thread>, r: Request): nat {
    if threads == [] then 0 else OwedBy(threads[0], r) + Owed(threads[1..], r)
  }

  lemma {:induction false} OwedAfterUpdate(threads: seq<Thread>, k: nat, t: Thread, r: Request)
    requires k < |threads|
    ensures Owed(threads[k := t], r) + OwedBy(threads[k], r) == Owed(threads, r) + OwedBy(t, r)
  {
    if k > 0 {
      OwedAfterUpdate(threads[1..], k - 1, t, r);
      assert threads[k := t][1..] == threads[1..][k - 1 := t];
    } else {
      assert threads[k := t][1..] == threads[1..];
    }
  }

  lemma {:induction false} OwedAfterSpawn(threads: seq<Thread>, r: Request)
    ensures Owed(threads + [LoopTest], r) == Owed(threads, r)
  {
    if threads == [] {
      assert (threads + [LoopTest])[1..] == [];
    } else {
      OwedAfterSpawn(threads[1..], r);
      assert (threads + [LoopTest])[1..] == threads[1..] + [LoopTest];
    }
  }

  /** In how many places request r is: pending, owed by a thread, started, or told that time is up. */
  function Places(s: System, r: Request): nat {
    multiset(s.queue.requests)[r] + Owed(s.threads, r) + multiset(s.started)[r] + multiset(s.timedOut)[r]
  }

  lemma DeliverMovesOne(batch: Batch, r: Request)
    ensures batch.timeout != [] ==>
      OwedBy(Onwards(batch.(timeout := batch.timeout[1..])), r) + multiset([batch.timeout[0]])[r]
      == OwedBy(Delivering(batch), r)
    ensures batch.timeout == [] && batch.ready != [] ==>
      OwedBy(Onwards(batch.(ready := batch.ready[1..])), r) + multiset([batch.ready[0]])[r]
      == OwedBy(Delivering(batch), r)
  {
    if batch.timeout != [] {
      assert batch.timeout == [batch.timeout[0]] + batch.timeout[1..];
    } else if batch.ready != [] {
      assert batch.ready == [batch.ready[0]] + batch.ready[1..];
    }
  }

  lemma StepMovesRequests(local: bool, s: System, e: Event, r: Request)
    requires Enabled(s, e)
    ensures var q := Next(local, s, e);
      Places(q, r) + multiset(s.queued)[r] == Places(s, r) + multiset(q.queued)[r]
  {
    match e
    case Arrive(_, _) => OwedAfterSpawn(s.threads, r);
    case Test(k) => OwedAfterUpdate(s.threads, k, Next(local, s, e).threads[k], r);
    case Wake(k) => OwedAfterUpdate(s.threads, k, Next(local, s, e).threads[k], r);
    case Clean(k, init) =>
      PassLosesNothing(local, s.queue, init, r);
      OwedAfterUpdate(s.threads, k, Next(local, s, e).threads[k], r);
    case Deliver(k) =>
      DeliverMovesOne(s.threads[k].batch, r);
      OwedAfterUpdate(s.threads, k, Next(local, s, e).threads[k], r);
  }

  /** In every run, whatever was queued is somewhere, as often as it was queued. */
  lemma {:induction false} RequestsAreConserved(local: bool, es: seq<Event>, r: Request)
    requires After(local, es).Some?
    ensures var s := After(local, es).value; Places(s, r) == multiset(s.queued)[r]
  {
    if es != [] {
      var prefix := es[..|es| - 1];
      RequestsAreConserved(local, prefix, r);
      StepMovesRequests(local, After(local, prefix).value, es[|es| - 1], r);
    }
  }

  lemma {:induction false} TicketsAreUnique(local: bool, es: seq<Event>)
    requires After(local, es).Some?
    ensures var queued := After(local, es).value.queued; forall i | 0 <= i < |queued| :: queued[i].ticket == i
  {
    if es != [] {
      TicketsAreUnique(local, es[..|es| - 1]);
    }
  }

  lemma {:induction false} OnceEach(rs: seq<Request>, r: Request)
    requires forall i | 0 <= i < |rs| :: rs[i].ticket == i
    ensures multiset(rs)[r] == if r.ticket < |rs| && rs[r.ticket] == r then 1 else 0
  {
    if rs != [] {
      OnceEach(rs[..|rs| - 1], r);
      assert rs == rs[..|rs| - 1] + [rs[|rs| - 1]];
    }
  }

  /**
   * With any number of overlapping threads, a queued request is at every moment in exactly one place,
   * once: pending, in a batch about to be handed out, started, or told that time is up.
   */
  lemma InExactlyOnePlace(local: bool, es: seq<Event>, i: nat)
    requires After(local, es).Some? && i < |After(local, es).value.queued|
    ensures Places(After(local, es).value, After(local, es).value.queued[i]) == 1
  {
    var s := After(local, es).value;
    RequestsAreConserved(local, es, s.queued[i]);
    TicketsAreUnique(local, es);
    OnceEach(s.queued, s.queued[i]);
  }

  // ----- Progress -----

  predicate InLoop(s: System, k: nat) {
    k < |s.threads| && !s.threads[k].Gone?
  }

  /** While a request waits, the flag is up and some thread is still in its loop; the counter stops at 26. */
  ghost predicate Watched(s: System) {
    && (s.queue.requests != [] ==> s.queue.running && exists k :: InLoop(s, k))
    && s.queue.initTimes <= RETRY_CHECK_DHFWK_INIT_MAX_TIMES + 1
  }

  lemma StepKeepsWatched(local: bool, s: System, e: Event)
    requires Watched(s) && Enabled(s, e)
    ensures Watched(Next(local, s, e))
  {
    var q := Next(local, s, e);
    if q.queue.requests != [] {
      if e.Arrive? && s.queue.requests == [] {
        assert InLoop(q, |s.threads|);
      } else {
        assert s.queue.requests != [];
        var k :| InLoop(s, k);
        assert InLoop(q, k);
      }
    }
  }

  lemma {:induction false} RunsAreWatched(local: bool, es: seq<Event>)
    requires After(local, es).Some?
    ensures Watched(After(local, es).value)
  {
    if es != [] {
      var prefix := es[..|es| - 1];
      RunsAreWatched(local, prefix);
      StepKeepsWatched(local, After(local, prefix).value, es[|es| - 1]);
    }
  }

  /** When all threads have ended nothing is pending or owed: every request has been answered, once. */
  lemma AllThreadsGoneMeansAllAnswered(local: bool, es: seq<Event>, i: nat)
    requires After(local, es).Some? && i < |After(local, es).value.queued|
    requires forall k | 0 <= k < |After(local, es).value.threads| :: After(local, es).value.threads[k].Gone?
    ensures var s := After(local, es).value; var r := s.queued[i];
      multiset(s.started)[r] + multiset(s.timedOut)[r] == 1
  {
    InExactlyOnePlace(local, es, i);
    RunsAreWatched(local, es);
    var s := After(local, es).value;
    GoneOweNothing(s.threads, s.queued[i]);
  }

  lemma {:induction false} GoneOweNothing(threads: seq<Thread>, r: Request)
    requires forall k | 0 <= k < |threads| :: threads[k].Gone?
    ensures Owed(threads, r) == 0
  {
    if threads != [] {
      GoneOweNothing(threads[1..], r);
    }
  }

  /** How many cleanup passes a stretch of a run has. */
  function Passes(es: seq<Event>): nat {
    if es == [] then 0 else Passes(es[..|es| - 1]) + if es[|es| - 1].Clean? then 1 else 0
  }

  /** No step brings a request back into the queue. */
  lemma StepBringsNothingBack(local: bool, s: System, e: Event, r: Request)
    requires Enabled(s, e) && r.ticket < |s.queued| && r in Next(local, s, e).queue.requests
    ensures r in s.queue.requests
    ensures Next(local, s, e).queue.initTimes == s.queue.initTimes + if e.Clean? then 1 else 0
  {
    if e.Clean? {
      PassLosesNothing(local, s.queue, e.init, r);
      PassCounts(local, s.queue, e.init, r);
    }
  }

  lemma StepOnlyAddsToQueued(local: bool, s: System, e: Event)
    requires Enabled(s, e)
    ensures |s.queued| <= |Next(local, s, e).queued|
  {
  }

  lemma {:induction false} QueuedGrows(local: bool, es: seq<Event>, k: nat)
    requires After(local, es).Some? && k <= |es|
    ensures After(local, es[..k]).Some?
    ensures |After(local, es[..k]).value.queued| <= |After(local, es).value.queued|
  {
    if k == |es| {
      assert es[..k] == es;
    } else {
      var prefix := es[..|es| - 1];
      QueuedGrows(local, prefix, k);
      assert prefix[..k] == es[..k];
      StepOnlyAddsToQueued(local, After(local, prefix).value, es[|es| - 1]);
    }
  }

  /** As long as a request stays, the counter counts the passes. */
  lemma {:induction false} CounterCountsPasses(local: bool, es: seq<Event>, k: nat, r: Request)
    requires After(local, es).Some? && k <= |es| && After(local, es[..k]).Some?
    requires r.ticket < |After(local, es[..k]).value.queued|
    requires r in After(local, es).value.queue.requests
    ensures After(local, es).value.queue.initTimes
         == After(local, es[..k]).value.queue.initTimes + Passes(es[k..])
  {
    if k == |es| {
      assert es[..k] == es && es[k..] == [];
    } else {
      var n := |es| - 1;
      QueuedGrows(local, es[..n], k);
      assert es[..n][..k] == es[..k] && es[k..][..n - k] == es[..n][k..];
      StepBringsNothingBack(local, After(local, es[..n]).value, es[n], r);
      CounterCountsPasses(local, es[..n], k, r);
    }
  }

  /**
   * A pending request leaves the queue within 27 passes from the moment it is there, less the counter,
   * whichever threads make them and whatever else arrives.
   */
  lemma LeavesWithin27Passes(local: bool, es: seq<Event>, k: nat, r: Request)
    requires After(local, es).Some? && k <= |es| && After(local, es[..k]).Some?
    requires r in After(local, es[..k]).value.queue.requests
    requires Passes(es[k..]) + After(local, es[..k]).value.queue.initTimes >= 27
    ensures r !in After(local, es).value.queue.requests
  {
    if r in After(local, es).value.queue.requests {
      RequestsAreConserved(local, es[..k], r);
      assert r in After(local, es[..k]).value.queued;
      TicketsAreUnique(local, es[..k]);
      CounterCountsPasses(local, es, k, r);
      RunsAreWatched(local, es);
    }
  }

  // ----- The build without DHARDWARE_SINK_LOCAL_INIT keeps its counter after a timeout -----

  predicate NeverInitialised(es: seq<Event>) {
    forall k | 0 <= k < |es| && es[k].Clean? :: !es[k].init.full
  }

  /**
   * In that build, once time is up it stays up until a pass finds the framework initialised: a request
   * that arrives later is timed out by the first pass that sees it.
   */
  lemma {:induction false} TimeoutSticks(es: seq<Event>, k: nat, thread: nat, init: Init)
    requires After(false, es).Some? && k <= |es| && After(false, es[..k]).Some?
    requires TimeIsUp(After(false, es[..k]).value.queue) && NeverInitialised(es[k..]) && !init.full
    ensures var s := After(false, es).value;
      && TimeIsUp(s.queue)
      && (Enabled(s, Clean(thread, init)) && s.queue.requests != [] ==>
            Next(false, s, Clean(thread, init)).threads[thread] == Delivering(Batch([], s.queue.requests)))
  {
    if k == |es| {
      assert es[..k] == es;
    } else {
      var n := |es| - 1;
      QueuedGrows(false, es[..n], k);
      assert es[..n][..k] == es[..k] && es[k..][n - k] == es[n];
      assert forall m | 0 <= m < n - k :: es[..n][k..][m] == es[k..][m];
      TimeoutSticks(es[..n], k, thread, init);
      TimeStaysUp(After(false, es[..n]).value, es[n]);
    }
  }

  lemma TimeStaysUp(s: System, e: Event)
    requires Enabled(s, e) && TimeIsUp(s.queue) && (e.Clean? ==> !e.init.full)
    ensures TimeIsUp(Next(false, s, e).queue)
  {
  }

  /** A pass that finds nothing initialised. */
  const NOTHING_READY := Init(false, false)

  lemma AfterOneMore(local: bool, es: seq<Event>, e: Event)
    requires After(local, es).Some? && Enabled(After(local, es).value, e)
    ensures After(local, es + [e]) == Some(Next(local, After(local, es).value, e))
  {
    assert (es + [e])[..|es|] == es;
  }

  /** One turn of thread k, up to and including its pass. */
  function Turn(k: nat): seq<Event> {
    [Test(k), Wake(k), Clean(k, NOTHING_READY)]
  }

  lemma TurnPasses(es: seq<Event>, k: nat)
    requires After(false, es).Some? && ThreadAt(After(false, es).value, k, LoopTest)
    requires After(false, es).value.queue.running
    ensures var s := After(false, es).value;
      After(false, es + Turn(k)) == Some(Next(false, s.(threads := s.threads[k := Cleaning]), Clean(k, NOTHING_READY)))
  {
    AfterOneMore(false, es, Test(k));
    AfterOneMore(false, es + [Test(k)], Wake(k));
    AfterOneMore(false, es + [Test(k)] + [Wake(k)], Clean(k, NOTHING_READY));
    var s := After(false, es).value;
    assert s.threads[k := Asleep][k := Cleaning] == s.threads[k := Cleaning];
    assert es + [Test(k)] + [Wake(k)] + [Clean(k, NOTHING_READY)] == es + Turn(k);
  }

  lemma TurnStaysUninitialised(es: seq<Event>, k: nat)
    requires NeverInitialised(es)
    ensures NeverInitialised(es + Turn(k))
  {
    forall m | 0 <= m < |es + Turn(k)| && (es + Turn(k))[m].Clean? ensures !(es + Turn(k))[m].init.full {
      assert m < |es| ==> (es + Turn(k))[m] == es[m];
    }
  }

  predicate QueueIs(q: Queue, requests: seq<Request>, initTimes: nat, running: bool) {
    q.requests == requests && q.initTimes == initTimes && q.running == running
  }

  /** A request arrives in the plain build, and n passes find nothing initialised. */
  lemma {:induction false} Waiting(networkId: string, step: EnableStep, n: nat) returns (es: seq<Event>)
    requires n <= 26
    ensures NeverInitialised(es) && After(false, es).Some?
    ensures var s := After(false, es).value;
      && QueueIs(s.queue, [Request(0, networkId, step)], n, true)
      && s.threads == [LoopTest]
      && |s.queued| == 1
  {
    if n == 0 {
      es := [Arrive(networkId, step)];
      AfterOneMore(false, [], Arrive(networkId, step));
      assert [] + es == es;
    } else {
      var before := Waiting(networkId, step, n - 1);
      TurnPasses(before, 0);
      TurnStaysUninitialised(before, 0);
      es := before + Turn(0);
    }
  }

  /** The pass after those times the request out, and its thread ends; the counter is left at 26. */
  lemma Expiring(networkId: string, step: EnableStep) returns (es: seq<Event>)
    ensures After(false, es).Some?
    ensures var s := After(false, es).value;
      QueueIs(s.queue, [], 26, false) && s.threads == [Gone] && |s.queued| == 1
  {
    var r := Request(0, networkId, step);
    es := Waiting(networkId, step, 26);
    TurnPasses(es, 0);
    es := es + Turn(0);
    assert After(false, es).value.threads == [Delivering(Batch([], [r]))];
    es := DeliverAndEnd(es, r);
  }

  lemma DeliverAndEnd(before: seq<Event>, r: Request) returns (es: seq<Event>)
    requires After(false, before).Some?
    requires var s := After(false, before).value;
      QueueIs(s.queue, [], 26, false) && s.threads == [Delivering(Batch([], [r]))] && |s.queued| == 1
    ensures After(false, es).Some?
    ensures var s := After(false, es).value;
      QueueIs(s.queue, [], 26, false) && s.threads == [Gone] && |s.queued| == 1
  {
    AfterOneMore(false, before, Deliver(0));
    es := before + [Deliver(0)];
    assert After(false, es).value.threads == [LoopTest];
    AfterOneMore(false, es, Test(0));
    es := es + [Test(0)];
  }

  lemma TurnIsOnePass(k: nat)
    ensures Passes(Turn(k)) == 1
  {
    assert Turn(k)[..2] == [Test(k), Wake(k)] && [Test(k), Wake(k)][..1] == [Test(k)] && [Test(k)][..0] == [];
    assert Passes([Test(k)]) == 0 && Passes([Test(k), Wake(k)]) == 0;
  }

  /**
   * So in the plain build there is a run in which a request is timed out by the very first pass after it
   * arrived: its own thread's, with nobody else left.
   */
  lemma NextRequestIsTimedOutAtOnce(networkId: string, step: EnableStep, networkId': string, step': EnableStep)
    returns (es: seq<Event>)
    ensures After(false, es).Some? && After(false, es).value.queue.requests == []
    ensures var later := es + [Arrive(networkId', step')] + Turn(1);
      && Passes(Turn(1)) == 1
      && After(false, later).Some?
      && After(false, later).value.threads == [Gone, Delivering(Batch([], [Request(1, networkId', step')]))]
  {
    es := Expiring(networkId, step);
    var r := Request(1, networkId', step');
    AfterOneMore(false, es, Arrive(networkId', step'));
    LateTurn(es + [Arrive(networkId', step')], r);
    TurnIsOnePass(1);
  }

  lemma LateTurn(es: seq<Event>, r: Request)
    requires After(false, es).Some?
    requires var s := After(false, es).value; QueueIs(s.queue, [r], 26, true) && s.threads == [Gone, LoopTest]
    ensures After(false, es + Turn(1)).Some?
    ensures After(false, es + Turn(1)).value.threads == [Gone, Delivering(Batch([], [r]))]
  {
    var s := After(false, es).value;
    TurnPasses(es, 1);
    assert Cleaned(false, s.queue, NOTHING_READY).1 == Batch([], s.queue.requests);
  }

  // ----- Exactly when a new wait starts with its time already up -----

  /** The batch that an event hands to its thread. */
  function BatchOf(local: bool, s: System, e: Event): Batch {
    if e.Clean? then Cleaned(local, s.queue, e.init).1 else Batch([], [])
  }

  /** Some pass timed requests out, and no later one handed out a ready batch. */
  predicate TimedOutLast(local: bool, es: seq<Event>)
    requires After(local, es).Some?
  {
    es != [] &&
      var prefix := es[..|es| - 1];
      var batch := BatchOf(local, After(local, prefix).value, es[|es| - 1]);
      batch.timeout != [] || (batch.ready == [] && TimedOutLast(local, prefix))
  }

  /** What the last batch says about the counter. */
  predicate CounterTells(local: bool, q: Queue, timedOutLast: bool) {
    if local then q.requests == [] ==> q.initTimes == 0
    else if timedOutLast then TimeIsUp(q)
    else q.requests == [] ==> q.initTimes == 0
  }

  lemma {:induction false} RunsKeepCounterTelling(local: bool, es: seq<Event>)
    requires After(local, es).Some?
    ensures CounterTells(local, After(local, es).value.queue, TimedOutLast(local, es))
  {
    if es != [] {
      RunsKeepCounterTelling(local, es[..|es| - 1]);
      var q := After(local, es[..|es| - 1]).value.queue;
      if es[|es| - 1].Clean? {
        BatchTells(local, q, es[|es| - 1].init);
      }
    }
  }

  lemma BatchTells(local: bool, q: Queue, init: Init)
    ensures var (after, batch) := Cleaned(local, q, init);
      && (batch.timeout != [] ==> TimeIsUp(q))
      && (!local ==> batch.timeout == [] || batch.ready == [])
      && (!local && batch.timeout != [] ==> TimeIsUp(after))
      && (batch.ready != [] && after.requests == [] ==> after.initTimes == 0)
      && (batch.ready == batch.timeout == [] && after.requests == [] ==>
            after.initTimes == q.initTimes && q.requests == [])
      && (local && after.requests == [] && q.requests != [] ==> after.initTimes == 0)
      && (!local && TimeIsUp(q) && batch.ready == [] ==> TimeIsUp(after))
  {
    if local {
      SplitIsEmptyOnlyOf(q.requests, init);
    }
  }

  lemma {:induction false} SplitIsEmptyOnlyOf(rs: seq<Request>, init: Init)
    ensures ReadyOnes(rs, init) == OtherOnes(rs, init) == [] ==> rs == []
  {
    if rs != [] {
      SplitLosesNothing(rs, init, rs[0]);
    }
  }

  /**
   * While nothing waits, the counter of the build with DHARDWARE_SINK_LOCAL_INIT is 0; that of the plain
   * build is 0 unless the last batch was a timeout, and then it has run out.
   */
  lemma {:induction false} CounterAtRest(local: bool, es: seq<Event>)
    requires After(local, es).Some? && After(local, es).value.queue.requests == []
    ensures var q := After(local, es).value.queue;
      && (q.initTimes == 0 <==> local || !TimedOutLast(local, es))
      && (q.initTimes != 0 ==> TimeIsUp(q))
  {
    RunsKeepCounterTelling(local, es);
  }

  lemma QuietStep(local: bool, s: System, e: Event, r: Request)
    requires Enabled(s, e) && !e.Clean? && r in s.queue.requests
    ensures r in Next(local, s, e).queue.requests && Next(local, s, e).queue.initTimes == s.queue.initTimes
  {
  }

  /** Whatever happens but passes leaves the request waiting and the counter as it was. */
  lemma {:induction false} QuietKeepsWaiting(local: bool, es: seq<Event>, quiet: seq<Event>, r: Request)
    requires After(local, es).Some? && After(local, es + quiet).Some?
    requires r in After(local, es).value.queue.requests && Passes(quiet) == 0
    ensures r in After(local, es + quiet).value.queue.requests
    ensures After(local, es + quiet).value.queue.initTimes == After(local, es).value.queue.initTimes
  {
    if quiet == [] {
      assert es + quiet == es;
    } else {
      var n := |quiet| - 1;
      assert (es + quiet)[..|es| + n] == es + quiet[..n] && (es + quiet)[|es| + n] == quiet[n];
      QuietKeepsWaiting(local, es, quiet[..n], r);
      QuietStep(local, After(local, es + quiet[..n]).value, quiet[n], r);
    }
  }

  /**
   * A request that arrives while nothing waits is timed out by the first pass that sees it, if that
   * finds it not ready, exactly when the build is the plain one and its last batch was a timeout.
   */
  lemma FirstPassTimesOutExactly(local: bool, es: seq<Event>, e: Event, quiet: seq<Event>, init: Init)
    requires After(local, es).Some? && After(local, es).value.queue.requests == []
    requires e.Arrive? && Passes(quiet) == 0 && After(local, es + [e] + quiet).Some?
    ensures var r := Request(|After(local, es).value.queued|, e.networkId, e.enableStep);
      var q := After(local, es + [e] + quiet).value.queue;
      && r in q.requests
      && (!(if local then IsReady(r, init) else init.full) ==>
            (r in Cleaned(local, q, init).1.timeout <==> !local && TimedOutLast(local, es)))
  {
    var s := After(local, es).value;
    var r := Request(|s.queued|, e.networkId, e.enableStep);
    AfterOneMore(local, es, e);
    QuietKeepsWaiting(local, es + [e], quiet, r);
    CounterAtRest(local, es);
    var q := After(local, es + [e] + quiet).value.queue;
    if local {
      SplitLosesNothing(q.requests, init, r);
      SplitJudges(q.requests, init, r);
    }
  }
}
