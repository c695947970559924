/**
 * Requests for a device's hardware that wait until the framework is initialised.  A queue and a
 * counter under one lock, a flag outside it, and cleanup threads that look at the flag before and
 * after each sleep; a new thread may start while an old one is still in its loop.
 */
module PendingRequests {
  import opened Common
  import opened Subsequences

  const RETRY_CHECK_DHFWK_INIT_MAX_TIMES: nat := 25

  datatype EnableStep = ENABLE_SOURCE | ENABLE_SINK

  /** The ticket numbers the requests in the order in which they were queued. */
  datatype Request = Request(ticket: nat, networkId: string, enableStep: EnableStep)

  datatype Queue = Queue(requests: seq<Request>, initTimes: nat, running: bool)

  /** What a pass hands out: requests to be started, and requests to be told that time is up. */
  datatype Batch = Batch(ready: seq<Request>, timeout: seq<Request>)

  /** How far initialisation is, and whether sinks wait for the local part only. */
  datatype Init = Init(full: bool, local: bool)

  function Enqueued(q: Queue, r: Request): Queue {
    q.(requests := q.requests + [r], running := if q.requests == [] then true else q.running)
  }

  predicate IsReady(r: Request, init: Init) {
    if r.enableStep == ENABLE_SINK then init.local else init.full
  }

  function ReadyOnes(rs: seq<Request>, init: Init): seq<Request> {
    if rs == [] then [] else
      var before, last := ReadyOnes(rs[..|rs| - 1], init), rs[|rs| - 1];
      if IsReady(last, init) then before + [last] else before
  }

  function OtherOnes(rs: seq<Request>, init: Init): seq<Request> {
    if rs == [] then [] else
      var before, last := OtherOnes(rs[..|rs| - 1], init), rs[|rs| - 1];
      if IsReady(last, init) then before else before + [last]
  }

  predicate TimeIsUp(q: Queue) {
    q.initTimes > RETRY_CHECK_DHFWK_INIT_MAX_TIMES
  }

  /** One pass with DHARDWARE_SINK_LOCAL_INIT: each request is judged by its own kind. */
  function CleanedEach(q: Queue, init: Init): (Queue, Batch) {
    var ready, other := ReadyOnes(q.requests, init), OtherOnes(q.requests, init);
    if TimeIsUp(q) || other == [] then
      (Queue([], 0, false), Batch(ready, other))
    else
      (q.(requests := other, initTimes := q.initTimes + 1), Batch(ready, []))
  }

  /** One pass without it: all or nothing, and a timeout leaves the counter as it is. */
  function CleanedAll(q: Queue, init: Init): (Queue, Batch) {
    if init.full then (Queue([], 0, false), Batch(q.requests, []))
    else if TimeIsUp(q) then (Queue([], q.initTimes, false), Batch([], q.requests))
    else (q.(initTimes := q.initTimes + 1), Batch([], []))
  }

  function Cleaned(sinkLocalInit: bool, q: Queue, init: Init): (Queue, Batch) {
    if q.requests == [] then (q.(running := false), Batch([], []))
    else if sinkLocalInit then CleanedEach(q, init)
    else CleanedAll(q, init)
  }

  /** The service's queue; the flag tells the two builds apart. */
  class PendingQueue {
    const sinkLocalInit: bool
    var pendingGetDHRequests: seq<Request>
    var dhfwkInitTimes: nat
    var cleanupRunning: bool

    function State(): Queue
      reads this
    {
      Queue(pendingGetDHRequests, dhfwkInitTimes, cleanupRunning)
    }

    constructor (sinkLocalInit: bool)
      ensures State() == Queue([], 0, false) && this.sinkLocalInit == sinkLocalInit
    {
      this.sinkLocalInit := sinkLocalInit;
      pendingGetDHRequests, dhfwkInitTimes, cleanupRunning := [], 0, false;
    }

    /** `QueuePendingRequest`; `starts` says whether it starts a cleanup thread. */
    method QueuePendingRequest(r: Request) returns (starts: bool)
      modifies this
      ensures State() == Enqueued(old(State()), r)
      ensures starts <==> old(pendingGetDHRequests) == []
    {
      starts := pendingGetDHRequests == [];
      pendingGetDHRequests := pendingGetDHRequests + [r];
      if starts {
        cleanupRunning := true;
      }
    }

    /** `CleanupExpiredRequests`, its locked region: the two lists for `ProcessPendingRequests`. */
    method CleanupExpiredRequests(init: Init) returns (batch: Batch)
      modifies this
      ensures (State(), batch) == Cleaned(sinkLocalInit, old(State()), init)
    {
      batch := Batch([], []);
      if pendingGetDHRequests == [] {
        cleanupRunning := false;
        return;
      }
      if sinkLocalInit {
        var rs := pendingGetDHRequests;
        var ready, timeout, remaining: seq<Request> := [], [], [];
        for i := 0 to |rs|
          invariant ready == ReadyOnes(rs[..i], init)
          invariant if TimeIsUp(State()) then timeout == OtherOnes(rs[..i], init) && remaining == []
                    else remaining == OtherOnes(rs[..i], init) && timeout == []
          invariant State() == old(State())
        {
          assert rs[..i + 1][..i] == rs[..i];
          var isReady := if rs[i].enableStep == ENABLE_SINK then init.local else init.full;
          if isReady {
            ready := ready + [rs[i]];
          } else if dhfwkInitTimes > RETRY_CHECK_DHFWK_INIT_MAX_TIMES {
            timeout := timeout + [rs[i]];
          } else {
            remaining := remaining + [rs[i]];
          }
        }
        assert rs[..|rs|] == rs;
        pendingGetDHRequests := remaining;
        if pendingGetDHRequests == [] {
          dhfwkInitTimes, cleanupRunning := 0, false;
        } else {
          dhfwkInitTimes := dhfwkInitTimes + 1;
        }
        batch := Batch(ready, timeout);
      } else if init.full {
        batch := Batch(pendingGetDHRequests, []);
        pendingGetDHRequests, dhfwkInitTimes, cleanupRunning := [], 0, false;
      } else if dhfwkInitTimes > RETRY_CHECK_DHFWK_INIT_MAX_TIMES {
        batch := Batch([], pendingGetDHRequests);
        pendingGetDHRequests, cleanupRunning := [], false;
      } else {
        dhfwkInitTimes := dhfwkInitTimes + 1;
      }
    }
  }

  // ----- What one pass does to the requests -----

  lemma {:induction false} SplitKeepsOrder(rs: seq<Request>, init: Init)
    ensures Subsequence(ReadyOnes(rs, init), rs)
    ensures Subsequence(OtherOnes(rs, init), rs)
  {
    if rs != [] {
      var prefix, last := rs[..|rs| - 1], rs[|rs| - 1];
      SplitKeepsOrder(prefix, init);
      assert rs == prefix + [last];
      SubsequenceGrows(ReadyOnes(prefix, init), prefix, last);
      SubsequenceGrows(OtherOnes(prefix, init), prefix, last);
    }
  }

  lemma {:induction false} SplitLosesNothing(rs: seq<Request>, init: Init, r: Request)
    ensures multiset(rs)[r] == multiset(ReadyOnes(rs, init))[r] + multiset(OtherOnes(rs, init))[r]
  {
    if rs != [] {
      SplitLosesNothing(rs[..|rs| - 1], init, r);
      assert rs == rs[..|rs| - 1] + [rs[|rs| - 1]];
    }
  }

  /** A pass loses and adds no request. */
  lemma PassLosesNothing(sinkLocalInit: bool, q: Queue, init: Init, r: Request)
    ensures var (after, batch) := Cleaned(sinkLocalInit, q, init);
      multiset(q.requests)[r] == multiset(after.requests)[r] + multiset(batch.ready)[r] + multiset(batch.timeout)[r]
  {
    SplitLosesNothing(q.requests, init, r);
  }

  /** Both lists of a pass, and what stays, are in queue order. */
  lemma PassKeepsOrder(sinkLocalInit: bool, q: Queue, init: Init)
    ensures var (after, batch) := Cleaned(sinkLocalInit, q, init);
      && Subsequence(batch.ready, q.requests)
      && Subsequence(batch.timeout, q.requests)
      && Subsequence(after.requests, q.requests)
  {
    if sinkLocalInit {
      SplitKeepsOrder(q.requests, init);
    }
    SubsequenceOfItself(q.requests);
  }

  /** A pass hands out as ready only what is ready, and as timed out only what is not. */
  lemma PassJudgesRightly(sinkLocalInit: bool, q: Queue, init: Init, r: Request)
    ensures var batch := Cleaned(sinkLocalInit, q, init).1;
      && (r in batch.ready ==> if sinkLocalInit then IsReady(r, init) else init.full)
      && (r in batch.timeout ==> TimeIsUp(q) && !(if sinkLocalInit then IsReady(r, init) else init.full))
  {
    SplitJudges(q.requests, init, r);
  }

  lemma {:induction false} SplitJudges(rs: seq<Request>, init: Init, r: Request)
    ensures r in ReadyOnes(rs, init) ==> IsReady(r, init)
    ensures r in OtherOnes(rs, init) ==> !IsReady(r, init)
  {
    if rs != [] {
      SplitJudges(rs[..|rs| - 1], init, r);
    }
  }

  /** A request that stays through a pass costs the counter one step, and the counter stops at 26. */
  lemma PassCounts(sinkLocalInit: bool, q: Queue, init: Init, r: Request)
    requires r in Cleaned(sinkLocalInit, q, init).0.requests
    ensures !TimeIsUp(q) && Cleaned(sinkLocalInit, q, init).0.initTimes == q.initTimes + 1
  {
  }

  /** What makes a request ready, in either build. */
  predicate MayStart(sinkLocalInit: bool, r: Request, init: Init) {
    if sinkLocalInit && r.enableStep == ENABLE_SINK then init.local else init.full
  }

  lemma {:induction false} SplitIsComplete(rs: seq<Request>, init: Init, r: Request)
    requires r in rs
    ensures r in ReadyOnes(rs, init) || r in OtherOnes(rs, init)
  {
    if r in rs[..|rs| - 1] {
      SplitIsComplete(rs[..|rs| - 1], init, r);
    }
  }

  lemma {:induction false} SplitAddsNothing(rs: seq<Request>, init: Init, r: Request)
    requires r in ReadyOnes(rs, init) || r in OtherOnes(rs, init)
    ensures r in rs
  {
    if r != rs[|rs| - 1] {
      SplitAddsNothing(rs[..|rs| - 1], init, r);
    }
  }

  /**
   * A pass starts a queued request exactly if it is ready, whatever the counter; times it out exactly if
   * it is not and more than 25 passes have been counted; and otherwise keeps it.
   */
  lemma PassAnswersExactly(sinkLocalInit: bool, q: Queue, init: Init, r: Request)
    requires r in q.requests
    ensures var (after, batch) := Cleaned(sinkLocalInit, q, init);
      var ready := if sinkLocalInit && r.enableStep == ENABLE_SINK then init.local else init.full;
      && (r in batch.ready <==> ready)
      && (r in batch.timeout <==> !ready && q.initTimes > 25)
      && (r in after.requests <==> !ready && q.initTimes <= 25)
  {
    SplitJudges(q.requests, init, r);
    SplitIsComplete(q.requests, init, r);
  }

  lemma PassAddsNothing(sinkLocalInit: bool, q: Queue, init: Init, r: Request)
    ensures var (after, batch) := Cleaned(sinkLocalInit, q, init);
      r in batch.ready || r in batch.timeout || r in after.requests ==> r in q.requests
  {
    if r in ReadyOnes(q.requests, init) || r in OtherOnes(q.requests, init) {
      SplitAddsNothing(q.requests, init, r);
    }
  }

  /** A pass lowers the flag exactly if it leaves nothing waiting, and never raises it. */
  lemma PassLowersFlagExactly(sinkLocalInit: bool, q: Queue, init: Init)
    ensures var after := Cleaned(sinkLocalInit, q, init).0; after.running <==> q.running && after.requests != []
  {
  }

  /** A new request waits behind all others, and raises the flag if there are none. */
  lemma NewRequestIsLast(q: Queue, r: Request)
    ensures var after := Enqueued(q, r);
      && after.requests == q.requests + [r]
      && (after.running <==> q.requests == [] || q.running)
      && after.initTimes == q.initTimes
  {
  }
}
