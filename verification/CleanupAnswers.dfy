/** Which answer a pending request gets, in runs with any number of overlapping cleanup threads. */
module CleanupAnswers {
  import opened Common
  import opened PendingRequests
  import opened CleanupThreads

  // ----- Every answer was earned at a pass -----

  /** The requests told, and those that a thread still has to tell: that time is up, or that they start. */
  function Told(s: System, timeout: bool): seq<Request> {
    if timeout then s.timedOut else s.started
  }

  function ToTell(t: Thread, timeout: bool): seq<Request> {
    if !t.Delivering? then [] else if timeout then t.batch.timeout else t.batch.ready
  }

  /** At the k-th event a pass found the request waiting, and not ready after 25 others, or else ready. */
  predicate JudgedAt(local: bool, es: seq<Event>, k: nat, r: Request, timeout: bool) {
    && k < |es| && es[k].Clean?
    && After(local, es[..k]).Some?
    && r in After(local, es[..k]).value.queue.requests
    && if timeout then !MayStart(local, r, es[k].init) && After(local, es[..k]).value.queue.initTimes > 25
       else MayStart(local, r, es[k].init)
  }

  ghost predicate Judged(local: bool, es: seq<Event>, r: Request, timeout: bool) {
    exists k: nat :: JudgedAt(local, es, k, r, timeout)
  }

  lemma JudgedStays(local: bool, es: seq<Event>, e: Event, r: Request, timeout: bool)
    requires Judged(local, es, r, timeout)
    ensures Judged(local, es + [e], r, timeout)
  {
    var k: nat :| JudgedAt(local, es, k, r, timeout);
    assert (es + [e])[..k] == es[..k] && (es + [e])[k] == es[k];
    assert JudgedAt(local, es + [e], k, r, timeout);
  }

  /** The request is told, or about to be. */
  predicate Answered(s: System, r: Request, timeout: bool) {
    r in Told(s, timeout) || exists k: nat :: k < |s.threads| && r in ToTell(s.threads[k], timeout)
  }

  lemma DeliveryMovesAnswers(local: bool, s: System, k: nat, r: Request, timeout: bool)
    requires Enabled(s, Deliver(k)) && Answered(Next(local, s, Deliver(k)), r, timeout)
    ensures Answered(s, r, timeout)
  {
    var q := Next(local, s, Deliver(k));
    if r !in Told(s, timeout) {
      if r in Told(q, timeout) {
        assert r in ToTell(s.threads[k], timeout);
      } else {
        var j: nat :| j < |q.threads| && r in ToTell(q.threads[j], timeout);
        assert r in ToTell(s.threads[j], timeout);
      }
    }
  }

  /** A step adds an answer only by a pass. */
  lemma AnswersComeFromPasses(local: bool, s: System, e: Event, r: Request, timeout: bool)
    requires Enabled(s, e) && Answered(Next(local, s, e), r, timeout)
    ensures Answered(s, r, timeout) ||
      (e.Clean? && r in (if timeout then BatchOf(local, s, e).timeout else BatchOf(local, s, e).ready))
  {
    if e.Deliver? {
      DeliveryMovesAnswers(local, s, e.thread, r, timeout);
    } else if r !in Told(s, timeout) {
      var q := Next(local, s, e);
      var j: nat :| j < |q.threads| && r in ToTell(q.threads[j], timeout);
      if j < |s.threads| && q.threads[j] == s.threads[j] {
        assert r in ToTell(s.threads[j], timeout);
      }
    }
  }

  /**
   * In every run a request that was started, or is about to be, was found ready by a pass while it waited;
   * one that is told that time is up was found not ready by a pass after more than 25 others.
   */
  lemma {:induction false} AnswersWereEarned(local: bool, es: seq<Event>, r: Request, timeout: bool)
    requires After(local, es).Some? && Answered(After(local, es).value, r, timeout)
    ensures Judged(local, es, r, timeout)
  {
    if es != [] {
      var before, e := es[..|es| - 1], es[|es| - 1];
      var s := After(local, before).value;
      assert es == before + [e];
      AnswersComeFromPasses(local, s, e, r, timeout);
      if Answered(s, r, timeout) {
        AnswersWereEarned(local, before, r, timeout);
        JudgedStays(local, before, e, r, timeout);
      } else {
        PassAddsNothing(local, s.queue, e.init, r);
        PassAnswersExactly(local, s.queue, e.init, r);
        assert JudgedAt(local, es, |before|, r, timeout);
      }
    }
  }

  /**
   * When all threads have ended, each request was either started once, after a pass found it ready, or told
   * once that time is up, after a pass found it not ready and too many had been counted.
   */
  lemma {:induction false} EveryoneIsAnsweredRightly(local: bool, es: seq<Event>, i: nat)
    requires After(local, es).Some? && i < |After(local, es).value.queued|
    requires forall k | 0 <= k < |After(local, es).value.threads| :: After(local, es).value.threads[k].Gone?
    ensures var s := After(local, es).value; var r := s.queued[i];
      || (multiset(s.started)[r] == 1 && r !in s.timedOut && Judged(local, es, r, false))
      || (multiset(s.timedOut)[r] == 1 && r !in s.started && Judged(local, es, r, true))
  {
    var s := After(local, es).value;
    var r := s.queued[i];
    AllThreadsGoneMeansAllAnswered(local, es, i);
    if r in s.started {
      assert r in Told(s, false);
      AnswersWereEarned(local, es, r, false);
    } else {
      assert r in Told(s, true);
      AnswersWereEarned(local, es, r, true);
    }
  }

  /** What the passes of the run never find, nobody is told. */
  lemma NeverJudgedNeverTold(local: bool, es: seq<Event>, timeout: bool)
    requires After(local, es).Some? && forall r, k: nat :: !JudgedAt(local, es, k, r, timeout)
    ensures Told(After(local, es).value, timeout) == []
    ensures forall t <- After(local, es).value.threads :: ToTell(t, timeout) == []
  {
    var s := After(local, es).value;
    forall r ensures !Answered(s, r, timeout) {
      if Answered(s, r, timeout) {
        AnswersWereEarned(local, es, r, timeout);
      }
    }
    assert Told(s, timeout) != [] ==> Answered(s, Told(s, timeout)[0], timeout);
    forall k: nat | k < |s.threads| ensures ToTell(s.threads[k], timeout) == [] {
      assert ToTell(s.threads[k], timeout) != [] ==> Answered(s, ToTell(s.threads[k], timeout)[0], timeout);
    }
  }

  /** If every pass finds everything initialised, nobody is ever told that time is up. */
  lemma InitialisedNeverTimesOut(local: bool, es: seq<Event>)
    requires After(local, es).Some?
    requires forall k | 0 <= k < |es| && es[k].Clean? :: es[k].init.full && es[k].init.local
    ensures After(local, es).value.timedOut == []
    ensures forall t <- After(local, es).value.threads :: ToTell(t, true) == []
  {
    NeverJudgedNeverTold(local, es, true);
  }

  /** If no pass finds anything initialised, nobody is ever started. */
  lemma UninitialisedNeverStarts(local: bool, es: seq<Event>)
    requires After(local, es).Some?
    requires forall k | 0 <= k < |es| && es[k].Clean? :: !es[k].init.full && !es[k].init.local
    ensures After(local, es).value.started == []
    ensures forall t <- After(local, es).value.threads :: ToTell(t, false) == []
  {
    NeverJudgedNeverTold(local, es, false);
  }

  // ----- The order of the answers -----

  /** The state after n deliveries of thread k, if it has so many to make. */
  function Delivered(local: bool, s: System, k: nat, n: nat): Option<System>
    decreases n
  {
    if n == 0 then Some(s)
    else if Enabled(s, Deliver(k)) then Delivered(local, Next(local, s, Deliver(k)), k, n - 1)
    else None
  }

  /** The batch b of thread k has been told, timed-out requests and ready ones each in their order. */
  predicate HandedOut(s: System, q: System, k: nat, b: Batch) {
    && q.timedOut == s.timedOut + b.timeout
    && q.started == s.started + b.ready
    && k < |q.threads| && q.threads[k] == LoopTest
  }

  predicate HasBatch(s: System, k: nat, b: Batch) {
    (b.timeout != [] || b.ready != []) && k < |s.threads| && s.threads[k] == Delivering(b)
  }

  function Rest(b: Batch): Batch
    requires b.timeout != [] || b.ready != []
  {
    if b.timeout != [] then Batch(b.ready, b.timeout[1..]) else Batch(b.ready[1..], [])
  }

  lemma AfterDelivery(local: bool, s: System, k: nat, b: Batch)
    requires HasBatch(s, k, b)
    ensures Enabled(s, Deliver(k))
    ensures var q := Next(local, s, Deliver(k));
      && k < |q.threads| && q.threads[k] == Onwards(Rest(b))
      && q.timedOut == s.timedOut + (if b.timeout != [] then [b.timeout[0]] else [])
      && q.started == s.started + (if b.timeout != [] then [] else [b.ready[0]])
  {
  }

  lemma RestIsHandedOut(s: System, m: System, q: System, k: nat, b: Batch)
    requires b.timeout != [] || b.ready != []
    requires m.timedOut == s.timedOut + (if b.timeout != [] then [b.timeout[0]] else [])
    requires m.started == s.started + (if b.timeout != [] then [] else [b.ready[0]])
    requires HandedOut(m, q, k, Rest(b))
    ensures HandedOut(s, q, k, b)
  {
    if b.timeout != [] {
      assert b.timeout == [b.timeout[0]] + b.timeout[1..];
    } else {
      assert b.ready == [b.ready[0]] + b.ready[1..];
    }
  }

  /**
   * A thread that hands out its batch undisturbed tells the timed-out requests and starts the ready ones,
   * each list in its order, and goes on with its loop.
   */
  lemma {:induction false} BatchIsHandedOutInOrder(local: bool, s: System, k: nat, b: Batch)
    requires HasBatch(s, k, b)
    ensures var q := Delivered(local, s, k, |b.timeout| + |b.ready|); q.Some? && HandedOut(s, q.value, k, b)
    decreases |b.timeout| + |b.ready|
  {
    var n, m := |b.timeout| + |b.ready|, Next(local, s, Deliver(k));
    AfterDelivery(local, s, k, b);
    if n > 1 {
      BatchIsHandedOutInOrder(local, m, k, Rest(b));
      RestIsHandedOut(s, m, Delivered(local, m, k, n - 1).value, k, b);
    } else {
      LastIsHandedOut(s, m, k, b);
      assert Delivered(local, m, k, 0) == Some(m);
    }
  }

  lemma LastIsHandedOut(s: System, m: System, k: nat, b: Batch)
    requires |b.timeout| + |b.ready| == 1
    requires m.timedOut == s.timedOut + (if b.timeout != [] then [b.timeout[0]] else [])
    requires m.started == s.started + (if b.timeout != [] then [] else [b.ready[0]])
    requires k < |m.threads| && m.threads[k] == Onwards(Rest(b))
    ensures HandedOut(s, m, k, b)
  {
    RestIsHandedOut(s, m, m, k, b);
  }

  // ----- Arrivals and ends -----

  /** An arrival waits behind all others, with its own network id and kind, and a thread watches it. */
  lemma ArrivalWaitsLast(local: bool, es: seq<Event>, networkId: string, step: EnableStep)
    requires After(local, es).Some?
    ensures After(local, es + [Arrive(networkId, step)]).Some?
    ensures var s, q := After(local, es).value, After(local, es + [Arrive(networkId, step)]).value;
      var r := Request(|s.queued|, networkId, step);
      && q.queue.requests == s.queue.requests + [r]
      && q.queued == s.queued + [r]
      && q.queue.running
      && |q.threads| == |s.threads| + (if s.queue.requests == [] then 1 else 0)
  {
    RunsAreWatched(local, es);
    AfterOneMore(local, es, Arrive(networkId, step));
  }

  /** A thread leaves its loop at a test exactly if the flag is down. */
  lemma ThreadEndsExactly(local: bool, s: System, e: Event)
    requires Enabled(s, e) && (e.Test? || e.Wake?)
    ensures Next(local, s, e).threads[e.thread].Gone? <==> !s.queue.running
    ensures Next(local, s, e).queue == s.queue
  {
  }
}
