/**
 * The threads that deliver received bytes, and the counter that bounds them.  A receive callback looks
 * at the table's entries for the session one by one; for each it checks the counter, increments it and
 * launches a thread, which decrements it when it ends.  Every access to the counter is a step of its own.
 *
 * `room` is how many callbacks may be between taking and releasing the table's lock at one time: a
 * mutex is `room == 1`.
 */
module InFlight {
  import opened Common

  const DSOFTBUS_MAX_INFLIGHT_EVENT_THREADS := 32

  /** Where a callback is; `left` entries of its session are still to be looked at. */
  datatype Phase =
    | Scanning(left: nat)
    | Passed(left: nat)
    | Counted(left: nat)

  datatype State = State(count: int, callbacks: map<nat, Phase>, live: set<nat>, launched: set<nat>, dropped: nat)

  const START := State(0, map[], {}, {}, 0)

  datatype Event =
    | Acquire(callback: nat, entries: nat)
    | Check(callback: nat)
    | Increment(callback: nat)
    | Launch(callback: nat, thread: nat)
    | Release(callback: nat)
    | Finish(thread: nat)

  function Moved(s: State, callback: nat, phase: Phase): State {
    s.(callbacks := s.callbacks[callback := phase])
  }

  function CheckStep(s: State, callback: nat, left: nat): Option<State> {
    if left == 0 then None
    else if s.count >= DSOFTBUS_MAX_INFLIGHT_EVENT_THREADS then
      Some(Moved(s, callback, Scanning(left - 1)).(dropped := s.dropped + 1))
    else Some(Moved(s, callback, Passed(left - 1)))
  }

  function CallbackStep(s: State, e: Event): Option<State>
    requires !e.Acquire? && !e.Finish? && e.callback in s.callbacks
  {
    match (e, s.callbacks[e.callback])
    case (Check(c), Scanning(left)) => CheckStep(s, c, left)
    case (Increment(c), Passed(left)) => Some(Moved(s, c, Counted(left)).(count := s.count + 1))
    case (Launch(c, thread), Counted(left)) =>
      if thread in s.launched then None
      else Some(Moved(s, c, Scanning(left)).(live := s.live + {thread}, launched := s.launched + {thread}))
    case (Release(c), Scanning(left)) =>
      if left > 0 then None else Some(s.(callbacks := s.callbacks - {c}))
    case _ => None
  }

  function Step(room: nat, s: State, e: Event): Option<State> {
    match e
    case Acquire(c, entries) =>
      if c in s.callbacks || |s.callbacks.Keys| >= room then None else Some(Moved(s, c, Scanning(entries)))
    case Finish(thread) =>
      if thread in s.live then Some(s.(live := s.live - {thread}, count := s.count - 1)) else None
    case _ => if e.callback in s.callbacks then CallbackStep(s, e) else None
  }

  function After(room: nat, es: seq<Event>): Option<State> {
    if es == [] then Some(START)
    else match After(room, es[..|es| - 1])
      case None => None
      case Some(s) => Step(room, s, es[|es| - 1])
  }

  // ----- Accounting, whatever the lock does -----

  function Counting(callbacks: map<nat, Phase>): set<nat> {
    set c | c in callbacks && callbacks[c].Counted?
  }

  function Checked(callbacks: map<nat, Phase>): set<nat> {
    set c | c in callbacks && callbacks[c].Passed?
  }

  predicate Inv(room: nat, s: State) {
    && s.live <= s.launched
    && s.count == |s.live| + |Counting(s.callbacks)|
    && |s.callbacks.Keys| <= room
    && s.count + |Checked(s.callbacks)| <= DSOFTBUS_MAX_INFLIGHT_EVENT_THREADS - 1 + room
  }

  lemma {:induction false} SubsetIsSmaller(a: set<nat>, b: set<nat>)
    requires a <= b
    ensures |a| <= |b|
  {
    if a != {} {
      var x :| x in a;
      SubsetIsSmaller(a - {x}, b - {x});
    }
  }

  /** Moving one callback changes the two groups by that callback alone. */
  lemma MoveChangesGroups(callbacks: map<nat, Phase>, c: nat, phase: Phase)
    ensures callbacks[c := phase].Keys == callbacks.Keys + {c}
    ensures Counting(callbacks[c := phase]) ==
      if phase.Counted? then Counting(callbacks) + {c} else Counting(callbacks) - {c}
    ensures Checked(callbacks[c := phase]) ==
      if phase.Passed? then Checked(callbacks) + {c} else Checked(callbacks) - {c}
  {
    var moved := callbacks[c := phase];
    forall x ensures x in Counting(moved) <==> if x == c then phase.Counted? else x in Counting(callbacks) {}
    forall x ensures x in Checked(moved) <==> if x == c then phase.Passed? else x in Checked(callbacks) {}
  }

  lemma LeaveChangesGroups(callbacks: map<nat, Phase>, c: nat)
    requires c in callbacks && callbacks[c].Scanning?
    ensures Counting(callbacks - {c}) == Counting(callbacks) && Checked(callbacks - {c}) == Checked(callbacks)
    ensures (callbacks - {c}).Keys == callbacks.Keys - {c}
  {}

  lemma ReleaseKeepsInvariant(room: nat, s: State, c: nat)
    requires Inv(room, s) && c in s.callbacks && s.callbacks[c].Scanning?
    ensures Inv(room, s.(callbacks := s.callbacks - {c}))
  {
    LeaveChangesGroups(s.callbacks, c);
  }

  lemma Replaced(a: set<nat>, c: nat, keep: bool)
    ensures |if keep then a + {c} else a - {c}| == |a| - (if c in a then 1 else 0) + (if keep then 1 else 0)
  {
    assert a + {c} == a - {c} + {c};
  }

  lemma MoveCounts(callbacks: map<nat, Phase>, c: nat, phase: Phase)
    requires c in callbacks
    ensures var moved := callbacks[c := phase];
      && moved.Keys == callbacks.Keys
      && |Checked(moved)| <= |callbacks.Keys|
      && |Counting(moved)| == |Counting(callbacks)|
           - (if callbacks[c].Counted? then 1 else 0) + (if phase.Counted? then 1 else 0)
      && |Checked(moved)| == |Checked(callbacks)|
           - (if callbacks[c].Passed? then 1 else 0) + (if phase.Passed? then 1 else 0)
  {
    MoveChangesGroups(callbacks, c, phase);
    Replaced(Counting(callbacks), c, phase.Counted?);
    Replaced(Checked(callbacks), c, phase.Passed?);
    SubsetIsSmaller(Checked(callbacks[c := phase]), callbacks.Keys);
  }

  lemma MoveKeepsInvariant(room: nat, s: State, e: Event)
    requires Inv(room, s) && !e.Acquire? && !e.Finish? && !e.Release? && e.callback in s.callbacks
    requires CallbackStep(s, e).Some?
    ensures Inv(room, CallbackStep(s, e).value)
  {
    var c := e.callback;
    MoveCounts(s.callbacks, c, CallbackStep(s, e).value.callbacks[c]);
  }

  lemma AcquireKeepsInvariant(room: nat, s: State, c: nat, entries: nat)
    requires Inv(room, s) && c !in s.callbacks && |s.callbacks.Keys| < room
    ensures Inv(room, Moved(s, c, Scanning(entries)))
  {
    MoveChangesGroups(s.callbacks, c, Scanning(entries));
    assert Counting(s.callbacks) - {c} == Counting(s.callbacks) && Checked(s.callbacks) - {c} == Checked(s.callbacks);
  }

  lemma StepKeepsInvariant(room: nat, s: State, e: Event)
    requires Inv(room, s) && Step(room, s, e).Some?
    ensures Inv(room, Step(room, s, e).value)
  {
    match e
    case Acquire(c, entries) => AcquireKeepsInvariant(room, s, c, entries);
    case Finish(thread) =>
    case Release(c) => ReleaseKeepsInvariant(room, s, c);
    case _ =>
      MoveKeepsInvariant(room, s, e);
  }

  lemma {:induction false} RunsKeepInvariant(room: nat, es: seq<Event>)
    requires After(room, es).Some?
    ensures Inv(room, After(room, es).value)
  {
    if es != [] {
      RunsKeepInvariant(room, es[..|es| - 1]);
      StepKeepsInvariant(room, After(room, es[..|es| - 1]).value, es[|es| - 1]);
    }
  }

  // ----- With the lock -----

  /**
   * With the lock the counter is the number of threads that have not ended, plus one during a launch,
   * and it stays within 0 and 32.
   */
  lemma CounterIsThreadsAndBounded(es: seq<Event>)
    requires After(1, es).Some?
    ensures var s := After(1, es).value;
      var launching: nat := if exists c | c in s.callbacks :: s.callbacks[c].Counted? then 1 else 0;
      s.count == |s.live| + launching && 0 <= s.count <= 32
  {
    RunsKeepInvariant(1, es);
    var s := After(1, es).value;
    SubsetIsSmaller(Counting(s.callbacks), s.callbacks.Keys);
    if c :| c in s.callbacks && s.callbacks[c].Counted? {
      assert c in Counting(s.callbacks);
    } else {
      assert Counting(s.callbacks) == {};
    }
  }

  /** An event is dropped only while 32 threads are at work. */
  lemma DroppedOnlyWhenFull(es: seq<Event>, e: Event)
    requires After(1, es).Some? && Step(1, After(1, es).value, e).Some?
    requires Step(1, After(1, es).value, e).value.dropped > After(1, es).value.dropped
    ensures e.Check? && |After(1, es).value.live| == 32
  {
    RunsKeepInvariant(1, es);
    var s := After(1, es).value;
    var c := e.callback;
    assert s.callbacks[c].Scanning?;
    LeaveChangesGroups(s.callbacks, c);
    SubsetIsSmaller(s.callbacks.Keys - {c}, s.callbacks.Keys);
    SubsetIsSmaller(Counting(s.callbacks), s.callbacks.Keys - {c});
  }

  // ----- Every entry is answered -----

  /** How many entries the callback was entered with, the last time that it was. */
  function EntriesOf(es: seq<Event>, c: nat): nat {
    if es == [] then 0
    else match es[|es| - 1]
      case Acquire(d, entries) => if d == c then entries else EntriesOf(es[..|es| - 1], c)
      case _ => EntriesOf(es[..|es| - 1], c)
  }

  /** Since then, the threads that it has launched and the events that it found 32 threads for. */
  function AnsweredBy(room: nat, es: seq<Event>, c: nat): nat
    requires After(room, es).Some?
  {
    if es == [] then 0
    else
      var before := es[..|es| - 1];
      match es[|es| - 1]
      case Acquire(d, _) => if d == c then 0 else AnsweredBy(room, before, c)
      case Launch(d, _) => AnsweredBy(room, before, c) + if d == c then 1 else 0
      case Check(d) => AnsweredBy(room, before, c) + if d == c && After(room, before).value.count >= 32 then 1 else 0
      case _ => AnsweredBy(room, before, c)
  }

  /** The entries that a callback still has to answer, the one at hand among them. */
  function ToAnswer(phase: Phase): nat {
    phase.left + if phase.Scanning? then 0 else 1
  }

  lemma StepAnswers(room: nat, s: State, e: Event, c: nat)
    requires Step(room, s, e).Some? && c in Step(room, s, e).value.callbacks
    ensures !e.Acquire? || e.callback != c ==> c in s.callbacks
    ensures var phase := Step(room, s, e).value.callbacks[c];
      match e
      case Acquire(d, entries) => ToAnswer(phase) == if d == c then entries else ToAnswer(s.callbacks[c])
      case Launch(d, _) => ToAnswer(phase) + (if d == c then 1 else 0) == ToAnswer(s.callbacks[c])
      case Check(d) => ToAnswer(phase) + (if d == c && s.count >= 32 then 1 else 0) == ToAnswer(s.callbacks[c])
      case _ => ToAnswer(phase) == ToAnswer(s.callbacks[c])
  {
  }

  /** In every run each entry of a callback was answered, by a launch or a drop, or is still to be. */
  lemma {:induction false} EntriesAreAnswered(room: nat, es: seq<Event>, c: nat)
    requires After(room, es).Some? && c in After(room, es).value.callbacks
    ensures EntriesOf(es, c) == AnsweredBy(room, es, c) + ToAnswer(After(room, es).value.callbacks[c])
  {
    if es != [] {
      var before, e := es[..|es| - 1], es[|es| - 1];
      StepAnswers(room, After(room, before).value, e, c);
      if !(e.Acquire? && e.callback == c) {
        EntriesAreAnswered(room, before, c);
      }
    }
  }

  /** So a callback that releases the lock has answered each of its entries once. */
  lemma ReleasedMeansAnswered(room: nat, es: seq<Event>, c: nat)
    requires After(room, es).Some? && Step(room, After(room, es).value, Release(c)).Some?
    ensures EntriesOf(es, c) == AnsweredBy(room, es, c)
  {
    EntriesAreAnswered(room, es, c);
  }

  // ----- Without it -----

  /** With `room` callbacks at once the counter may pass the limit by `room - 1` and no further. */
  lemma BoundWithoutLock(room: nat, es: seq<Event>)
    requires After(room, es).Some?
    ensures After(room, es).value.count <= 31 + room
  {
    RunsKeepInvariant(room, es);
  }

  ghost predicate Reachable(room: nat, s: State) {
    exists es :: After(room, es) == Some(s)
  }

  lemma ReachStep(room: nat, s: State, e: Event)
    requires Reachable(room, s) && Step(room, s, e).Some?
    ensures Reachable(room, Step(room, s, e).value)
  {
    var es :| After(room, es) == Some(s);
    assert (es + [e])[..|es|] == es;
    assert After(room, es + [e]) == Step(room, s, e);
  }

  /** A state with `n` threads at work and no callback inside. */
  predicate Idle(s: State, n: nat) {
    s.callbacks == map[] && s.count == n && forall t | t in s.launched :: t < n
  }

  /** One callback after the other fills the counter. */
  lemma {:induction false} IdleIsReachable(room: nat, n: nat) returns (s: State)
    requires room > 0 && n < DSOFTBUS_MAX_INFLIGHT_EVENT_THREADS
    ensures Idle(s, n) && Reachable(room, s)
  {
    if n == 0 {
      s := START;
      assert After(room, []) == Some(s);
    } else {
      s := IdleIsReachable(room, n - 1);
      s := OneDelivery(room, s, n);
    }
  }

  lemma OneDelivery(room: nat, s: State, n: nat) returns (s': State)
    requires room > 0 && 0 < n < DSOFTBUS_MAX_INFLIGHT_EVENT_THREADS && Idle(s, n - 1) && Reachable(room, s)
    ensures Idle(s', n) && Reachable(room, s')
  {
    ReachStep(room, s, Acquire(0, 1));
    s' := s.(callbacks := map[0 := Scanning(1)]);
    ReachStep(room, s', Check(0));
    s' := CallbackStep(s', Check(0)).value;
    ReachStep(room, s', Increment(0));
    s' := CallbackStep(s', Increment(0)).value;
    s' := LaunchAndRelease(room, s', n);
  }

  lemma LaunchAndRelease(room: nat, s: State, n: nat) returns (s': State)
    requires n > 0 && Reachable(room, s) && s.count == n && s.callbacks.Keys == {0} && s.callbacks[0] == Counted(0)
    requires forall t | t in s.launched :: t < n - 1
    ensures Idle(s', n) && Reachable(room, s')
  {
    ReachStep(room, s, Launch(0, n - 1));
    s' := CallbackStep(s, Launch(0, n - 1)).value;
    ReachStep(room, s', Release(0));
    s' := CallbackStep(s', Release(0)).value;
    assert s'.callbacks.Keys == {};
  }

  /** `inside` callbacks, the first `counted` of which have incremented; the others only checked. */
  function Crowd(inside: nat, counted: nat): (r: map<nat, Phase>)
    requires counted <= inside
    decreases inside + counted
    ensures forall c: nat :: c in r <==> c < inside
    ensures forall c | c in r :: r[c] == if c < counted then Counted(0) else Passed(0)
  {
    if counted > 0 then Crowd(inside, counted - 1)[counted - 1 := Counted(0)]
    else if inside > 0 then Crowd(inside - 1, 0)[inside - 1 := Passed(0)]
    else map[]
  }

  lemma KeysGrow(callbacks: map<nat, Phase>, c: nat, phase: Phase)
    requires c !in callbacks
    ensures |callbacks[c := phase].Keys| == |callbacks.Keys| + 1
  {
    assert callbacks[c := phase].Keys == callbacks.Keys + {c};
  }

  lemma {:induction false} CrowdSize(inside: nat)
    ensures |Crowd(inside, 0).Keys| == inside
  {
    if inside > 0 {
      CrowdSize(inside - 1);
      KeysGrow(Crowd(inside - 1, 0), inside - 1, Passed(0));
    }
  }

  /** All of them found the counter at 31, which it was in `idle`. */
  function Overrun(idle: State, inside: nat, counted: nat): State
    requires counted <= inside
  {
    idle.(count := idle.count + counted, callbacks := Crowd(inside, counted))
  }

  lemma {:induction false} OverrunIsReachable(room: nat, idle: State, inside: nat, counted: nat)
    requires Idle(idle, DSOFTBUS_MAX_INFLIGHT_EVENT_THREADS - 1) && Reachable(room, idle)
    requires counted <= inside <= room
    ensures Reachable(room, Overrun(idle, inside, counted))
    decreases inside + counted
  {
    if counted > 0 {
      OverrunIsReachable(room, idle, inside, counted - 1);
      OneMoreCounted(room, idle, inside, counted);
    } else if inside > 0 {
      OverrunIsReachable(room, idle, inside - 1, 0);
      OneMoreInside(room, idle, inside);
    }
  }

  lemma OneMoreCounted(room: nat, idle: State, inside: nat, counted: nat)
    requires 0 < counted <= inside && Reachable(room, Overrun(idle, inside, counted - 1))
    ensures Reachable(room, Overrun(idle, inside, counted))
  {
    var s, c := Overrun(idle, inside, counted - 1), counted - 1;
    assert CallbackStep(s, Increment(c)) == Some(Overrun(idle, inside, counted));
    ReachStep(room, s, Increment(c));
  }

  lemma OneMoreInside(room: nat, idle: State, inside: nat)
    requires Idle(idle, DSOFTBUS_MAX_INFLIGHT_EVENT_THREADS - 1) && 0 < inside <= room
    requires Reachable(room, Overrun(idle, inside - 1, 0))
    ensures Reachable(room, Overrun(idle, inside, 0))
  {
    var s, c := Overrun(idle, inside - 1, 0), inside - 1;
    var s1 := Moved(s, c, Scanning(1));
    CrowdSize(inside - 1);
    ReachStep(room, s, Acquire(c, 1));
    assert s1.callbacks[c := Passed(0)] == s.callbacks[c := Passed(0)];
    ReachStep(room, s1, Check(c));
  }

  /**
   * The limit of 32 holds in all runs if and only if at most one callback is inside at a time; with
   * more of them the bound above is reached.
   */
  lemma LimitNeedsTheLock(room: nat)
    ensures (forall s | Reachable(room, s) :: s.count <= 32) <==> room <= 1
    ensures room > 0 ==> exists s :: Reachable(room, s) && s.count == 31 + room
  {
    if room <= 1 {
      forall s | Reachable(room, s) ensures s.count <= 32 {
        var es :| After(room, es) == Some(s);
        BoundWithoutLock(room, es);
      }
    }
    if room > 0 {
      var idle := IdleIsReachable(room, DSOFTBUS_MAX_INFLIGHT_EVENT_THREADS - 1);
      OverrunIsReachable(room, idle, room, room);
      assert Overrun(idle, room, room).count == DSOFTBUS_MAX_INFLIGHT_EVENT_THREADS - 1 + room;
    }
  }
}
