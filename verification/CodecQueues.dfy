/**
 * The three queues between a codec's callbacks, the buffer queue in front of the filter and the
 * filter's worker thread.  Encoder and decoder filter share this code, with the same limits.
 */
module CodecQueues {
  import opened Common
  import opened Subsequences

  const QUEUE_MAX: nat := 100

  /** A bounded push drops from the front until at most 100 entries are left, and then appends. */
  function Kept<T>(queue: seq<T>): seq<T> {
    if |queue| > QUEUE_MAX then queue[|queue| - QUEUE_MAX..] else queue
  }

  function Overflow<T>(queue: seq<T>): seq<T> {
    queue[..|queue| - |Kept(queue)|]
  }

  function PushBounded<T>(queue: seq<T>, x: T): seq<T> {
    Kept(queue) + [x]
  }

  /** A push keeps the latest 100 entries, or all if there are no more, and appends; the others overflow. */
  lemma PushKeepsLatest<T>(queue: seq<T>, x: T)
    ensures |PushBounded(queue, x)| == (if |queue| <= 100 then |queue| else 100) + 1
    ensures Overflow(queue) + PushBounded(queue, x) == queue + [x]
  {
  }

  /** The queues guarded by `mtxData_`. */
  class FilterQueues {
    var codecIndexQueue: seq<nat>
    var codecBufQueue: seq<nat>
    var inputDataBufferQueue: seq<nat>

    predicate Paired()
      reads this
    {
      |codecIndexQueue| == |codecBufQueue|
    }

    /** The queues are those of a state of the runs below. */
    predicate Shows(s: Slots, b: Buffers)
      reads this
    {
      s.indices == codecIndexQueue && s.mems == codecBufQueue && b.inputs == inputDataBufferQueue
    }

    constructor ()
      ensures Paired() && codecIndexQueue == [] && inputDataBufferQueue == []
    {
      codecIndexQueue, codecBufQueue, inputDataBufferQueue := [], [], [];
    }

    /** `OnEncInputBufferAvailable` and `OnDecInputBufferAvailable`; a null buffer is ignored. */
    method OnInputBufferAvailable(index: nat, buffer: Option<nat>)
      requires Paired()
      modifies this`codecIndexQueue, this`codecBufQueue
      ensures Paired()
      ensures codecIndexQueue == if buffer.Some? then PushBounded(old(codecIndexQueue), index) else old(codecIndexQueue)
      ensures codecBufQueue ==
        if buffer.Some? then PushBounded(old(codecBufQueue), buffer.value) else old(codecBufQueue)
      ensures buffer.Some? ==>
        forall s, b | old(Shows(s, b)) :: Shows(Arrive(s, Slot(index, buffer.value)), b)
    {
      if buffer.None? {
        return;
      }
      ghost var n := |codecIndexQueue|;
      while |codecBufQueue| > QUEUE_MAX || |codecIndexQueue| > QUEUE_MAX
        invariant |codecIndexQueue| == |codecBufQueue| <= n && (n > QUEUE_MAX ==> |codecBufQueue| >= QUEUE_MAX)
        invariant n <= QUEUE_MAX ==> |codecBufQueue| == n
        invariant codecIndexQueue == old(codecIndexQueue)[n - |codecIndexQueue|..]
        invariant codecBufQueue == old(codecBufQueue)[n - |codecBufQueue|..]
        decreases |codecBufQueue|
      {
        codecIndexQueue := codecIndexQueue[1..];
        codecBufQueue := codecBufQueue[1..];
      }
      codecIndexQueue := codecIndexQueue + [index];
      codecBufQueue := codecBufQueue + [buffer.value];
    }

    /** `DoProcessInputBuffer`, its locked region: `released` are the buffers it gives back. */
    method QueueInput(buffer: nat) returns (released: seq<nat>)
      modifies this`inputDataBufferQueue
      ensures inputDataBufferQueue == PushBounded(old(inputDataBufferQueue), buffer)
      ensures released == Overflow(old(inputDataBufferQueue))
      ensures forall s, b | old(Shows(s, b)) && buffer in b.inHand ::
        Shows(s, Queued(b, buffer)) && Queued(b, buffer).released == b.released + released
    {
      released := [];
      ghost var was := inputDataBufferQueue;
      while |inputDataBufferQueue| > QUEUE_MAX
        invariant released + inputDataBufferQueue == was
        invariant |inputDataBufferQueue| >= QUEUE_MAX || released == []
        decreases |inputDataBufferQueue|
      {
        released := released + [inputDataBufferQueue[0]];
        inputDataBufferQueue := inputDataBufferQueue[1..];
      }
      assert was[..|released|] == released && was[|released|..] == inputDataBufferQueue;
      inputDataBufferQueue := inputDataBufferQueue + [buffer];
    }

    /**
     * The worker's locked region.  Only the buffer queue and the input queue are tested for being
     * empty; that the index queue is not empty either is what `Paired` says.
     */
    method WorkerPop() returns (popped: Option<(nat, nat, nat)>)
      requires Paired()
      modifies this
      ensures Paired()
      ensures popped.Some? <==> old(inputDataBufferQueue) != [] && old(codecBufQueue) != []
      ensures popped.Some? ==>
        && old(codecIndexQueue) == [popped.value.0] + codecIndexQueue
        && old(codecBufQueue) == [popped.value.1] + codecBufQueue
        && old(inputDataBufferQueue) == [popped.value.2] + inputDataBufferQueue
      ensures popped.Some? ==> forall s, b | old(Shows(s, b)) ::
        && Shows(PopSlot(s), PopInput(b))
        && PopSlot(s).popped == s.popped + [Slot(popped.value.0, popped.value.1)]
        && PopInput(b).held == b.held + [popped.value.2]
      ensures popped.None? ==> unchanged(this)
    {
      if inputDataBufferQueue == [] || codecBufQueue == [] {
        return None;
      }
      popped := Some((codecIndexQueue[0], codecBufQueue[0], inputDataBufferQueue[0]));
      codecIndexQueue := codecIndexQueue[1..];
      codecBufQueue := codecBufQueue[1..];
      inputDataBufferQueue := inputDataBufferQueue[1..];
    }

    /** `StopInputThread`, after the join. */
    method Clear() returns (released: seq<nat>)
      modifies this
      ensures Paired() && codecIndexQueue == [] && codecBufQueue == [] && inputDataBufferQueue == []
      ensures released == old(inputDataBufferQueue)
      ensures forall s, b | old(Shows(s, b)) ::
        Shows(ClearSlots(s), ClearInputs(b)) && ClearInputs(b).released == b.released + released
    {
      codecIndexQueue, codecBufQueue := [], [];
      released := [];
      while inputDataBufferQueue != []
        invariant codecIndexQueue == codecBufQueue == []
        invariant released + inputDataBufferQueue == old(inputDataBufferQueue)
        decreases |inputDataBufferQueue|
      {
        released := released + [inputDataBufferQueue[0]];
        inputDataBufferQueue := inputDataBufferQueue[1..];
      }
    }
  }

  // ----- The codec's slots: index and buffer stay together -----

  datatype Slot = Slot(index: nat, mem: nat)

  /** The two codec queues, every callback so far, and what the worker popped. */
  datatype Slots = Slots(indices: seq<nat>, mems: seq<nat>, callbacks: seq<Slot>, popped: seq<Slot>)

  function Arrive(s: Slots, slot: Slot): Slots {
    s.(indices := PushBounded(s.indices, slot.index), mems := PushBounded(s.mems, slot.mem),
       callbacks := s.callbacks + [slot])
  }

  /** The index queue is popped without a test; index 0 stands for popping it when it is empty. */
  function PopSlot(s: Slots): Slots
    requires s.mems != []
  {
    var slot := Slot(if s.indices == [] then 0 else s.indices[0], s.mems[0]);
    s.(indices := if s.indices == [] then [] else s.indices[1..], mems := s.mems[1..], popped := s.popped + [slot])
  }

  function ClearSlots(s: Slots): Slots {
    s.(indices := [], mems := [])
  }

  function Zip(indices: seq<nat>, mems: seq<nat>): (z: seq<Slot>)
    requires |indices| == |mems|
    ensures |z| == |mems| && forall i | 0 <= i < |mems| :: z[i] == Slot(indices[i], mems[i])
  {
    seq(|mems|, i requires 0 <= i < |mems| => Slot(indices[i], mems[i]))
  }

  /** The callbacks that are no longer waiting in the queues. */
  function Past(s: Slots): seq<Slot>
    requires |s.mems| <= |s.callbacks|
  {
    s.callbacks[..|s.callbacks| - |s.mems|]
  }

  /**
   * The two codec queues, side by side, are the latest callbacks that are still waiting; what was
   * popped are earlier callbacks, each whole, each once, in their order.
   */
  predicate Pairing(s: Slots) {
    && |s.mems| <= QUEUE_MAX + 1
    && Waits(s.callbacks, s.indices, s.mems)
    && Subsequence(s.popped, Past(s))
  }

  /** The two queues, side by side, are the latest callbacks. */
  predicate Waits(callbacks: seq<Slot>, indices: seq<nat>, mems: seq<nat>) {
    && |indices| == |mems| <= |callbacks|
    && callbacks[|callbacks| - |mems|..] == Zip(indices, mems)
  }

  /** Moving the border between past and waiting callbacks d places on. */
  lemma MoveBorder<T>(all: seq<T>, k: nat, waiting: seq<T>, d: nat)
    requires k <= |all| && all[k..] == waiting && d <= |waiting|
    ensures all[..k + d] == all[..k] + waiting[..d] && all[k + d..] == waiting[d..]
  {
  }

  lemma ZipSuffix(indices: seq<nat>, mems: seq<nat>, d: nat)
    requires |indices| == |mems| && d <= |mems|
    ensures Zip(indices[d..], mems[d..]) == Zip(indices, mems)[d..]
  {
  }

  lemma ZipPush(indices: seq<nat>, mems: seq<nat>, slot: Slot)
    requires |indices| == |mems|
    ensures Zip(indices + [slot.index], mems + [slot.mem]) == Zip(indices, mems) + [slot]
  {
  }

  /** The first d waiting callbacks leave the queues. */
  lemma WaitingMovesOn(callbacks: seq<Slot>, indices: seq<nat>, mems: seq<nat>, d: nat)
    requires Waits(callbacks, indices, mems) && d <= |mems|
    ensures Waits(callbacks, indices[d..], mems[d..])
  {
    ZipSuffix(indices, mems, d);
    MoveBorder(callbacks, |callbacks| - |mems|, Zip(indices, mems), d);
  }

  lemma OneMoreWaits(callbacks: seq<Slot>, indices: seq<nat>, mems: seq<nat>, slot: Slot)
    requires Waits(callbacks, indices, mems)
    ensures Waits(callbacks + [slot], indices + [slot.index], mems + [slot.mem])
  {
    ZipPush(indices, mems, slot);
    var first := |callbacks| - |mems|;
    assert (callbacks + [slot])[first..] == callbacks[first..] + [slot];
  }

  lemma {:induction false} PastMovesOn(popped: seq<Slot>, callbacks: seq<Slot>, k: nat, d: nat)
    requires k + d <= |callbacks| && Subsequence(popped, callbacks[..k])
    ensures Subsequence(popped, callbacks[..k + d])
  {
    SubsequenceOfLonger(popped, callbacks[..k], callbacks[k..k + d]);
    assert callbacks[..k] + callbacks[k..k + d] == callbacks[..k + d];
  }

  lemma KeptIsSuffix<T>(queue: seq<T>)
    ensures |Kept(queue)| <= |queue| && Kept(queue) == queue[|queue| - |Kept(queue)|..]
    ensures |Kept(queue)| == if |queue| > QUEUE_MAX then QUEUE_MAX else |queue|
  {
  }

  lemma KeptWait(callbacks: seq<Slot>, indices: seq<nat>, mems: seq<nat>)
    requires Waits(callbacks, indices, mems)
    ensures Waits(callbacks, Kept(indices), Kept(mems))
  {
    KeptIsSuffix(indices);
    KeptIsSuffix(mems);
    WaitingMovesOn(callbacks, indices, mems, |mems| - |Kept(mems)|);
  }

  lemma {:induction false} ArriveKeepsPast(s: Slots, slot: Slot)
    requires Pairing(s) && Waits(s.callbacks, Kept(s.indices), Kept(s.mems))
    ensures Subsequence(s.popped, Past(Arrive(s, slot)))
  {
    KeptIsSuffix(s.mems);
    var first, k := |s.callbacks| - |s.mems|, |s.callbacks| - |Kept(s.mems)|;
    PastMovesOn(s.popped, s.callbacks, first, k - first);
    assert (s.callbacks + [slot])[..k] == s.callbacks[..k];
  }

  lemma {:induction false} ArriveKeepsPairing(s: Slots, slot: Slot)
    requires Pairing(s)
    ensures Pairing(Arrive(s, slot))
  {
    KeptWait(s.callbacks, s.indices, s.mems);
    OneMoreWaits(s.callbacks, Kept(s.indices), Kept(s.mems), slot);
    KeptIsSuffix(s.mems);
    ArriveKeepsPast(s, slot);
  }

  lemma PopTakesOldest(s: Slots)
    requires Pairing(s) && s.mems != []
    ensures s.indices != [] && PopSlot(s).popped == s.popped + [s.callbacks[|s.callbacks| - |s.mems|]]
  {
    var first, waiting := |s.callbacks| - |s.mems|, Zip(s.indices, s.mems);
    assert s.callbacks[first..][0] == waiting[0];
  }

  lemma {:induction false} PastTakesOne(popped: seq<Slot>, callbacks: seq<Slot>, k: nat)
    requires k < |callbacks| && Subsequence(popped, callbacks[..k])
    ensures Subsequence(popped + [callbacks[k]], callbacks[..k + 1])
  {
    SubsequenceGrows(popped, callbacks[..k], callbacks[k]);
    assert callbacks[..k] + [callbacks[k]] == callbacks[..k + 1];
  }

  lemma {:induction false} PopKeepsPairing(s: Slots)
    requires Pairing(s) && s.mems != []
    ensures Pairing(PopSlot(s))
  {
    PopTakesOldest(s);
    WaitingMovesOn(s.callbacks, s.indices, s.mems, 1);
    PastTakesOne(s.popped, s.callbacks, |s.callbacks| - |s.mems|);
  }

  lemma ClearKeepsPairing(s: Slots)
    requires Pairing(s)
    ensures Pairing(ClearSlots(s))
  {
    var first, waiting := |s.callbacks| - |s.mems|, Zip(s.indices, s.mems);
    MoveBorder(s.callbacks, first, waiting, |waiting|);
    assert waiting[..|waiting|] == waiting;
    SubsequenceOfLonger(s.popped, Past(s), waiting);
  }

  // ----- Custody of the input buffers -----

  /**
   * The acquisitions of input buffers, numbered: in the hands of an arriving call, queued, held by the
   * worker, released, or lost.
   */
  datatype Buffers = Buffers(acquired: nat, inHand: multiset<nat>, inputs: seq<nat>, held: seq<nat>,
                             released: seq<nat>, lost: seq<nat>)

  function Acquired(b: Buffers): Buffers {
    b.(acquired := b.acquired + 1, inHand := b.inHand + multiset{b.acquired})
  }

  function Queued(b: Buffers, data: nat): Buffers
    requires data in b.inHand
  {
    b.(inHand := b.inHand - multiset{data}, inputs := PushBounded(b.inputs, data),
       released := b.released + Overflow(b.inputs))
  }

  function PopInput(b: Buffers): Buffers
    requires b.inputs != []
  {
    b.(inputs := b.inputs[1..], held := b.held + [b.inputs[0]])
  }

  /** The worker gives back what it holds, or drops it without giving it back. */
  function GiveBack(b: Buffers): Buffers {
    b.(held := [], released := b.released + b.held)
  }

  function Drop(b: Buffers): Buffers {
    b.(held := [], lost := b.lost + b.held)
  }

  function ClearInputs(b: Buffers): Buffers {
    b.(inputs := [], released := b.released + b.inputs)
  }

  /** In how many places acquisition k is. */
  function Places(b: Buffers, k: nat): nat {
    b.inHand[k] + multiset(b.inputs)[k] + multiset(b.held)[k] + multiset(b.released)[k] + multiset(b.lost)[k]
  }

  function Total(b: Buffers): nat {
    |b.inHand| + |b.inputs| + |b.held| + |b.released| + |b.lost|
  }

  /** Each acquisition so far is in exactly one place, once. */
  ghost predicate Custody(b: Buffers) {
    && (forall k: nat :: Places(b, k) == if k < b.acquired then 1 else 0)
    && Total(b) == b.acquired
    && |b.inputs| <= QUEUE_MAX + 1
  }

  lemma CountSplit<T>(a: seq<T>, k: nat, x: T)
    requires k <= |a|
    ensures multiset(a)[x] == multiset(a[..k])[x] + multiset(a[k..])[x]
  {
    assert a == a[..k] + a[k..];
  }

  lemma AcquireKeepsCustody(b: Buffers)
    requires Custody(b)
    ensures Custody(Acquired(b))
  {
    forall k: nat ensures Places(Acquired(b), k) == if k < b.acquired + 1 then 1 else 0 {
      assert Places(b, k) == if k < b.acquired then 1 else 0;
    }
  }

  lemma CountConcat<T>(a: seq<T>, b: seq<T>, x: T)
    ensures multiset(a + b)[x] == multiset(a)[x] + multiset(b)[x]
  {
    CountSplit(a + b, |a|, x);
    assert (a + b)[..|a|] == a && (a + b)[|a|..] == b;
  }

  /** A bounded push moves nothing but what it drops and what it appends. */
  lemma PushBoundedCounts(inputs: seq<nat>, released: seq<nat>, data: nat, k: nat)
    ensures multiset(PushBounded(inputs, data))[k] + multiset(released + Overflow(inputs))[k]
         == multiset(inputs)[k] + multiset(released)[k] + multiset{data}[k]
  {
    CountConcat(Kept(inputs), [data], k);
    CountConcat(released, Overflow(inputs), k);
    CountConcat(Overflow(inputs), Kept(inputs), k);
    assert Overflow(inputs) + Kept(inputs) == inputs;
    assert multiset([data]) == multiset{data};
  }

  lemma QueueKeepsPlaces(b: Buffers, data: nat, k: nat)
    requires data in b.inHand
    ensures Places(Queued(b, data), k) == Places(b, k)
  {
    PushBoundedCounts(b.inputs, b.released, data, k);
    assert (b.inHand - multiset{data})[k] + multiset{data}[k] == b.inHand[k];
  }

  lemma QueueKeepsCustody(b: Buffers, data: nat)
    requires Custody(b) && data in b.inHand
    ensures Custody(Queued(b, data))
  {
    forall k: nat {
      QueueKeepsPlaces(b, data, k);
    }
  }

  lemma PopKeepsCustody(b: Buffers)
    requires Custody(b) && b.inputs != []
    ensures Custody(PopInput(b))
  {
    forall k: nat ensures Places(PopInput(b), k) == if k < b.acquired then 1 else 0 {
      CountSplit(b.inputs, 1, k);
      assert Places(PopInput(b), k) == Places(b, k);
    }
  }

  lemma HandingOverKeepsPlaces(b: Buffers, k: nat)
    ensures Places(GiveBack(b), k) == Places(b, k)
    ensures Places(Drop(b), k) == Places(b, k)
    ensures Places(ClearInputs(b), k) == Places(b, k)
  {
  }

  lemma HandingOverKeepsCustody(b: Buffers)
    requires Custody(b)
    ensures Custody(GiveBack(b)) && Custody(Drop(b)) && Custody(ClearInputs(b))
  {
    forall k: nat {
      HandingOverKeepsPlaces(b, k);
    }
  }

  // ----- Runs: codec callbacks, buffer arrivals, the worker, and start and stop, interleaved -----

  datatype Worker = NoThread | Looping | Processing | Exited

  /** The progress of a call of `StopInputThread`. */
  datatype Stop = NotStopping | Joining | Clearing

  datatype Outcome = Ok | InvalidOperation | OtherError

  datatype Filter = Filter(slots: Slots, buffers: Buffers, running: bool, worker: Worker, stop: Stop, errors: nat)

  const START := Filter(Slots([], [], [], []), Buffers(0, multiset{}, [], [], [], []), false, NoThread, NotStopping, 0)

  datatype Event =
    | InputAvailable(index: nat, buffer: Option<nat>)
    | Acquire
    | Queue(data: nat)
    | StartThread
    | CodecError
    | LoopExit
    | Pop
    | Process(outcome: Outcome)
    | StopBegin
    | StopJoin
    | StopClear

  predicate Enabled(f: Filter, e: Event) {
    match e
    case InputAvailable(_, _) => true
    case Acquire => true
    case Queue(data) => data in f.buffers.inHand
    case StartThread => f.worker.NoThread? && f.stop.NotStopping?
    case CodecError => true
    case LoopExit => f.worker.Looping? && !f.running
    case Pop => f.worker.Looping? && f.buffers.inputs != [] && f.slots.mems != []
    case Process(_) => f.worker.Processing?
    case StopBegin => f.stop.NotStopping?
    case StopJoin => f.stop.Joining? && (f.worker.NoThread? || f.worker.Exited?)
    case StopClear => f.stop.Clearing?
  }

  function Next(f: Filter, e: Event): Filter
    requires Enabled(f, e)
  {
    match e
    case InputAvailable(index, buffer) =>
      if buffer.None? then f else f.(slots := Arrive(f.slots, Slot(index, buffer.value)))
    case Acquire => f.(buffers := Acquired(f.buffers))
    case Queue(data) => f.(buffers := Queued(f.buffers, data))
    case StartThread => f.(running := true, worker := Looping)
    case CodecError => f.(running := false)
    case LoopExit => f.(worker := Exited)
    case Pop => f.(slots := PopSlot(f.slots), buffers := PopInput(f.buffers), worker := Processing)
    case Process(outcome) =>
      if outcome.Ok? then
        f.(buffers := GiveBack(f.buffers), worker := Looping)
      else
        f.(buffers := Drop(f.buffers), worker := if outcome.InvalidOperation? then Exited else Looping,
           errors := f.errors + 1)
    case StopBegin => f.(running := false, stop := Joining)
    case StopJoin => f.(worker := NoThread, stop := Clearing)
    case StopClear => f.(slots := ClearSlots(f.slots), buffers := ClearInputs(f.buffers), stop := NotStopping)
  }

  function After(es: seq<Event>): Option<Filter> {
    if es == [] then
      Some(START)
    else
      match After(es[..|es| - 1])
      case None => None
      case Some(f) => if Enabled(f, es[|es| - 1]) then Some(Next(f, es[|es| - 1])) else None
  }

  ghost predicate Invariant(f: Filter) {
    && Pairing(f.slots)
    && Custody(f.buffers)
    && |f.buffers.held| == (if f.worker.Processing? then 1 else 0)
    && |f.buffers.lost| == f.errors
    && (f.stop.Clearing? ==> f.worker.NoThread?)
    && (!f.stop.NotStopping? ==> !f.running)
  }

  lemma StepKeepsInvariant(f: Filter, e: Event)
    requires Invariant(f) && Enabled(f, e)
    ensures Invariant(Next(f, e))
  {
    match e
    case InputAvailable(index, buffer) =>
      if buffer.Some? {
        ArriveKeepsPairing(f.slots, Slot(index, buffer.value));
      }
    case Acquire => AcquireKeepsCustody(f.buffers);
    case Queue(data) => QueueKeepsCustody(f.buffers, data);
    case Pop =>
      PopKeepsPairing(f.slots);
      PopKeepsCustody(f.buffers);
    case Process(_) => HandingOverKeepsCustody(f.buffers);
    case StopClear =>
      ClearKeepsPairing(f.slots);
      HandingOverKeepsCustody(f.buffers);
    case _ =>
  }

  lemma {:induction false} RunsKeepInvariant(es: seq<Event>)
    requires After(es).Some?
    ensures Invariant(After(es).value)
  {
    if es != [] {
      var prefix := es[..|es| - 1];
      RunsKeepInvariant(prefix);
      StepKeepsInvariant(After(prefix).value, es[|es| - 1]);
    }
  }

  /**
   * In every run, across overflow drops and stops: the queues have one length of at most 101, equal
   * positions come from one callback, and the worker gets callbacks whole, once each, in order.
   */
  lemma {:induction false} IndicesStayWithTheirBuffers(es: seq<Event>)
    requires After(es).Some?
    ensures Pairing(After(es).value.slots)
  {
    RunsKeepInvariant(es);
  }

  /** The worker tests only the buffer queue, and yet its pop of the index queue finds the buffer's own index. */
  lemma IndexPopIsSafe(es: seq<Event>)
    requires After(es).Some? && Enabled(After(es).value, Pop)
    ensures var s := After(es).value.slots;
      && s.indices != []
      && |s.mems| <= |s.callbacks|
      && Next(After(es).value, Pop).slots.popped == s.popped + [s.callbacks[|s.callbacks| - |s.mems|]]
  {
    RunsKeepInvariant(es);
    PopTakesOldest(After(es).value.slots);
  }

  /**
   * In every run a buffer is released at most once, each error loses one, and the acquired buffers are
   * those arriving, queued, held and released exactly when `ProcessData` has always returned OK.
   */
  lemma {:induction false} ReleasedAtMostOnce(es: seq<Event>, k: nat)
    requires After(es).Some?
    ensures var f := After(es).value; var b := f.buffers;
      && multiset(b.released)[k] <= 1
      && |b.inputs| <= 101
      && |b.lost| == f.errors
      && (b.acquired == |b.inHand| + |b.inputs| + |b.held| + |b.released| <==> f.errors == 0)
  {
    RunsKeepInvariant(es);
    assert Places(After(es).value.buffers, k) <= 1;
  }

  /** While a stop is under way the flag is down, so that the worker's next test ends its loop. */
  lemma {:induction false} StopIsNoticed(es: seq<Event>)
    requires After(es).Some? && !After(es).value.stop.NotStopping?
    ensures !After(es).value.running
    ensures After(es).value.worker.Looping? ==> Enabled(After(es).value, LoopExit)
  {
    RunsKeepInvariant(es);
  }

  /** The flag is raised by a start alone, and lowered by an error of the codec or by a stop. */
  lemma FlagChangesExactly(f: Filter, e: Event)
    requires Enabled(f, e)
    ensures Next(f, e).running <==> e.StartThread? || (f.running && !e.CodecError? && !e.StopBegin?)
  {
  }

  /** Only an invalid operation ends the worker at once; after other outcomes it goes on while the flag is up. */
  lemma WorkerEndsExactly(f: Filter, outcome: Outcome)
    requires Enabled(f, Process(outcome))
    ensures var q := Next(f, Process(outcome));
      && (q.worker.Exited? <==> outcome.InvalidOperation?)
      && (!q.worker.Exited? ==> q.worker.Looping?)
      && (q.errors == f.errors <==> outcome.Ok?)
      && (outcome.Ok? ==> q.buffers.released == f.buffers.released + f.buffers.held)
  {
  }

  /** When a stop finishes after a run without errors and no buffer is arriving, all have been given back. */
  lemma {:induction false} StopGivesEverythingBack(es: seq<Event>, k: nat)
    requires After(es).Some? && Enabled(After(es).value, StopClear)
    requires After(es).value.buffers.inHand == multiset{} && After(es).value.errors == 0
    ensures var b := Next(After(es).value, StopClear).buffers; k < b.acquired <==> multiset(b.released)[k] == 1
  {
    RunsKeepInvariant(es);
    var f := After(es).value;
    StepKeepsInvariant(f, StopClear);
    assert Places(Next(f, StopClear).buffers, k) == multiset(Next(f, StopClear).buffers.released)[k];
  }
}
