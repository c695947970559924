/** The three tables of authorization requests; each function is one region locked by `authRequestMutex_`. */
module AuthorizationTables {

  type Id = string
  type Peer = string

  datatype Tables = Tables(pending: map<Id, Peer>, flags: map<Id, bool>, threads: set<Id>)

  const EMPTY := Tables(map[], map[], {})

  function Registered(t: Tables, id: Id, peer: Peer): Tables {
    t.(pending := t.pending[id := peer])
  }

  /** The cancel flag is raised only if the timer's flag is there. */
  function Cancelled(t: Tables, id: Id): Tables {
    if id in t.flags then t.(flags := t.flags[id := true]) else t
  }

  function Armed(t: Tables, id: Id): Tables {
    t.(flags := t.flags[id := false], threads := t.threads + {id})
  }

  /** The timer's flag goes; the request times out if the flag was there and not raised. */
  function Expired(t: Tables, id: Id): (Tables, bool) {
    (t.(flags := t.flags - {id}), id in t.flags && !t.flags[id])
  }

  /** The pending request and its peer, or an empty peer if it is not pending. */
  function Taken(t: Tables, id: Id): (Tables, Peer) {
    (t.(pending := t.pending - {id}), if id in t.pending then t.pending[id] else "")
  }

  function Ended(t: Tables, id: Id): Tables {
    t.(threads := t.threads - {id})
  }

  /** What the tables say of one request. */
  datatype Row = Row(pending: bool, peer: Peer, hasFlag: bool, raised: bool, timed: bool)

  function RowOf(t: Tables, id: Id): Row {
    Row(id in t.pending, if id in t.pending then t.pending[id] else "",
          id in t.flags, id in t.flags && t.flags[id], id in t.threads)
  }

  /** No operation on one request touches another. */
  lemma RequestsAreIndependent(t: Tables, id: Id, peer: Peer, other: Id)
    requires other != id
    ensures RowOf(Registered(t, id, peer), other) == RowOf(t, other)
    ensures RowOf(Cancelled(t, id), other) == RowOf(t, other)
    ensures RowOf(Armed(t, id), other) == RowOf(t, other)
    ensures RowOf(Expired(t, id).0, other) == RowOf(t, other)
    ensures RowOf(Taken(t, id).0, other) == RowOf(t, other)
    ensures RowOf(Ended(t, id), other) == RowOf(t, other)
  {
  }

  /** A request is taken once: whoever comes second finds no peer, and changes nothing. */
  lemma TakenOnce(t: Tables, id: Id)
    ensures Taken(Taken(t, id).0, id) == (Taken(t, id).0, "")
  {
    assert t.pending - {id} - {id} == t.pending - {id};
  }

  /** An armed timer times out exactly if it was not cancelled, and leaves no flag in either case. */
  lemma CancellingStopsTheTimer(t: Tables, id: Id)
    ensures Expired(Armed(t, id), id).1
    ensures !Expired(Cancelled(Armed(t, id), id), id).1
    ensures Expired(Cancelled(t, id), id).0 == Expired(t, id).0
    ensures !Expired(Expired(t, id).0, id).1
  {
    assert t.flags[id := true] - {id} == t.flags - {id};
  }

  /** The tables as fields of the channel adapter. */
  class AuthorizationRequests {
    var pendingAuthRequests: map<Id, Peer>
    var authTimerCancelFlags: map<Id, bool>
    var authTimerThreads: set<Id>

    function State(): Tables
      reads this
    {
      Tables(pendingAuthRequests, authTimerCancelFlags, authTimerThreads)
    }

    constructor ()
      ensures State() == EMPTY
    {
      pendingAuthRequests, authTimerCancelFlags, authTimerThreads := map[], map[], {};
    }

    /** `RequestAndWaitForAuthorization`, the region that makes the request pending. */
    method Register(id: Id, peer: Peer)
      modifies this
      ensures State() == Registered(old(State()), id, peer)
    {
      pendingAuthRequests := pendingAuthRequests[id := peer];
    }

    /** `CancelAuthorizationTimer`. */
    method CancelAuthorizationTimer(id: Id)
      modifies this
      ensures State() == Cancelled(old(State()), id)
    {
      if id in authTimerCancelFlags {
        authTimerCancelFlags := authTimerCancelFlags[id := true];
      }
    }

    /** `StartAuthorizationTimer`, after its call of `CancelAuthorizationTimer`. */
    method ArmTimer(id: Id)
      modifies this
      ensures State() == Armed(old(State()), id)
    {
      authTimerCancelFlags := authTimerCancelFlags[id := false];
      authTimerThreads := authTimerThreads + {id};
    }

    /** The timer thread's first region, after its sleep. */
    method TimerExpires(id: Id) returns (shouldTimeout: bool)
      modifies this
      ensures (State(), shouldTimeout) == Expired(old(State()), id)
    {
      shouldTimeout := false;
      if id in authTimerCancelFlags && !authTimerCancelFlags[id] {
        shouldTimeout := true;
      }
      authTimerCancelFlags := authTimerCancelFlags - {id};
    }

    /** The region that `HandleAuthorizationTimeout` and `ProcessAuthorizationResult` have in common. */
    method TakePending(id: Id) returns (networkId: Peer)
      modifies this
      ensures (State(), networkId) == Taken(old(State()), id)
    {
      networkId := "";
      ghost var was := pendingAuthRequests;
      if id in pendingAuthRequests {
        networkId := pendingAuthRequests[id];
        pendingAuthRequests := pendingAuthRequests - {id};
      }
      assert pendingAuthRequests == was - {id};
    }

    /** The timer thread's last region. */
    method TimerEnds(id: Id)
      modifies this
      ensures State() == Ended(old(State()), id)
    {
      authTimerThreads := authTimerThreads - {id};
    }
  }
}
