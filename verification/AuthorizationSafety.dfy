/** What holds in every run of the authorization protocol, and what that means for starting a codec. */
module AuthorizationSafety {
  import opened Common
  import opened AccessConfig
  import opened AuthorizationTables
  import opened Authorization

  // ----- Cancel flags, timer threads and pending requests go together -----

  /** A result call for the request has raised its flag and not yet looked for it. */
  ghost predicate ResultInFlight(p: Protocol, id: Id) {
    exists c :: c in p.calls && p.calls[c].id == id && p.calls[c].step.Taking?
  }

  /** A pending request is not armed yet, or its timer will time it out, or a result is about to take it. */
  ghost predicate Tidy(s: System, id: Id) {
    var p := s.core;
    && (id in p.tables.flags <==> id in p.timers && p.timers[id].Sleeping?)
    && (id in p.tables.threads <==> id in p.timers && !p.timers[id].Over?)
    && (id in s.owner && id in p.requesters && p.requesters[id].step in {ToNotify, Returned} ==> id in p.timers)
    && (id in p.tables.pending && id in p.timers ==>
          p.timers[id].Sleeping? || p.timers[id].Fired? || ResultInFlight(p, id))
    && (id in p.tables.flags && p.tables.flags[id] ==> id !in p.tables.pending || ResultInFlight(p, id))
  }

  lemma RequestKeepsTidy(s: System, id: Id, e: RequestEvent, x: Id)
    requires OneOwner(s) && RequestEnabled(s.core, id, e) && Tidy(s, x)
    ensures Tidy(Step(s, OnRequest(id, e)), x)
  {
    assert OwnerIsRight(s, x);
    var q := Step(s, OnRequest(id, e));
    assert q.core.calls == s.core.calls;
    assert ResultInFlight(s.core, x) ==> ResultInFlight(q.core, x);
  }

  lemma TimerKeepsTidy(s: System, id: Id, e: TimerEvent, x: Id)
    requires OneOwner(s) && TimerEnabled(s.core, id, e) && Tidy(s, x)
    ensures Tidy(Step(s, OnTimer(id, e)), x)
  {
    assert OwnerIsRight(s, x);
    var q := Step(s, OnTimer(id, e));
    assert q.core.calls == s.core.calls;
    assert ResultInFlight(s.core, x) ==> ResultInFlight(q.core, x);
  }

  /** Only the call that takes the request ends its own flight. */
  lemma FlightGoesOn(p: Protocol, c: nat, e: CallEvent, x: Id)
    requires CallEnabled(p, c, e) && ResultInFlight(p, x)
    ensures ResultInFlight(CallNext(p, c, e), x) || (e.Take? && p.calls[c].id == x)
  {
    var d :| d in p.calls && p.calls[d].id == x && p.calls[d].step.Taking?;
    if d != c {
      var calls := CallNext(p, c, e).calls;
      assert d in calls && calls[d] == p.calls[d];
    }
  }

  lemma CallKeepsTidy(s: System, c: nat, e: CallEvent, x: Id)
    requires OneOwner(s) && CallEnabled(s.core, c, e) && Tidy(s, x)
    ensures Tidy(Step(s, OnCall(c, e)), x)
  {
    var q := Step(s, OnCall(c, e));
    assert OwnerIsRight(s, x) && CallIsOwner(s, c);
    if ResultInFlight(s.core, x) {
      FlightGoesOn(s.core, c, e, x);
    }
    if e.Cancel? && s.core.calls[c].id == x {
      assert c in q.core.calls && q.core.calls[c].step.Taking? && q.core.calls[c].id == x;
    }
  }

  lemma StepKeepsTidy(s: System, e: Event, x: Id)
    requires OneOwner(s) && Enabled(s.core, e) && Tidy(s, x)
    ensures Tidy(Step(s, e), x)
  {
    match e
    case OnRequest(id, r) => RequestKeepsTidy(s, id, r, x);
    case OnTimer(id, t) => TimerKeepsTidy(s, id, t, x);
    case OnCall(c, a) => CallKeepsTidy(s, c, a, x);
    case OnConfig(_) =>
      var q := Step(s, e);
      assert q.core.calls == s.core.calls && q.core.tables == s.core.tables;
      assert ResultInFlight(s.core, x) ==> ResultInFlight(q.core, x);
  }

  // ----- Every run -----

  ghost predicate Invariant(s: System) {
    && OneOwner(s)
    && LogIsRight(s)
    && (forall id :: Tidy(s, id))
    && s.core.config.results == Replay(s.log)
  }

  lemma StepKeepsOneOwner(s: System, e: Event)
    requires OneOwner(s) && Enabled(s.core, e)
    ensures OneOwner(Step(s, e))
  {
    match e
    case OnRequest(id, r) => RequestKeepsOneOwner(s, id, r);
    case OnTimer(id, t) => TimerKeepsOneOwner(s, id, t);
    case OnCall(c, a) => CallKeepsOneOwner(s, c, a);
    case OnConfig(_) =>
      var q := Step(s, e);
      forall id ensures OwnerIsRight(q, id) {
        assert OwnerIsRight(s, id);
      }
      forall c ensures CallIsOwner(q, c) {
        assert CallIsOwner(s, c);
      }
  }

  lemma StepKeepsInvariant(s: System, e: Event)
    requires Invariant(s) && Enabled(s.core, e)
    ensures Invariant(Step(s, e))
  {
    StepKeepsOneOwner(s, e);
    StepKeepsLogRight(s, e);
    forall id ensures Tidy(Step(s, e), id) {
      StepKeepsTidy(s, e, id);
    }
    StepIsReplayed(s, e);
  }

  lemma {:induction false} RunsKeepInvariant(es: seq<Event>)
    requires After(es).Some?
    ensures Invariant(After(es).value)
  {
    if es == [] {
      assert START.core.config.results == Replay([]);
    } else {
      var prefix := es[..|es| - 1];
      RunsKeepInvariant(prefix);
      StepKeepsInvariant(After(prefix).value, es[|es| - 1]);
    }
  }

  /** In every interleaving at most one timeout or result decides a request. */
  lemma ResolvedAtMostOnce(es: seq<Event>, i: nat, j: nat, id: Id)
    requires After(es).Some? && i < j < |After(es).value.log|
    ensures !(Decides(After(es).value.log[i], id) && Decides(After(es).value.log[j], id))
  {
    RunsKeepInvariant(es);
  }

  /** A decision is stored for the peer that its request was created for. */
  lemma DecisionsAreForTheRequestsPeer(es: seq<Event>, i: nat, k: nat, id: Id, peer: Peer)
    requires After(es).Some? && i < |After(es).value.log|
    requires k < |es| && es[k] == OnRequest(id, Begin(peer))
    requires Decides(After(es).value.log[i], id)
    ensures After(es).value.log[i].peer == peer
  {
    RunsKeepInvariant(es);
    RequestersKeepTheirPeer(es, k, id, peer);
    assert EntryIsRight(After(es).value, After(es).value.log[i]);
  }

  lemma {:induction false} RequestersKeepTheirPeer(es: seq<Event>, k: nat, id: Id, peer: Peer)
    requires After(es).Some? && k < |es| && es[k] == OnRequest(id, Begin(peer))
    ensures IsFor(After(es).value, id, peer)
  {
    var n := |es| - 1;
    if k < n {
      RequestersKeepTheirPeer(es[..n], k, id, peer);
      PeersStay(After(es[..n]).value, es[n], id);
    }
  }

  /** A request whose cancel flag is up is no longer pending, or a result call for it is under way. */
  lemma CancelledIsBeingTaken(es: seq<Event>, id: Id)
    requires After(es).Some?
    ensures var p := After(es).value.core;
      id in p.tables.flags && p.tables.flags[id] ==> id !in p.tables.pending || ResultInFlight(p, id)
  {
    RunsKeepInvariant(es);
    assert Tidy(After(es).value, id);
  }

  /** No actor is between two steps. */
  ghost predicate Quiescent(p: Protocol) {
    && (forall id <- p.requesters :: p.requesters[id].step.Returned?)
    && (forall id <- p.timers :: p.timers[id].Over?)
    && (forall c <- p.calls :: p.calls[c].step.Answered?)
  }

  /** When everyone has come to rest the three tables are empty and every registered request was decided. */
  lemma {:induction false} NothingIsLeftBehind(es: seq<Event>)
    requires After(es).Some? && Quiescent(After(es).value.core)
    ensures var s := After(es).value;
      && s.core.tables == EMPTY
      && forall k: nat, id | k < |es| && es[k] == OnRequest(id, Register) :: DecidedIn(s.log, id)
  {
    RunsKeepInvariant(es);
    var s := After(es).value;
    forall id ensures id !in s.core.tables.pending && id !in s.core.tables.flags && id !in s.core.tables.threads {
      assert Tidy(s, id) && OwnerIsRight(s, id);
    }
    assert s.core.tables.pending == map[] && s.core.tables.flags == map[] && s.core.tables.threads == {};
    forall k: nat, id | k < |es| && es[k] == OnRequest(id, Register) ensures DecidedIn(s.log, id) {
      RegisteredHaveOwners(es, k, id);
      assert Tidy(s, id) && OwnerIsRight(s, id);
      assert s.owner[id] == Decided;
    }
  }

  lemma {:induction false} RegisteredHaveOwners(es: seq<Event>, k: nat, id: Id)
    requires After(es).Some? && k < |es| && es[k] == OnRequest(id, Register)
    ensures id in After(es).value.owner
  {
    var n := |es| - 1;
    if k < n {
      RegisteredHaveOwners(es[..n], k, id);
    }
  }

  // ----- Where a grant comes from -----

  /** What an entry does to the stored decisions. */
  function Effect(stored: map<Peer, bool>, e: Entry): map<Peer, bool> {
    match e
    case Allowed(_, peer) => stored[peer := true]
    case TimedOut(_, peer) => stored[peer := false]
    case Resulted(_, peer, granted, _) => stored[peer := granted]
    case Forgot(peer) => stored - {peer}
    case ForgotAll => map[]
  }

  /** The decisions that the log leaves stored. */
  function Replay(log: seq<Entry>): map<Peer, bool> {
    if log == [] then map[] else Effect(Replay(log[..|log| - 1]), log[|log| - 1])
  }

  lemma StepHasEffect(p: Protocol, e: Event)
    requires Enabled(p, e)
    ensures var added := Appended(p, e);
      Next(p, e).config.results == if added == [] then p.config.results else Effect(p.config.results, added[0])
  {
  }

  lemma StepIsReplayed(s: System, e: Event)
    requires s.core.config.results == Replay(s.log) && Enabled(s.core, e)
    ensures Step(s, e).core.config.results == Replay(Step(s, e).log)
  {
    StepHasEffect(s.core, e);
    var added := Appended(s.core, e);
    if added == [] {
      assert s.log + added == s.log;
    } else {
      assert (s.log + added)[..|s.log|] == s.log;
    }
  }

  predicate Grants(e: Entry, peer: Peer) {
    match e
    case Allowed(_, p) => p == peer
    case Resulted(_, p, granted, _) => p == peer && granted
    case _ => false
  }

  predicate Touches(e: Entry, peer: Peer) {
    match e
    case ForgotAll => true
    case Allowed(_, p) => p == peer
    case TimedOut(_, p) => p == peer
    case Resulted(_, p, _, _) => p == peer
    case Forgot(p) => p == peer
  }

  /** A stored `true` is the last word of the log about the peer, and it is a grant. */
  lemma {:induction false} GrantIsLastWord(log: seq<Entry>, peer: Peer) returns (i: nat)
    requires peer in Replay(log) && Replay(log)[peer]
    ensures i < |log| && Grants(log[i], peer)
    ensures forall j | i < j < |log| :: !Touches(log[j], peer)
  {
    var n := |log| - 1;
    if Touches(log[n], peer) {
      i := n;
    } else {
      i := GrantIsLastWord(log[..n], peer);
      assert log[i] == log[..n][i];
    }
  }

  /** The requester asked when there was no listener, or asked when there was no package. */
  ghost predicate AskedUnconfigured(es: seq<Event>, id: Id) {
    exists k: nat :: AskedAt(es, k, id)
  }

  predicate AskedAt(es: seq<Event>, k: nat, id: Id) {
    k < |es| && After(es[..k]).Some? && UnconfiguredAt(After(es[..k]).value.core.config, es[k], id)
  }

  lemma AskedAtOnward(es: seq<Event>, k: nat, id: Id)
    requires k + 1 < |es|
    ensures AskedAt(es[..|es| - 1], k, id) <==> AskedAt(es, k, id)
  {
    assert es[..|es| - 1][..k] == es[..k];
  }

  predicate UnconfiguredAt(c: Config, e: Event, id: Id) {
    || (e == OnRequest(id, ReadListener) && !c.listener)
    || (e == OnRequest(id, ReadPackage) && c.pkgName == "")
  }

  lemma AskedStays(es: seq<Event>, id: Id)
    requires es != [] && AskedUnconfigured(es[..|es| - 1], id)
    ensures AskedUnconfigured(es, id)
  {
    var k: nat :| AskedAt(es[..|es| - 1], k, id);
    AskedAtOnward(es, k, id);
  }

  /** The requester was let in by default, or is about to be. */
  predicate ByDefault(s: System, id: Id) {
    || (id in s.core.requesters && s.core.requesters[id].step.AllowByDefault?)
    || exists k :: 0 <= k < |s.log| && s.log[k].Allowed? && s.log[k].id == id
  }

  lemma DefaultBegins(s: System, e: Event, id: Id)
    requires Enabled(s.core, e) && ByDefault(Step(s, e), id)
    ensures ByDefault(s, id) || UnconfiguredAt(s.core.config, e, id)
  {
    var q, added := Step(s, e), Appended(s.core, e);
    if k :| 0 <= k < |q.log| && q.log[k].Allowed? && q.log[k].id == id {
      assert k < |s.log| ==> s.log[k] == q.log[k];
    }
  }

  lemma {:induction false} DefaultsWereUnconfigured(es: seq<Event>, id: Id)
    requires After(es).Some? && ByDefault(After(es).value, id)
    ensures AskedUnconfigured(es, id)
  {
    if es != [] {
      var n := |es| - 1;
      DefaultBegins(After(es[..n]).value, es[n], id);
      assert UnconfiguredAt(After(es[..n]).value.core.config, es[n], id) ==> AskedAt(es, n, id);
      if ByDefault(After(es[..n]).value, id) {
        DefaultsWereUnconfigured(es[..n], id);
        AskedStays(es, id);
      }
    }
  }

  /** The entry is a default allow or a granted result, each with what it must rest on. */
  ghost predicate GrantedRightly(es: seq<Event>, s: System, e: Entry, peer: Peer) {
    match e
    case Allowed(id, p) => p == peer && IsFor(s, id, peer) && AskedUnconfigured(es, id)
    case Resulted(id, p, granted, c) =>
      && p == peer && granted && IsFor(s, id, peer)
      && c in s.core.calls && s.core.calls[c].id == id && s.core.calls[c].granted
    case _ => false
  }

  /**
   * A stored `true` comes from a default allow of a requester of that peer that met no listener or no
   * package, or from a call that granted a request of that peer, and nothing has touched it since.
   */
  lemma GrantProvenance(es: seq<Event>, peer: Peer)
    requires After(es).Some? && IsGranted(After(es).value.core.config, peer)
    ensures var s := After(es).value; exists i: nat ::
      && i < |s.log|
      && GrantedRightly(es, s, s.log[i], peer)
      && (forall j | i < j < |s.log| :: !Touches(s.log[j], peer))
  {
    RunsKeepInvariant(es);
    var s := After(es).value;
    var i := GrantIsLastWord(s.log, peer);
    assert EntryIsRight(s, s.log[i]);
    if s.log[i].Allowed? {
      DefaultsWereUnconfigured(es, s.log[i].id);
    }
  }

  // ----- The gate in front of the codec -----

  /** The configurations that a gate sees at five moments of a run, in order. */
  predicate Moments(es: seq<Event>, at: seq<Config>, times: seq<nat>) {
    && |at| == |times| == 5
    && (forall k | 0 <= k < 5 :: times[k] <= |es| && After(es[..times[k]]).Some?
          && at[k] == After(es[..times[k]]).value.core.config)
    && (forall k | 0 <= k < 4 :: times[k] <= times[k + 1])
  }

  /**
   * However results come, go and are cleared between its reads, a gate that saw a network id lets the
   * codec start only if that peer is granted at the last read; and then the grant has a provenance.
   */
  lemma GateNeedsAGrant(es: seq<Event>, at: seq<Config>, times: seq<nat>)
    requires Moments(es, at, times) && at[0].current != "" && GatePasses(at)
    ensures var peer := at[0].current; var prefix := es[..times[4]]; var s := After(prefix).value;
      && IsGranted(s.core.config, peer)
      && exists i: nat ::
           && i < |s.log|
           && GrantedRightly(prefix, s, s.log[i], peer)
           && (forall j | i < j < |s.log| :: !Touches(s.log[j], peer))
  {
    GrantProvenance(es[..times[4]], at[0].current);
  }
}
