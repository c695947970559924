/**
 * What the steps of the authorization protocol bring about: whom the gate asks for, which answer is
 * stored, who is let in by default, and that an answer in time stops the timer.
 */
module AuthorizationEffects {
  import opened Common
  import opened AccessConfig
  import opened AuthorizationTables
  import opened Authorization
  import opened AuthorizationSafety

  lemma AfterOneMore(es: seq<Event>, e: Event)
    ensures After(es + [e]).Some? <==> After(es).Some? && Enabled(After(es).value.core, e)
    ensures After(es + [e]).Some? ==> After(es + [e]).value == Step(After(es).value, e)
  {
    assert (es + [e])[..|es|] == es;
  }

  lemma {:induction false} PrefixIsARun(es: seq<Event>, more: seq<Event>)
    requires After(es + more).Some?
    ensures After(es).Some?
  {
    if more == [] {
      assert es + more == es;
    } else {
      var n := |more| - 1;
      assert es + more == es + more[..n] + [more[n]];
      AfterOneMore(es + more[..n], more[n]);
      PrefixIsARun(es, more[..n]);
    }
  }

  // ----- Whom the gate asks for -----

  /** The peer of the last channel that arrived, unless its own package has cleared the configuration since. */
  function CurrentPeer(es: seq<Event>): string
    requires After(es).Some?
  {
    if es == [] then ""
    else
      var before := es[..|es| - 1];
      match es[|es| - 1]
      case OnRequest(_, Begin(peer)) => peer
      case OnConfig(ClearByPkgName(pkgName)) =>
        if pkgName != "" && pkgName == After(before).value.core.config.pkgName then "" else CurrentPeer(before)
      case _ => CurrentPeer(before)
  }

  lemma StepSetsCurrent(s: Protocol, e: Event)
    requires Enabled(s, e)
    ensures Next(s, e).config.current ==
      match e
      case OnRequest(_, Begin(peer)) => peer
      case OnConfig(ClearByPkgName(pkgName)) =>
        if pkgName != "" && pkgName == s.config.pkgName then "" else s.config.current
      case _ => s.config.current
  {
  }

  lemma {:induction false} CurrentIsLatest(es: seq<Event>)
    requires After(es).Some?
    ensures After(es).value.core.config.current == CurrentPeer(es)
  {
    if es != [] {
      CurrentIsLatest(es[..|es| - 1]);
      StepSetsCurrent(After(es[..|es| - 1]).value.core, es[|es| - 1]);
    }
  }

  /** No other channel arrives and no package clears its configuration. */
  predicate KeepsCurrent(es: seq<Event>) {
    forall k | 0 <= k < |es| ::
      !(es[k].OnRequest? && es[k].request.Begin?) && !(es[k].OnConfig? && es[k].config.ClearByPkgName?)
  }

  /** From the moment a channel of the peer arrives, the peer is the one that a gate asks for. */
  lemma {:induction false} ArrivingPeerIsCurrent(es: seq<Event>, id: Id, peer: Peer, quiet: seq<Event>)
    requires After(es + [OnRequest(id, Begin(peer))] + quiet).Some? && KeepsCurrent(quiet)
    ensures After(es + [OnRequest(id, Begin(peer))] + quiet).value.core.config.current == peer
    ensures peer != ""
  {
    var begun := es + [OnRequest(id, Begin(peer))];
    if quiet == [] {
      assert begun + quiet == begun;
      AfterOneMore(es, OnRequest(id, Begin(peer)));
    } else {
      var n := |quiet| - 1;
      assert begun + quiet == begun + quiet[..n] + [quiet[n]];
      AfterOneMore(begun + quiet[..n], quiet[n]);
      ArrivingPeerIsCurrent(es, id, peer, quiet[..n]);
      StepSetsCurrent(After(begun + quiet[..n]).value.core, quiet[n]);
    }
  }

  /**
   * A gate whose first read falls there passes only if that peer is granted at its last read, and the grant
   * has a provenance.
   */
  lemma GateAsksForArrivingPeer(es: seq<Event>, id: Id, peer: Peer, quiet: seq<Event>,
                                all: seq<Event>, at: seq<Config>, times: seq<nat>)
    requires Moments(all, at, times) && KeepsCurrent(quiet)
    requires all[..times[0]] == es + [OnRequest(id, Begin(peer))] + quiet
    requires GatePasses(at)
    ensures var prefix := all[..times[4]]; var s := After(prefix).value;
      && IsGranted(s.core.config, peer)
      && exists i: nat ::
           && i < |s.log|
           && GrantedRightly(prefix, s, s.log[i], peer)
           && (forall j | i < j < |s.log| :: !Touches(s.log[j], peer))
  {
    assert times[0] <= |all|;
    ArrivingPeerIsCurrent(es, id, peer, quiet);
    GateNeedsAGrant(all, at, times);
  }

  // ----- Which answer is stored -----

  /** What an entry of the log leaves stored for the peer that it is about. */
  predicate LeavesStored(e: Entry, peer: Peer, c: Config) {
    match e
    case Allowed(_, _) => IsGranted(c, peer)
    case TimedOut(_, _) => HasDecision(c, peer) && !IsGranted(c, peer)
    case Resulted(_, _, granted, _) => HasDecision(c, peer) && (IsGranted(c, peer) <==> granted)
    case Forgot(_) => !HasDecision(c, peer)
    case ForgotAll => !HasDecision(c, peer)
  }

  lemma {:induction false} LastTouchDecides(log: seq<Entry>, i: nat, peer: Peer, c: Config)
    requires i < |log| && Touches(log[i], peer) && forall j | i < j < |log| :: !Touches(log[j], peer)
    requires c.results == Replay(log)
    ensures LeavesStored(log[i], peer, c)
  {
    var n := |log| - 1;
    if i < n {
      LastTouchDecides(log[..n], i, peer, c.(results := Replay(log[..n])));
      assert log[..n][i] == log[i];
    }
  }

  /** In every run the decision for a peer is what the last entry that touches the peer says. */
  lemma LastEntryIsStored(es: seq<Event>, i: nat, peer: Peer)
    requires After(es).Some? && i < |After(es).value.log|
    requires Touches(After(es).value.log[i], peer)
    requires forall j | i < j < |After(es).value.log| :: !Touches(After(es).value.log[j], peer)
    ensures LeavesStored(After(es).value.log[i], peer, After(es).value.core.config)
  {
    RunsKeepInvariant(es);
    LastTouchDecides(After(es).value.log, i, peer, After(es).value.core.config);
  }

  /** So a peer is granted exactly if a grant of it is in the log and nothing after touches the peer. */
  lemma {:induction false} GrantedExactly(es: seq<Event>, peer: Peer)
    requires After(es).Some?
    ensures var s := After(es).value;
      IsGranted(s.core.config, peer) <==>
        exists i: nat :: i < |s.log| && Grants(s.log[i], peer) && forall j | i < j < |s.log| :: !Touches(s.log[j], peer)
  {
    var s := After(es).value;
    RunsKeepInvariant(es);
    if IsGranted(s.core.config, peer) {
      var i := GrantIsLastWord(s.log, peer);
    }
    if i: nat :| i < |s.log| && Grants(s.log[i], peer) && forall j | i < j < |s.log| :: !Touches(s.log[j], peer) {
      LastEntryIsStored(es, i, peer);
    }
  }

  /** Every call carries the request id and the answer with which it was made. */
  lemma {:induction false} CallsWereMade(es: seq<Event>, c: nat)
    requires After(es).Some? && c in After(es).value.core.calls
    ensures var call := After(es).value.core.calls[c]; OnCall(c, Enter(call.id, call.granted)) in es
  {
    var n := |es| - 1;
    var s := After(es[..n]).value;
    if c in s.core.calls {
      CallsWereMade(es[..n], c);
      CallsStay(s, es[n], c);
      assert forall e | e in es[..n] :: e in es;
    } else {
      assert es[n] in es;
    }
  }

  /** A stored result is the answer of a call that was made for that request. */
  lemma ResultsWereGiven(es: seq<Event>, i: nat)
    requires After(es).Some? && i < |After(es).value.log| && After(es).value.log[i].Resulted?
    ensures var e := After(es).value.log[i]; OnCall(e.call, Enter(e.id, e.granted)) in es
  {
    RunsKeepInvariant(es);
    assert EntryIsRight(After(es).value, After(es).value.log[i]);
    CallsWereMade(es, After(es).value.log[i].call);
  }

  /** What each storing and forgetting step leaves for a gate to see. */
  lemma StoringIsSeen(es: seq<Event>, e: Event, peer: Peer)
    requires After(es).Some? && Enabled(After(es).value.core, e)
    ensures var s := After(es).value.core; var c := After(es + [e]).value.core.config;
      && (e.OnCall? && e.call.Store? && s.calls[e.c].step.peer == peer ==>
            HasDecision(c, peer) && (IsGranted(c, peer) <==> s.calls[e.c].granted))
      && (e.OnTimer? && e.timer.TimeoutStore? && s.timers[e.id].peer == peer ==>
            HasDecision(c, peer) && !IsGranted(c, peer))
      && (e.OnRequest? && e.request.Allow? && s.requesters[e.id].peer == peer ==> IsGranted(c, peer))
      && (e == OnConfig(Forget(peer)) || e == OnConfig(Clear) ==> !HasDecision(c, peer))
      && (e.OnConfig? && e.config.ClearByPkgName? && e.config.pkgName != "" ==> !HasDecision(c, peer))
  {
    AfterOneMore(es, e);
  }

  // ----- Who is let in by default -----

  lemma DefaultStays(s: System, e: Event, id: Id)
    requires Enabled(s.core, e) && (ByDefault(s, id) || UnconfiguredAt(s.core.config, e, id))
    ensures ByDefault(Step(s, e), id)
  {
    var q := Step(s, e);
    if k :| 0 <= k < |s.log| && s.log[k].Allowed? && s.log[k].id == id {
      assert q.log[k] == s.log[k];
    } else if e == OnRequest(id, Allow) {
      assert q.log[|s.log|].Allowed?;
    }
  }

  lemma {:induction false} AskedNowOrBefore(es: seq<Event>, id: Id)
    requires After(es).Some? && AskedUnconfigured(es, id)
    ensures es != []
    ensures var n := |es| - 1;
      AskedUnconfigured(es[..n], id) || UnconfiguredAt(After(es[..n]).value.core.config, es[n], id)
  {
    var k: nat :| AskedAt(es, k, id);
    if k + 1 < |es| {
      AskedAtOnward(es, k, id);
    }
  }

  /** A requester is let in by default exactly if it found no listener, or no package, when it looked. */
  lemma {:induction false} DefaultExactly(es: seq<Event>, id: Id)
    requires After(es).Some?
    ensures ByDefault(After(es).value, id) <==> AskedUnconfigured(es, id)
  {
    if ByDefault(After(es).value, id) {
      DefaultsWereUnconfigured(es, id);
    }
    if AskedUnconfigured(es, id) {
      AskedNowOrBefore(es, id);
      DefaultExactly(es[..|es| - 1], id);
      DefaultStays(After(es[..|es| - 1]).value, es[|es| - 1], id);
    }
  }

  // ----- Everyone is answered -----

  /** The requester is on its way, was let in by default, or has a request with an owner. */
  predicate IsServed(s: System, id: Id) {
    id in s.core.requesters ==>
      || s.core.requesters[id].step in {AskListener, AskPackage, ToRegister}
      || ByDefault(s, id)
      || id in s.owner
  }

  lemma ServedStays(s: System, e: Event, id: Id)
    requires Enabled(s.core, e) && IsServed(s, id)
    ensures IsServed(Step(s, e), id)
  {
    if ByDefault(s, id) {
      DefaultStays(s, e, id);
    }
  }

  lemma {:induction false} AllAreServed(es: seq<Event>, id: Id)
    requires After(es).Some?
    ensures IsServed(After(es).value, id)
  {
    if es != [] {
      AllAreServed(es[..|es| - 1], id);
      ServedStays(After(es[..|es| - 1]).value, es[|es| - 1], id);
    }
  }

  /** When everyone has come to rest, each channel that arrived was let in by default or decided. */
  lemma EveryoneIsAnswered(es: seq<Event>, k: nat, id: Id, peer: Peer)
    requires After(es).Some? && Quiescent(After(es).value.core)
    requires k < |es| && es[k] == OnRequest(id, Begin(peer))
    ensures var log := After(es).value.log;
      DecidedIn(log, id) || exists i :: 0 <= i < |log| && log[i].Allowed? && log[i].id == id
  {
    RunsKeepInvariant(es);
    AllAreServed(es, id);
    RequestersKeepTheirPeer(es, k, id, peer);
    var s := After(es).value;
    if id in s.owner {
      assert Tidy(s, id) && OwnerIsRight(s, id);
      assert s.core.tables.pending == map[] by {
        NothingIsLeftBehind(es);
      }
      assert s.owner[id] == Decided;
    }
  }

  /** Nobody clears the configuration. */
  predicate KeepsConfig(es: seq<Event>) {
    forall k | 0 <= k < |es| :: !(es[k].OnConfig? && (es[k].config.Clear? || es[k].config.ClearByPkgName?))
  }

  predicate IsConfigured(c: Config) {
    c.listener && c.pkgName != ""
  }

  lemma ConfigurationStays(s: Protocol, e: Event)
    requires Enabled(s, e)
    requires IsConfigured(s.config) && KeepsConfig([e])
    ensures IsConfigured(Next(s, e).config)
  {
    assert [e][0] == e;
  }

  /** From a configuration with a package on, until it is cleared, whoever looks has to ask the listener. */
  lemma {:induction false} ConfiguredMeansAsking(es: seq<Event>, timeOut: int, pkgName: string, quiet: seq<Event>,
                                                 e: Event, id: Id)
    requires pkgName != "" && KeepsConfig(quiet)
    requires After(es + [OnConfig(Configure(timeOut, pkgName))] + quiet).Some?
    ensures var c := After(es + [OnConfig(Configure(timeOut, pkgName))] + quiet).value.core.config;
      IsConfigured(c) && !UnconfiguredAt(c, e, id)
  {
    var configured := es + [OnConfig(Configure(timeOut, pkgName))];
    if quiet == [] {
      assert configured + quiet == configured;
      AfterOneMore(es, OnConfig(Configure(timeOut, pkgName)));
    } else {
      var n := |quiet| - 1;
      assert configured + quiet == configured + quiet[..n] + [quiet[n]];
      AfterOneMore(configured + quiet[..n], quiet[n]);
      ConfiguredMeansAsking(es, timeOut, pkgName, quiet[..n], e, id);
      ConfigurationStays(After(configured + quiet[..n]).value.core, quiet[n]);
    }
  }

  // ----- An answer in time stops the timer -----

  /** The timer is over, or it sleeps and will find its flag raised. */
  predicate IsStopped(p: Protocol, id: Id) {
    && id in p.timers
    && (p.timers[id].Removing? || p.timers[id].Over?
        || (p.timers[id].Sleeping? && id in p.tables.flags && p.tables.flags[id]))
  }

  lemma StoppedStays(s: System, e: Event, id: Id)
    requires OwnerIsRight(s, id) && Enabled(s.core, e) && IsStopped(s.core, id)
    ensures IsStopped(Next(s.core, e), id)
  {
  }

  lemma StoppedIsSilent(s: Protocol, e: Event, id: Id)
    requires Enabled(s, e) && IsStopped(s, id)
    ensures forall x <- Appended(s, e) :: !(x.TimedOut? && x.id == id)
  {
  }

  /**
   * Once a result call has raised the flag of a sleeping timer, the timer never times the request out,
   * whatever else happens.
   */
  lemma {:induction false} AnswerInTimeStopsTimer(es: seq<Event>, c: nat, id: Id, more: seq<Event>)
    requires After(es).Some? && id in After(es).value.core.timers && After(es).value.core.timers[id].Sleeping?
    requires c in After(es).value.core.calls && After(es).value.core.calls[c].id == id
    requires After(es + [OnCall(c, Cancel)] + more).Some?
    ensures var s := After(es + [OnCall(c, Cancel)] + more).value;
      && IsStopped(s.core, id)
      && |After(es).value.log| <= |s.log|
      && forall k | |After(es).value.log| <= k < |s.log| :: !(s.log[k].TimedOut? && s.log[k].id == id)
  {
    var cancelled := es + [OnCall(c, Cancel)];
    if more == [] {
      assert cancelled + more == cancelled;
      AfterOneMore(es, OnCall(c, Cancel));
      RunsKeepInvariant(es);
      assert Tidy(After(es).value, id);
    } else {
      var n := |more| - 1;
      assert cancelled + more == cancelled + more[..n] + [more[n]];
      AfterOneMore(cancelled + more[..n], more[n]);
      AnswerInTimeStopsTimer(es, c, id, more[..n]);
      RunsKeepInvariant(cancelled + more[..n]);
      assert OwnerIsRight(After(cancelled + more[..n]).value, id);
      StoppedStays(After(cancelled + more[..n]).value, more[n], id);
      StoppedIsSilent(After(cancelled + more[..n]).value.core, more[n], id);
    }
  }
}
