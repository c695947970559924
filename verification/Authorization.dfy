/**
 * The authorization protocol.  For each incoming channel a requester asks the access listener; a
 * detached timer and the listener's result calls race to decide.  Every locked region is one step,
 * and any number of requests, timers, calls and configuration changes interleave.
 */
module Authorization {
  import opened Common
  import opened AccessConfig
  import opened AuthorizationTables

  // ----- The actors between their steps -----

  datatype RequesterStep =
    | AskListener | AskPackage | AllowByDefault | ToRegister | ToCancelOld | ToArm | ToNotify | Returned

  datatype Requester = Requester(peer: Peer, step: RequesterStep)

  datatype Timer = Sleeping | Fired | TimingOut(peer: Peer) | Removing | Over

  datatype CallStep = Cancelling | Taking | Holding(peer: Peer) | Answered

  /** A call of `ProcessAuthorizationResult`, with any request id. */
  datatype Call = Call(id: Id, granted: bool, step: CallStep)

  /** Tables, configuration, and every actor's progress. */
  datatype Protocol = Protocol(
    tables: Tables,
    config: Config,
    requesters: map<Id, Requester>,
    timers: map<Id, Timer>,
    calls: map<nat, Call>)

  /** The steps of a requester, in a channel-opened callback. */
  datatype RequestEvent =
    | Begin(peer: Peer) | ReadListener | ReadPackage | Allow | Register | CancelOld | Arm | Notify

  datatype TimerEvent = Expire | TimeoutTake | TimeoutStore | End

  datatype CallEvent = Enter(id: Id, granted: bool) | Cancel | Take | Store

  datatype ConfigEvent =
    | Configure(timeOut: int, pkgName: string) | Clear | ClearByPkgName(pkgName: string) | Forget(peer: Peer)

  datatype Event =
    | OnRequest(id: Id, request: RequestEvent)
    | OnTimer(id: Id, timer: TimerEvent)
    | OnCall(c: nat, call: CallEvent)
    | OnConfig(config: ConfigEvent)

  /** Ids are fresh, and a channel without a peer id is turned away before it asks. */
  predicate RequestEnabled(s: Protocol, id: Id, e: RequestEvent) {
    if e.Begin? then
      id !in s.requesters && e.peer != ""
    else
      && id in s.requesters
      && s.requesters[id].step == match e
        case ReadListener => AskListener
        case ReadPackage => AskPackage
        case Allow => AllowByDefault
        case Register => ToRegister
        case CancelOld => ToCancelOld
        case Arm => ToArm
        case _ => ToNotify
  }

  predicate TimerEnabled(s: Protocol, id: Id, e: TimerEvent) {
    && id in s.timers
    && match e
       case Expire => s.timers[id].Sleeping?
       case TimeoutTake => s.timers[id].Fired?
       case TimeoutStore => s.timers[id].TimingOut?
       case End => s.timers[id].Removing?
  }

  predicate CallEnabled(s: Protocol, c: nat, e: CallEvent) {
    if e.Enter? then
      c !in s.calls
    else
      && c in s.calls
      && match e
         case Cancel => s.calls[c].step.Cancelling?
         case Take => s.calls[c].step.Taking?
         case _ => s.calls[c].step.Holding?
  }

  predicate Enabled(s: Protocol, e: Event) {
    match e
    case OnRequest(id, r) => RequestEnabled(s, id, r)
    case OnTimer(id, t) => TimerEnabled(s, id, t)
    case OnCall(c, x) => CallEnabled(s, c, x)
    case OnConfig(_) => true
  }

  function Move(s: Protocol, id: Id, step: RequesterStep): map<Id, Requester>
    requires id in s.requesters
  {
    s.requesters[id := s.requesters[id].(step := step)]
  }

  function RequestNext(s: Protocol, id: Id, e: RequestEvent): Protocol
    requires RequestEnabled(s, id, e)
  {
    match e
    case Begin(peer) =>
      s.(config := s.config.(current := peer), requesters := s.requesters[id := Requester(peer, AskListener)])
    case ReadListener =>
      s.(requesters := Move(s, id, if s.config.listener then AskPackage else AllowByDefault))
    case ReadPackage =>
      s.(requesters := Move(s, id, if s.config.pkgName == "" then AllowByDefault else ToRegister))
    case Allow =>
      var peer := s.requesters[id].peer;
      s.(config := Stored(s.config, peer, true), requesters := Move(s, id, Returned))
    case Register =>
      s.(tables := Registered(s.tables, id, s.requesters[id].peer), requesters := Move(s, id, ToCancelOld))
    case CancelOld =>
      s.(tables := Cancelled(s.tables, id), requesters := Move(s, id, ToArm))
    case Arm =>
      s.(tables := Armed(s.tables, id), requesters := Move(s, id, ToNotify), timers := s.timers[id := Sleeping])
    case Notify =>
      s.(requesters := Move(s, id, Returned))
  }

  function TimerNext(s: Protocol, id: Id, e: TimerEvent): Protocol
    requires TimerEnabled(s, id, e)
  {
    match e
    case Expire =>
      var (t, shouldTimeout) := Expired(s.tables, id);
      s.(tables := t, timers := s.timers[id := if shouldTimeout then Fired else Removing])
    case TimeoutTake =>
      var (t, peer) := Taken(s.tables, id);
      if peer == "" then
        s.(tables := t, timers := s.timers[id := Removing])
      else
        s.(tables := t, timers := s.timers[id := TimingOut(peer)])
    case TimeoutStore =>
      var peer := s.timers[id].peer;
      s.(config := Stored(s.config, peer, false), timers := s.timers[id := Removing])
    case End =>
      s.(tables := Ended(s.tables, id), timers := s.timers[id := Over])
  }

  function MoveCall(s: Protocol, c: nat, step: CallStep): map<nat, Call>
    requires c in s.calls
  {
    s.calls[c := s.calls[c].(step := step)]
  }

  function CallNext(s: Protocol, c: nat, e: CallEvent): Protocol
    requires CallEnabled(s, c, e)
  {
    match e
    case Enter(id, granted) =>
      s.(calls := s.calls[c := Call(id, granted, Cancelling)])
    case Cancel =>
      s.(tables := Cancelled(s.tables, s.calls[c].id), calls := MoveCall(s, c, Taking))
    case Take =>
      var id := s.calls[c].id;
      var (t, peer) := Taken(s.tables, id);
      if peer == "" then
        s.(tables := t, calls := MoveCall(s, c, Answered))
      else
        s.(tables := t, calls := MoveCall(s, c, Holding(peer)))
    case Store =>
      var call := s.calls[c];
      var peer := call.step.peer;
      s.(config := Stored(s.config, peer, call.granted), calls := MoveCall(s, c, Answered))
  }

  function ConfigNext(s: Protocol, e: ConfigEvent): Protocol {
    match e
    case Configure(timeOut, pkgName) => s.(config := Configured(s.config, true, timeOut, pkgName).0)
    case Clear => s.(config := Cleared(s.config))
    case ClearByPkgName(pkgName) =>
      s.(config := ClearedByPkgName(s.config, pkgName))
    case Forget(peer) => s.(config := Forgotten(s.config, peer))
  }

  function Next(s: Protocol, e: Event): Protocol
    requires Enabled(s, e)
  {
    match e
    case OnRequest(id, r) => RequestNext(s, id, r)
    case OnTimer(id, t) => TimerNext(s, id, t)
    case OnCall(c, x) => CallNext(s, c, x)
    case OnConfig(x) => ConfigNext(s, x)
  }

  // ----- The history of a run -----

  /** What was stored and forgotten. */
  datatype Entry =
    | Allowed(id: Id, peer: Peer)
    | TimedOut(id: Id, peer: Peer)
    | Resulted(id: Id, peer: Peer, granted: bool, call: nat)
    | Forgot(peer: Peer)
    | ForgotAll

  /** Who has the right to decide a registered request. */
  datatype Owner = InTable | WithTimer | WithCall(call: nat) | Decided

  /** The entries that a step appends to the log. */
  function Appended(s: Protocol, e: Event): seq<Entry>
    requires Enabled(s, e)
  {
    match e
    case OnRequest(id, Allow) => [Allowed(id, s.requesters[id].peer)]
    case OnTimer(id, TimeoutStore) => [TimedOut(id, s.timers[id].peer)]
    case OnCall(c, Store) => [Resulted(s.calls[c].id, s.calls[c].step.peer, s.calls[c].granted, c)]
    case OnConfig(Clear) => [ForgotAll]
    case OnConfig(ClearByPkgName(pkgName)) => if pkgName == "" then [] else [ForgotAll]
    case OnConfig(Forget(peer)) => [Forgot(peer)]
    case _ => []
  }

  /** How a step passes the right to decide on. */
  function PassedOn(s: Protocol, e: Event, owner: map<Id, Owner>): map<Id, Owner>
    requires Enabled(s, e)
  {
    match e
    case OnRequest(id, Register) => owner[id := InTable]
    case OnTimer(id, TimeoutTake) => if Taken(s.tables, id).1 == "" then owner else owner[id := WithTimer]
    case OnTimer(id, TimeoutStore) => owner[id := Decided]
    case OnCall(c, Take) =>
      if Taken(s.tables, s.calls[c].id).1 == "" then owner else owner[s.calls[c].id := WithCall(c)]
    case OnCall(c, Store) => owner[s.calls[c].id := Decided]
    case _ => owner
  }

  /** The protocol and its history, at which no step of the protocol looks. */
  datatype System = System(core: Protocol, owner: map<Id, Owner>, log: seq<Entry>)

  const START := System(Protocol(EMPTY, INITIAL, map[], map[], map[]), map[], [])

  function Step(s: System, e: Event): System
    requires Enabled(s.core, e)
  {
    System(Next(s.core, e), PassedOn(s.core, e, s.owner), s.log + Appended(s.core, e))
  }

  function After(es: seq<Event>): Option<System> {
    if es == [] then
      Some(START)
    else
      match After(es[..|es| - 1])
      case None => None
      case Some(s) => if Enabled(s.core, es[|es| - 1]) then Some(Step(s, es[|es| - 1])) else None
  }

  // ----- One right to decide for each request -----

  predicate Owns(s: System, id: Id, owner: Owner) {
    id in s.owner && s.owner[id] == owner
  }

  predicate HasAsked(s: System, id: Id) {
    id in s.core.requesters && s.core.requesters[id].step in {ToCancelOld, ToArm, ToNotify, Returned}
  }

  /** The recorded owner of a request is where its right to decide really is. */
  predicate OwnerIsRight(s: System, id: Id) {
    && (id in s.core.requesters ==> s.core.requesters[id].peer != "")
    && (id in s.owner ==> HasAsked(s, id))
    && (id in s.core.requesters && s.core.requesters[id].step in {ToCancelOld, ToArm, ToNotify} ==> id in s.owner)
    && (id in s.core.tables.pending <==> Owns(s, id, InTable))
    && (id in s.core.tables.pending ==> s.core.tables.pending[id] == s.core.requesters[id].peer)
    && (id in s.core.timers ==> id in s.owner && s.core.requesters[id].step in {ToNotify, Returned})
    && (Owns(s, id, WithTimer) <==> id in s.core.timers && s.core.timers[id].TimingOut?)
    && (Owns(s, id, WithTimer) ==> s.core.timers[id].peer == s.core.requesters[id].peer)
    && (id in s.owner && s.owner[id].WithCall? ==>
          var c := s.owner[id].call; c in s.core.calls && s.core.calls[c].step.Holding? && s.core.calls[c].id == id)
  }

  predicate CallIsOwner(s: System, c: nat) {
    c in s.core.calls && s.core.calls[c].step.Holding? ==>
      var id := s.core.calls[c].id;
      Owns(s, id, WithCall(c)) && id in s.core.requesters && s.core.calls[c].step.peer == s.core.requesters[id].peer
  }

  ghost predicate OneOwner(s: System) {
    && (forall id :: OwnerIsRight(s, id))
    && (forall c :: CallIsOwner(s, c))
  }

  lemma RequestKeepsOneOwner(s: System, id: Id, e: RequestEvent)
    requires OneOwner(s) && RequestEnabled(s.core, id, e)
    ensures OneOwner(Step(s, OnRequest(id, e)))
  {
    var q := Step(s, OnRequest(id, e));
    forall x ensures OwnerIsRight(q, x) {
      assert OwnerIsRight(s, x) && OwnerIsRight(s, id);
    }
    forall c ensures CallIsOwner(q, c) {
      assert CallIsOwner(s, c) && OwnerIsRight(s, id);
    }
  }

  lemma TimerKeepsOneOwner(s: System, id: Id, e: TimerEvent)
    requires OneOwner(s) && TimerEnabled(s.core, id, e)
    ensures OneOwner(Step(s, OnTimer(id, e)))
  {
    var q := Step(s, OnTimer(id, e));
    forall x ensures OwnerIsRight(q, x) {
      assert OwnerIsRight(s, x) && OwnerIsRight(s, id);
    }
    forall c ensures CallIsOwner(q, c) {
      assert CallIsOwner(s, c) && OwnerIsRight(s, id);
    }
  }

  lemma CallKeepsOneOwner(s: System, c: nat, e: CallEvent)
    requires OneOwner(s) && CallEnabled(s.core, c, e)
    ensures OneOwner(Step(s, OnCall(c, e)))
  {
    var q := Step(s, OnCall(c, e));
    assert CallIsOwner(s, c);
    forall x ensures OwnerIsRight(q, x) {
      assert OwnerIsRight(s, x);
    }
    forall d ensures CallIsOwner(q, d) {
      assert CallIsOwner(s, d);
      assert c in s.core.calls ==> OwnerIsRight(s, s.core.calls[c].id);
    }
  }

  // ----- One decision for each request -----

  /** The log entry is a decision, by timer or by result, about the request. */
  predicate Decides(e: Entry, id: Id) {
    (e.TimedOut? || e.Resulted?) && e.id == id
  }

  predicate IsFor(s: System, id: Id, peer: Peer) {
    id in s.core.requesters && s.core.requesters[id].peer == peer
  }

  /** A decision names the peer of its request, whose right it used up; a result is what its call said. */
  predicate EntryIsRight(s: System, e: Entry) {
    match e
    case TimedOut(id, peer) => Owns(s, id, Decided) && IsFor(s, id, peer)
    case Resulted(id, peer, granted, c) =>
      && Owns(s, id, Decided) && IsFor(s, id, peer)
      && c in s.core.calls && s.core.calls[c].id == id && s.core.calls[c].granted == granted
    case Allowed(id, peer) => IsFor(s, id, peer)
    case _ => true
  }

  ghost predicate DecidedIn(log: seq<Entry>, id: Id) {
    exists i :: 0 <= i < |log| && Decides(log[i], id)
  }

  ghost predicate LogIsRight(s: System) {
    && (forall e <- s.log :: EntryIsRight(s, e))
    && (forall i, j, id | 0 <= i < j < |s.log| && Decides(s.log[i], id) :: !Decides(s.log[j], id))
    && (forall id | Owns(s, id, Decided) :: DecidedIn(s.log, id))
  }

  lemma PeersStay(s: System, e: Event, id: Id)
    requires Enabled(s.core, e) && id in s.core.requesters
    ensures IsFor(Step(s, e), id, s.core.requesters[id].peer)
  {
  }

  lemma CallsStay(s: System, e: Event, c: nat)
    requires Enabled(s.core, e) && c in s.core.calls
    ensures var calls := Step(s, e).core.calls;
      c in calls && calls[c].id == s.core.calls[c].id && calls[c].granted == s.core.calls[c].granted
  {
  }

  lemma DecidedStays(s: System, e: Event, id: Id)
    requires OneOwner(s) && Enabled(s.core, e) && Owns(s, id, Decided)
    ensures Owns(Step(s, e), id, Decided)
  {
    assert OwnerIsRight(s, id);
  }

  lemma EntryStaysRight(s: System, e: Event, entry: Entry)
    requires OneOwner(s) && Enabled(s.core, e) && EntryIsRight(s, entry)
    ensures EntryIsRight(Step(s, e), entry)
  {
    match entry
    case TimedOut(id, _) =>
      PeersStay(s, e, id);
      DecidedStays(s, e, id);
    case Resulted(id, _, _, c) =>
      PeersStay(s, e, id);
      DecidedStays(s, e, id);
      CallsStay(s, e, c);
    case Allowed(id, _) => PeersStay(s, e, id);
    case _ =>
  }

  /** What a step appends to the log is right, and decides only a request whose right it uses up. */
  predicate AppendedIsRight(s: System, e: Event)
    requires Enabled(s.core, e)
  {
    var q, added := Step(s, e), Appended(s.core, e);
    && q.log == s.log + added
    && |added| <= 1
    && (added != [] ==> EntryIsRight(q, added[0]))
  }

  /** The request that a step decides, if it decides one. */
  function DecidedBy(s: Protocol, e: Event): Option<Id>
    requires Enabled(s, e)
  {
    match e
    case OnTimer(id, TimeoutStore) => Some(id)
    case OnCall(c, Store) => Some(s.calls[c].id)
    case _ => None
  }

  lemma NewEntryIsRight(s: System, e: Event)
    requires OneOwner(s) && Enabled(s.core, e)
    ensures AppendedIsRight(s, e)
  {
    match e
    case OnRequest(id, _) => assert OwnerIsRight(s, id);
    case OnTimer(id, _) => assert OwnerIsRight(s, id);
    case OnCall(c, _) => assert CallIsOwner(s, c);
    case OnConfig(_) =>
  }

  lemma OnlyDecidingUsesUpTheRight(s: System, e: Event, id: Id)
    requires OneOwner(s) && Enabled(s.core, e)
    ensures Owns(Step(s, e), id, Decided) <==> Owns(s, id, Decided) || DecidedBy(s.core, e) == Some(id)
  {
    assert OwnerIsRight(s, id);
  }

  lemma DecidingIsLogged(s: System, e: Event, id: Id)
    requires OneOwner(s) && Enabled(s.core, e)
    ensures DecidedBy(s.core, e) == Some(id) <==> Appended(s.core, e) != [] && Decides(Appended(s.core, e)[0], id)
    ensures DecidedBy(s.core, e) == Some(id) ==> !Owns(s, id, Decided)
  {
    assert OwnerIsRight(s, id);
    match e
    case OnCall(c, _) => assert CallIsOwner(s, c);
    case _ =>
  }

  lemma StepKeepsLogRight(s: System, e: Event)
    requires OneOwner(s) && LogIsRight(s) && Enabled(s.core, e)
    ensures LogIsRight(Step(s, e))
  {
    var q, added := Step(s, e), Appended(s.core, e);
    NewEntryIsRight(s, e);
    forall x <- q.log ensures EntryIsRight(q, x) {
      if x in s.log {
        EntryStaysRight(s, e, x);
      }
    }
    forall i, j, id | 0 <= i < j < |q.log| && Decides(q.log[i], id) ensures !Decides(q.log[j], id) {
      DecidingIsLogged(s, e, id);
      assert i < |s.log| && q.log[i] == s.log[i];
      assert EntryIsRight(s, s.log[i]);
    }
    forall id | Owns(q, id, Decided) ensures DecidedIn(q.log, id) {
      OnlyDecidingUsesUpTheRight(s, e, id);
      DecidingIsLogged(s, e, id);
      if Owns(s, id, Decided) {
        var i :| 0 <= i < |s.log| && Decides(s.log[i], id);
        assert Decides(q.log[i], id);
      } else {
        assert Decides(q.log[|s.log|], id);
      }
    }
  }
}
