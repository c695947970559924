/**
 * Runs of the session table, one operation after the other.  With peer ids that have no underscore
 * the string-keyed table behaves as a table of (session name, peer) pairs.
 */
module SessionIsolation {
  import opened Common
  import opened SessionTable

  // ----- What one operation does to the lookup of any pair -----

  /** Opening sets its own pair's lookup to the new id, if it succeeds and the key is free, and no other. */
  lemma OpenIsLocal(t: Table, sessName: string, peerSessName: string, peer: string, socket: Socket, x: Pair)
    requires '_' !in peer && '_' !in x.peer
    ensures var t' := Opened(t, sessName, peerSessName, peer, socket);
      && t'.listeners == t.listeners
      && Lookup(t', x.session, x.peer) ==
           if x == Pair(sessName, peer)
              && OpenStatus(t, sessName, peerSessName, peer, socket) == Success
              && Key(sessName, peer) !in t.sessions
           then socket.id
           else Lookup(t, x.session, x.peer)
  {
    if Key(x.session, x.peer) == Key(sessName, peer) {
      KeysAreInjective(x.session, x.peer, sessName, peer);
    }
  }

  /** Closing (session, peer) removes that pair and leaves every other as it was. */
  lemma CloseIsLocal(t: Table, sessName: string, peer: string, x: Pair)
    requires '_' !in peer && '_' !in x.peer
    ensures Lookup(Closed(t, sessName, peer), x.session, x.peer)
         == if sessName != "" && peer != "" && x == Pair(sessName, peer) then -1 else Lookup(t, x.session, x.peer)
  {
    if Key(x.session, x.peer) == Key(sessName, peer) {
      KeysAreInjective(x.session, x.peer, sessName, peer);
    }
  }

  /** Listeners come and go for their own pair alone. */
  lemma ListeningIsLocal(t: Table, sessName: string, peer: string, x: Pair)
    requires '_' !in peer && '_' !in x.peer && sessName != "" && peer != ""
    ensures Key(x.session, x.peer) in Registered(t, sessName, peer).listeners <==>
      x == Pair(sessName, peer) || Key(x.session, x.peer) in t.listeners
    ensures Key(x.session, x.peer) in Unregistered(t, sessName, peer).listeners <==>
      x != Pair(sessName, peer) && Key(x.session, x.peer) in t.listeners
  {
    if Key(x.session, x.peer) == Key(sessName, peer) {
      KeysAreInjective(x.session, x.peer, sessName, peer);
    }
  }

  /** Without the condition on peers closing one pair closes another. */
  lemma UnderscoresCollide(t: Table, a: string, b: string, c: string)
    requires a != "" && c != ""
    ensures Lookup(Closed(t, a, b + "_" + c), a + "_" + b, c) == -1
    ensures Pair(a, b + "_" + c) != Pair(a + "_" + b, c)
  {
    assert Key(a, b + "_" + c) == Key(a + "_" + b, c);
    assert |a + "_" + b| > |a|;
  }

  lemma {:induction false} UnderscoreSplits(key: string)
    requires '_' in key
    ensures PeerOf(key).Some?
  {
    if key[|key| - 1] != '_' {
      assert key == key[..|key| - 1] + [key[|key| - 1]];
      UnderscoreSplits(key[..|key| - 1]);
    }
  }

  /** A pair shares its key with no other pair of a plain peer exactly if its own peer is plain. */
  lemma KeyIsOwnExactly(sessName: string, peer: string)
    ensures '_' !in peer <==>
      forall sessName', peer' | '_' !in peer' && Pair(sessName', peer') != Pair(sessName, peer) ::
        Key(sessName', peer') != Key(sessName, peer)
  {
    var key := Key(sessName, peer);
    if '_' in peer {
      assert key[|sessName|] == '_';
      UnderscoreSplits(key);
      var x := PairOf(key).value;
      assert Key(x.session, x.peer) == key && '_' !in x.peer;
    } else {
      forall sessName', peer' | '_' !in peer' && Key(sessName', peer') == key
        ensures Pair(sessName', peer') == Pair(sessName, peer)
      {
        KeysAreInjective(sessName', peer', sessName, peer);
      }
    }
  }

  /** A shutdown ends exactly the pairs that hold the session id. */
  lemma ShutDownIsExact(t: Table, id: int, x: Pair)
    requires id >= 0
    ensures Lookup(ShutDown(t, id), x.session, x.peer)
         == if Lookup(t, x.session, x.peer) == id then -1 else Lookup(t, x.session, x.peer)
  {}

  /** An incoming channel changes a pair exactly when the match on names reaches it or it is its own. */
  lemma IncomingChangesExactly(t: Table, sessName: string, peer: string, id: int, x: Pair)
    requires '_' !in peer && '_' !in x.peer && sessName != "" && peer != "" && id >= 0
    ensures
      var key := Key(x.session, x.peer);
      Lookup(Incoming(t, sessName, peer, id), x.session, x.peer) != Lookup(t, x.session, x.peer) <==>
        && Lookup(t, x.session, x.peer) != id
        && ((key in t.listeners && Contains(key, sessName)) || (x == Pair(sessName, peer) && key !in t.sessions))
    ensures
      var now := Lookup(Incoming(t, sessName, peer, id), x.session, x.peer);
      now == id || now == Lookup(t, x.session, x.peer)
  {
    if Key(x.session, x.peer) == Key(sessName, peer) {
      KeysAreInjective(x.session, x.peer, sessName, peer);
    }
  }

  /** So any two peers that listen on one session take each other's entry over. */
  lemma IncomingTakesOverOtherPeers(t: Table, sessName: string, peer: string, other: string, id: int)
    requires sessName != "" && peer != "" && Key(sessName, other) in t.listeners
    ensures Lookup(Incoming(t, sessName, peer, id), sessName, other) == id
  {
    assert OccursAt(Key(sessName, other), sessName, 0);
  }

  // ----- The table of pairs -----

  datatype PairTable = PairTable(sessions: map<Pair, int>, listeners: set<Pair>)

  datatype Event =
    | Register(sessName: string, peer: string)
    | Unregister(sessName: string, peer: string)
    | Open(sessName: string, peerSessName: string, peer: string, socket: Socket)
    | Close(sessName: string, peer: string)
    | Arrive(sessName: string, peer: string, id: int)
    | Shut(id: int)

  predicate Plain(e: Event) {
    e.Shut? || '_' !in e.peer
  }

  function Step(t: Table, e: Event): Table {
    match e
    case Register(s, p) => Registered(t, s, p)
    case Unregister(s, p) => Unregistered(t, s, p)
    case Open(s, ps, p, socket) => Opened(t, s, ps, p, socket)
    case Close(s, p) => Closed(t, s, p)
    case Arrive(s, p, id) => Incoming(t, s, p, id)
    case Shut(id) => ShutDown(t, id)
  }

  function After(es: seq<Event>): Table {
    if es == [] then Table(map[], {}) else Step(After(es[..|es| - 1]), es[|es| - 1])
  }

  /** An arriving channel reaches a listening pair when its name occurs in the pair's key. */
  predicate ReachesPair(x: Pair, sessName: string) {
    Contains(Key(x.session, x.peer), sessName)
  }

  function PairStep(a: PairTable, e: Event): PairTable {
    if !e.Shut? && (e.sessName == "" || e.peer == "") then a else
    match e
    case Register(s, p) => a.(listeners := a.listeners + {Pair(s, p)})
    case Unregister(s, p) => a.(listeners := a.listeners - {Pair(s, p)})
    case Open(s, ps, p, socket) =>
      if ps == "" || (Pair(s, p) in a.sessions && a.sessions[Pair(s, p)] > 0) || socket.id < 0 || !socket.bound then a
      else a.(sessions := map[Pair(s, p) := socket.id] + a.sessions)
    case Close(s, p) => a.(sessions := a.sessions - {Pair(s, p)})
    case Arrive(s, p, id) =>
      a.(sessions := map[Pair(s, p) := id] + a.sessions + map x | x in a.listeners && ReachesPair(x, s) :: id)
    case Shut(id) => a.(sessions := map x | x in a.sessions && a.sessions[x] != id :: a.sessions[x])
  }

  function PairsAfter(es: seq<Event>): PairTable {
    if es == [] then PairTable(map[], {}) else PairStep(PairsAfter(es[..|es| - 1]), es[|es| - 1])
  }

  /** Every key is the key of a plain pair. */
  ghost predicate PlainKeys(t: Table) {
    && (forall k | k in t.sessions :: PairOf(k).Some?)
    && (forall k | k in t.listeners :: PairOf(k).Some?)
  }

  ghost predicate PlainPairs(a: PairTable) {
    && (forall x: Pair | x in a.sessions :: '_' !in x.peer)
    && (forall x: Pair | x in a.listeners :: '_' !in x.peer)
  }

  /** The string keys are exactly the keys of the pairs, with the same ids and listeners. */
  ghost predicate Encodes(t: Table, a: PairTable) {
    && PlainKeys(t)
    && PlainPairs(a)
    && forall x: Pair | '_' !in x.peer :: SameAt(t, a, x)
  }

  predicate SameAt(t: Table, a: PairTable, x: Pair) {
    var key := Key(x.session, x.peer);
    && (key in t.sessions <==> x in a.sessions)
    && (key in t.sessions ==> t.sessions[key] == a.sessions[x])
    && (key in t.listeners <==> x in a.listeners)
  }

  lemma StepKeepsSame(t: Table, a: PairTable, e: Event, x: Pair)
    requires Plain(e) && '_' !in x.peer && SameAt(t, a, x)
    requires e.Open? ==> SameAt(t, a, Pair(e.sessName, e.peer))
    ensures SameAt(Step(t, e), PairStep(a, e), x)
  {
    var key := Key(x.session, x.peer);
    if !e.Shut? && key == Key(e.sessName, e.peer) {
      KeysAreInjective(x.session, x.peer, e.sessName, e.peer);
    }
    match e
    case Open(s, ps, p, socket) => OpenKeepsSame(t, a, e, x);
    case Arrive(s, p, id) =>
      assert key in Reached(t.listeners, s) <==> x in a.listeners && ReachesPair(x, s);
    case _ =>
  }

  lemma OpenKeepsSame(t: Table, a: PairTable, e: Event, x: Pair)
    requires e.Open? && SameAt(t, a, x) && SameAt(t, a, Pair(e.sessName, e.peer))
    requires Key(x.session, x.peer) == Key(e.sessName, e.peer) ==> x == Pair(e.sessName, e.peer)
    ensures SameAt(Step(t, e), PairStep(a, e), x)
  {
    var own := Pair(e.sessName, e.peer);
    assert Lookup(t, e.sessName, e.peer) == if own in a.sessions then a.sessions[own] else -1;
  }

  lemma StepKeepsPlainKeys(t: Table, e: Event)
    requires PlainKeys(t) && Plain(e)
    ensures PlainKeys(Step(t, e))
  {
    if !e.Shut? {
      PairReadsBack(e.sessName, e.peer);
    }
  }

  lemma StepKeepsPlainPairs(a: PairTable, e: Event)
    requires PlainPairs(a) && Plain(e)
    ensures PlainPairs(PairStep(a, e))
  {}

  lemma StepKeepsEncoding(t: Table, a: PairTable, e: Event)
    requires Encodes(t, a) && Plain(e)
    ensures Encodes(Step(t, e), PairStep(a, e))
  {
    StepKeepsPlainKeys(t, e);
    StepKeepsPlainPairs(a, e);
    forall x: Pair | '_' !in x.peer ensures SameAt(Step(t, e), PairStep(a, e), x) {
      if !e.Shut? {
        assert SameAt(t, a, Pair(e.sessName, e.peer));
      }
      StepKeepsSame(t, a, e, x);
    }
  }

  /** In every run of plain peers the string-keyed table is the table of pairs. */
  lemma {:induction false} TableRefinesPairs(es: seq<Event>)
    requires forall e | e in es :: Plain(e)
    ensures Encodes(After(es), PairsAfter(es))
  {
    if es != [] {
      TableRefinesPairs(es[..|es| - 1]);
      StepKeepsEncoding(After(es[..|es| - 1]), PairsAfter(es[..|es| - 1]), es[|es| - 1]);
    }
  }

  /** The peer that a session id is traced back to is the peer of a pair holding the id. */
  lemma PeerOfASessionHoldsIt(es: seq<Event>, id: int, key: string)
    requires forall e | e in es :: Plain(e)
    requires NamesPeer(After(es), id, key)
    ensures PairOf(key).Some? && PairOf(key).value.peer == PeerOf(key).value
    ensures PairOf(key).value in PairsAfter(es).sessions && PairsAfter(es).sessions[PairOf(key).value] == id
  {
    TableRefinesPairs(es);
    assert SameAt(After(es), PairsAfter(es), PairOf(key).value);
  }

  // ----- Isolation over whole runs -----

  /** The events that may touch a pair: its own, arrivals whose name occurs in its key, and shutdowns. */
  predicate Concerns(e: Event, x: Pair) {
    || e.Shut?
    || x == Pair(e.sessName, e.peer)
    || (e.Arrive? && ReachesPair(x, e.sessName))
  }

  function OnlyConcerning(es: seq<Event>, x: Pair): seq<Event> {
    if es == [] then []
    else OnlyConcerning(es[..|es| - 1], x) + if Concerns(es[|es| - 1], x) then [es[|es| - 1]] else []
  }

  predicate AgreeAt(t: Table, t': Table, x: Pair) {
    var key := Key(x.session, x.peer);
    && (key in t.sessions <==> key in t'.sessions)
    && (key in t.sessions ==> t.sessions[key] == t'.sessions[key])
    && (key in t.listeners <==> key in t'.listeners)
  }

  lemma ConcerningStepKeepsAgreement(t: Table, t': Table, e: Event, x: Pair)
    requires AgreeAt(t, t', x) && Plain(e) && '_' !in x.peer
    requires Concerns(e, x)
    ensures AgreeAt(Step(t, e), Step(t', e), x)
  {
    if !e.Shut? && Key(x.session, x.peer) == Key(e.sessName, e.peer) {
      KeysAreInjective(x.session, x.peer, e.sessName, e.peer);
    }
  }

  lemma OtherStepKeepsAgreement(t: Table, t': Table, e: Event, x: Pair)
    requires AgreeAt(t, t', x) && Plain(e) && '_' !in x.peer
    requires !Concerns(e, x)
    ensures AgreeAt(Step(t, e), t', x)
  {
    if Key(x.session, x.peer) == Key(e.sessName, e.peer) {
      KeysAreInjective(x.session, x.peer, e.sessName, e.peer);
    }
  }

  /**
   * A pair's entry is the same as if nobody else had opened, closed, registered or unregistered
   * anything in the whole run.
   */
  lemma {:induction false} RunsAreIsolated(es: seq<Event>, x: Pair)
    requires forall e | e in es :: Plain(e)
    requires '_' !in x.peer
    ensures AgreeAt(After(es), After(OnlyConcerning(es, x)), x)
    ensures Lookup(After(es), x.session, x.peer) == Lookup(After(OnlyConcerning(es, x)), x.session, x.peer)
  {
    if es != [] {
      var before, e := es[..|es| - 1], es[|es| - 1];
      RunsAreIsolated(before, x);
      var t, t' := After(before), After(OnlyConcerning(before, x));
      if Concerns(e, x) {
        var kept := OnlyConcerning(es, x);
        assert kept[..|kept| - 1] == OnlyConcerning(before, x) && kept[|kept| - 1] == e;
        ConcerningStepKeepsAgreement(t, t', e, x);
      } else {
        assert OnlyConcerning(es, x) == OnlyConcerning(before, x);
        OtherStepKeepsAgreement(t, t', e, x);
      }
    }
  }
}
