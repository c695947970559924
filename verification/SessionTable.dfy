/**
 * The session table: session ids under string keys made of a session name and a peer device id.  It
 * behaves as a table of pairs as long as no peer id has an underscore.
 */
module SessionTable {
  import opened Common

  const AV_TRANS_SPECIAL_DEVICE_ID := "av.trans.special.device.id"

  // ----- Keys -----

  function Key(sessName: string, peerDevId: string): string {
    sessName + "_" + peerDevId
  }

  /** What follows the last underscore. */
  function PeerOf(key: string): Option<string> {
    if key == "" then None
    else if key[|key| - 1] == '_' then Some("")
    else match PeerOf(key[..|key| - 1])
      case None => None
      case Some(p) => Some(p + [key[|key| - 1]])
  }

  /** The peer of a key is read back exactly when it has no underscore. */
  lemma {:induction false} PeerReadsBack(sessName: string, peer: string)
    ensures PeerOf(Key(sessName, peer)) == Some(peer) <==> '_' !in peer
  {
    var key := Key(sessName, peer);
    if peer == "" {
      assert key[|key| - 1] == '_';
    } else {
      var n := |peer| - 1;
      PeerReadsBack(sessName, peer[..n]);
      assert key[..|key| - 1] == Key(sessName, peer[..n]) && key[|key| - 1] == peer[n];
      assert peer == peer[..n] + [peer[n]];
      PeerHasNoUnderscore(key[..|key| - 1]);
    }
  }

  lemma {:induction false} PeerHasNoUnderscore(key: string)
    ensures PeerOf(key).Some? ==> '_' !in PeerOf(key).value
  {
    if key != "" {
      PeerHasNoUnderscore(key[..|key| - 1]);
    }
  }

  /** Different pairs have different keys, if the peers have no underscore. */
  lemma KeysAreInjective(sessName: string, peer: string, sessName': string, peer': string)
    requires '_' !in peer && '_' !in peer' && Key(sessName, peer) == Key(sessName', peer')
    ensures sessName == sessName' && peer == peer'
  {
    PeerReadsBack(sessName, peer);
    PeerReadsBack(sessName', peer');
    var key := Key(sessName, peer);
    assert key[..|sessName|] == sessName && key[..|sessName'|] == sessName';
  }

  predicate OccursAt(key: string, name: string, i: nat) {
    i + |name| <= |key| && key[i..i + |name|] == name
  }

  predicate Contains(key: string, name: string) {
    exists i: nat | i <= |key| :: OccursAt(key, name, i)
  }

  datatype Pair = Pair(session: string, peer: string)

  /** The pair that a key was made of, if its peer has no underscore. */
  function PairOf(key: string): (r: Option<Pair>)
    ensures r.Some? ==> key == Key(r.value.session, r.value.peer) && '_' !in r.value.peer
  {
    match PeerOf(key)
    case None => None
    case Some(p) =>
      PeerIsASuffix(key);
      PeerHasNoUnderscore(key);
      Some(Pair(key[..|key| - |p| - 1], p))
  }

  lemma {:induction false} PeerIsASuffix(key: string)
    requires PeerOf(key).Some?
    ensures var p := PeerOf(key).value;
      |p| < |key| && key == key[..|key| - |p| - 1] + "_" + p
  {
    if key[|key| - 1] != '_' {
      PeerIsASuffix(key[..|key| - 1]);
      var p := PeerOf(key[..|key| - 1]).value;
      assert key == key[..|key| - 1] + [key[|key| - 1]];
      assert key[..|key| - 1][..|key| - 1 - |p| - 1] == key[..|key| - |p| - 2];
    }
  }

  /** Key and pair are inverse to each other, if the peer has no underscore. */
  lemma PairReadsBack(session: string, peer: string)
    requires '_' !in peer
    ensures PairOf(Key(session, peer)) == Some(Pair(session, peer))
  {
    PeerReadsBack(session, peer);
    KeysAreInjective(session, peer, PairOf(Key(session, peer)).value.session, peer);
  }

  /** A name occurs in a key exactly if the key is the name with something before and something after it. */
  lemma ContainsExactly(key: string, name: string)
    ensures Contains(key, name) <==> exists a: string, b: string :: key == a + name + b
  {
    if Contains(key, name) {
      var i: nat :| i <= |key| && OccursAt(key, name, i);
      assert key == key[..i] + name + key[i + |name|..];
    }
    if a: string, b: string :| key == a + name + b {
      assert OccursAt(key, name, |a|);
    }
  }

  // ----- The order of the keys in the table -----

  predicate Before(a: string, b: string) {
    b != "" && (a == "" || a[0] < b[0] || (a[0] == b[0] && Before(a[1..], b[1..])))
  }

  /** The keys first differ at k, where a ends or has the lesser character. */
  predicate LessAt(a: string, b: string, k: nat) {
    k <= |a| && k < |b| && a[..k] == b[..k] && (k == |a| || a[k] < b[k])
  }

  /** This is the ascending order of strings. */
  lemma {:induction false} BeforeIsAscending(a: string, b: string)
    ensures Before(a, b) <==> exists k: nat :: LessAt(a, b, k)
  {
    if a == "" || b == "" {
      assert b != "" ==> LessAt(a, b, 0);
    } else {
      assert a[0] < b[0] ==> LessAt(a, b, 0);
      BeforeIsAscending(a[1..], b[1..]);
      if k: nat :| LessAt(a[1..], b[1..], k) {
        assert a == [a[0]] + a[1..] && b == [b[0]] + b[1..];
        assert a[0] == b[0] ==> a[..k + 1] == b[..k + 1];
        assert a[0] == b[0] ==> LessAt(a, b, k + 1);
      }
      if k: nat :| LessAt(a, b, k) {
        if k > 0 {
          assert a[..k][0] == a[0] && b[..k][0] == b[0];
          assert a[1..][..k - 1] == a[..k][1..] && b[1..][..k - 1] == b[..k][1..];
          assert LessAt(a[1..], b[1..], k - 1);
        }
      }
    }
  }

  lemma {:induction false} BeforeIsTotal(a: string, b: string)
    ensures a == b || Before(a, b) || Before(b, a)
  {
    if a != "" && b != "" && a[0] == b[0] {
      BeforeIsTotal(a[1..], b[1..]);
      assert a == [a[0]] + a[1..] && b == [b[0]] + b[1..];
    }
  }

  lemma {:induction false} BeforeIsTransitive(a: string, b: string, c: string)
    requires Before(a, b) && Before(b, c)
    ensures Before(a, c)
  {
    if a != "" && a[0] == b[0] && b[0] == c[0] {
      BeforeIsTransitive(a[1..], b[1..], c[1..]);
    }
  }

  // ----- The table and its operations -----

  /** Session ids by key, and the keys that have a listener. */
  datatype Table = Table(sessions: map<string, int>, listeners: set<string>)

  function Lookup(t: Table, sessName: string, peer: string): int {
    if Key(sessName, peer) in t.sessions then t.sessions[Key(sessName, peer)] else -1
  }

  /** The answers of the socket layer to an attempt to open. */
  datatype Socket = Socket(id: int, bound: bool)

  function OpenStatus(t: Table, sessName: string, peerSessName: string, peer: string, socket: Socket): Status {
    if sessName == "" || peerSessName == "" || peer == "" then InvalidParam
    else if Lookup(t, sessName, peer) > 0 then SessionHasOpened
    else if socket.id < 0 || !socket.bound then SessionError
    else Success
  }

  /** Inserting leaves an entry alone that is already there. */
  function Inserted(sessions: map<string, int>, key: string, id: int): map<string, int> {
    if key in sessions then sessions else sessions[key := id]
  }

  function Opened(t: Table, sessName: string, peerSessName: string, peer: string, socket: Socket): Table {
    if OpenStatus(t, sessName, peerSessName, peer, socket) == Success then
      t.(sessions := Inserted(t.sessions, Key(sessName, peer), socket.id))
    else
      t
  }

  function Closed(t: Table, sessName: string, peer: string): Table {
    if sessName == "" || peer == "" then t else t.(sessions := t.sessions - {Key(sessName, peer)})
  }

  /** The keys with a listener that an incoming channel for the session reaches. */
  function Reached(keys: set<string>, sessName: string): set<string> {
    set k | k in keys && Contains(k, sessName)
  }

  function Overwritten(sessions: map<string, int>, keys: set<string>, id: int): map<string, int> {
    sessions + map k | k in keys :: id
  }

  lemma OverwriteOneMore(sessions: map<string, int>, keys: set<string>, key: string, name: string, id: int)
    ensures var before := Overwritten(sessions, Reached(keys, name), id);
      Overwritten(sessions, Reached(keys + {key}, name), id)
        == if Contains(key, name) then before[key := id] else before
  {
    assert Reached(keys + {key}, name) == Reached(keys, name) + if Contains(key, name) then {key} else {};
  }

  /** An incoming channel takes over every key that it reaches, and its own key if that is free. */
  function Incoming(t: Table, sessName: string, peer: string, id: int): Table {
    if sessName == "" || peer == "" then
      t
    else
      var overwritten := Overwritten(t.sessions, Reached(t.listeners, sessName), id);
      t.(sessions := Inserted(overwritten, Key(sessName, peer), id))
  }

  /** A shutdown removes the entries that hold the session id. */
  function ShutDown(t: Table, id: int): Table {
    t.(sessions := map k | k in t.sessions && t.sessions[k] != id :: t.sessions[k])
  }

  function Registered(t: Table, sessName: string, peer: string): Table {
    if sessName == "" || peer == "" then t else t.(listeners := t.listeners + {Key(sessName, peer)})
  }

  function Unregistered(t: Table, sessName: string, peer: string): Table {
    if sessName == "" || peer == "" then t else t.(listeners := t.listeners - {Key(sessName, peer)})
  }

  /** A key that names a real peer of the session. */
  predicate NamesPeer(t: Table, id: int, key: string) {
    && key in t.sessions
    && t.sessions[key] == id
    && PeerOf(key).Some?
    && PeerOf(key).value != AV_TRANS_SPECIAL_DEVICE_ID
  }

  /** The least such key. */
  ghost predicate IsFirst(t: Table, id: int, key: string) {
    NamesPeer(t, id, key) && forall x | NamesPeer(t, id, x) :: x == key || Before(key, x)
  }

  /** What a caller of `OpenSoftbusChannel` learns. */
  lemma OpenStatusExactly(t: Table, sessName: string, peerSessName: string, peer: string, socket: Socket)
    ensures var status := OpenStatus(t, sessName, peerSessName, peer, socket);
      var named := sessName != "" && peerSessName != "" && peer != "";
      && (status == InvalidParam <==> !named)
      && (status == SessionHasOpened <==> named && Lookup(t, sessName, peer) > 0)
      && (status == SessionError <==> named && Lookup(t, sessName, peer) <= 0 && (socket.id < 0 || !socket.bound))
      && (status == Success <==> named && Lookup(t, sessName, peer) <= 0 && socket.id >= 0 && socket.bound)
  {
  }

  /** A session id is traced to a pair exactly if the pair holds it and its peer is not the reserved one. */
  lemma TracedExactly(t: Table, id: int, sessName: string, peer: string)
    requires '_' !in peer && id >= 0
    ensures NamesPeer(t, id, Key(sessName, peer)) <==>
      Lookup(t, sessName, peer) == id && peer != "av.trans.special.device.id"
  {
    PeerReadsBack(sessName, peer);
  }

  /** The channel adapter's tables, in runs where one operation ends before the next begins. */
  class ChannelTables {
    var devId2SessIdMap: map<string, int>
    var listenerMap: set<string>

    function State(): Table
      reads this
    {
      Table(devId2SessIdMap, listenerMap)
    }

    constructor ()
      ensures State() == Table(map[], {})
    {
      devId2SessIdMap, listenerMap := map[], {};
    }

    method GetSessIdBySessName(sessName: string, peer: string) returns (id: int)
      ensures id == Lookup(State(), sessName, peer)
    {
      var idMapKey := sessName + "_" + peer;
      if idMapKey !in devId2SessIdMap {
        return -1;
      }
      return devId2SessIdMap[idMapKey];
    }

    method OpenSoftbusChannel(sessName: string, peerSessName: string, peer: string, socket: Socket)
      returns (status: Status)
      modifies this
      ensures status == OpenStatus(old(State()), sessName, peerSessName, peer, socket)
      ensures State() == Opened(old(State()), sessName, peerSessName, peer, socket)
    {
      if sessName == "" || peerSessName == "" || peer == "" {
        return InvalidParam;
      }
      var existSessId := GetSessIdBySessName(sessName, peer);
      if existSessId > 0 {
        return SessionHasOpened;
      }
      if socket.id < 0 {
        return SessionError;
      }
      if !socket.bound {
        return SessionError;
      }
      if sessName + "_" + peer !in devId2SessIdMap {
        devId2SessIdMap := devId2SessIdMap[sessName + "_" + peer := socket.id];
      }
      return Success;
    }

    /** `shut` is the session that is shut down, -1 if there is none to shut down. */
    method CloseSoftbusChannel(sessName: string, peer: string) returns (status: Status, shut: Option<int>)
      modifies this
      ensures State() == Closed(old(State()), sessName, peer)
      ensures status == if sessName == "" || peer == "" then InvalidParam else Success
      ensures shut == if status == Success then Some(Lookup(old(State()), sessName, peer)) else None
    {
      if sessName == "" || peer == "" {
        return InvalidParam, None;
      }
      var sessionId := GetSessIdBySessName(sessName, peer);
      devId2SessIdMap := devId2SessIdMap - {sessName + "_" + peer};
      return Success, Some(sessionId);
    }

    /** The listener itself is never null here: a null one is refused before the table is touched. */
    method RegisterChannelListener(sessName: string, peer: string) returns (status: Status)
      modifies this
      ensures State() == Registered(old(State()), sessName, peer)
      ensures status == if sessName == "" || peer == "" then InvalidParam else Success
    {
      if sessName == "" || peer == "" {
        return InvalidParam;
      }
      listenerMap := listenerMap + {sessName + "_" + peer};
      return Success;
    }

    method UnRegisterChannelListener(sessName: string, peer: string) returns (status: Status)
      modifies this
      ensures State() == Unregistered(old(State()), sessName, peer)
      ensures status == if sessName == "" || peer == "" then InvalidParam else Success
    {
      if sessName == "" || peer == "" {
        return InvalidParam;
      }
      listenerMap := listenerMap - {sessName + "_" + peer};
      return Success;
    }

    /** `OnSoftbusChannelOpened`, its locked region; the local session name is already found. */
    method OnSoftbusChannelOpened(sessName: string, peer: string, id: int)
      modifies this
      ensures State() == Incoming(old(State()), sessName, peer, id)
    {
      if sessName == "" || peer == "" {
        return;
      }
      ghost var was := devId2SessIdMap;
      var todo := listenerMap;
      while todo != {}
        invariant todo <= listenerMap == old(listenerMap)
        invariant devId2SessIdMap == Overwritten(was, Reached(listenerMap - todo, sessName), id)
        decreases todo
      {
        var key :| key in todo;
        OverwriteOneMore(was, listenerMap - todo, key, sessName, id);
        assert listenerMap - (todo - {key}) == listenerMap - todo + {key};
        todo := todo - {key};
        if Contains(key, sessName) {
          devId2SessIdMap := devId2SessIdMap[key := id];
        }
      }
      assert listenerMap - todo == listenerMap;
      if sessName + "_" + peer !in devId2SessIdMap {
        devId2SessIdMap := devId2SessIdMap[sessName + "_" + peer := id];
      }
    }

    /** `OnSoftbusChannelClosed`: `told` are the keys whose listeners get a closed event. */
    method OnSoftbusChannelClosed(id: int) returns (told: set<string>)
      modifies this
      ensures State() == ShutDown(old(State()), id)
      ensures told == set k | k in old(devId2SessIdMap) && old(devId2SessIdMap)[k] == id
    {
      told := {};
      ghost var was := devId2SessIdMap;
      var todo := devId2SessIdMap.Keys;
      while todo != {}
        invariant todo <= was.Keys && listenerMap == old(listenerMap)
        invariant devId2SessIdMap == map k | k in was && (k in todo || was[k] != id) :: was[k]
        invariant told == set k | k in was && k !in todo && was[k] == id
        decreases todo
      {
        var key :| key in todo;
        todo := todo - {key};
        if devId2SessIdMap[key] == id {
          told := told + {key};
          devId2SessIdMap := devId2SessIdMap - {key};
        }
      }
    }

    /** `GetPeerDevIdBySessId`: the peer of the first key, in key order, that names a real one. */
    method GetPeerDevIdBySessId(id: int) returns (peer: string)
      ensures (exists key :: IsFirst(State(), id, key) && PeerOf(key) == Some(peer))
           || (peer == "" && forall key :: !NamesPeer(State(), id, key))
    {
      peer := "";
      var first: Option<string> := None;
      var todo := devId2SessIdMap.Keys;
      while todo != {}
        invariant todo <= devId2SessIdMap.Keys
        invariant first.None? ==> peer == "" && forall k | NamesPeer(State(), id, k) :: k in todo
        invariant first.Some? ==>
          && NamesPeer(State(), id, first.value)
          && PeerOf(first.value) == Some(peer)
          && forall k | NamesPeer(State(), id, k) :: k in todo || k == first.value || Before(first.value, k)
        decreases todo
      {
        var k :| k in todo;
        todo := todo - {k};
        var p := PeerOf(k);
        if devId2SessIdMap[k] == id && p.Some? && p.value != AV_TRANS_SPECIAL_DEVICE_ID
          && (first.None? || Before(k, first.value))
        {
          forall x | NamesPeer(State(), id, x) ensures x in todo || x == k || Before(k, x) {
            if first.Some? && Before(first.value, x) {
              BeforeIsTransitive(k, first.value, x);
            }
          }
          first, peer := Some(k), p.value;
        } else if first.Some? {
          BeforeIsTotal(k, first.value);
        }
      }
      assert first.Some? ==> IsFirst(State(), id, first.value);
    }
  }
}
