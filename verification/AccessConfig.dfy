/** The audio access configuration and the stored authorization decisions, one lock for all of it. */
module AccessConfig {
  import opened Common

  /** `listener` says whether one is set. */
  datatype Config = Config(listener: bool, timeOut: int, pkgName: string, current: string, results: map<string, bool>)

  const INITIAL := Config(false, 0, "", "", map[])

  function Configured(c: Config, listener: bool, timeOut: int, pkgName: string): (Config, Status) {
    if !listener || pkgName == "" then (c, InvalidParam)
    else (c.(listener := true, timeOut := timeOut, pkgName := pkgName), Success)
  }

  function Cleared(c: Config): Config {
    Config(false, 0, "", c.current, map[])
  }

  /** Clearing by package forgets all decisions, also when the package is another one. */
  function ClearedByPkgName(c: Config, pkgName: string): Config {
    if pkgName == "" then c
    else if c.pkgName == pkgName then INITIAL
    else c.(results := map[])
  }

  function Stored(c: Config, networkId: string, granted: bool): Config {
    c.(results := c.results[networkId := granted])
  }

  function Forgotten(c: Config, networkId: string): Config {
    c.(results := c.results - {networkId})
  }

  predicate HasDecision(c: Config, networkId: string) {
    networkId in c.results
  }

  predicate IsGranted(c: Config, networkId: string) {
    networkId in c.results && c.results[networkId]
  }

  // ----- What the operations do to the peers' decisions -----

  /** Storing and forgetting a decision change no other peer's, and nothing of the configuration. */
  lemma DecisionsAreIndependent(c: Config, peer: string, granted: bool, other: string)
    ensures IsGranted(Stored(c, peer, granted), peer) <==> granted
    ensures HasDecision(Stored(c, peer, granted), peer) && !HasDecision(Forgotten(c, peer), peer)
    ensures other != peer ==>
      && (IsGranted(Stored(c, peer, granted), other) <==> IsGranted(c, other))
      && (HasDecision(Stored(c, peer, granted), other) <==> HasDecision(c, other))
      && (IsGranted(Forgotten(c, peer), other) <==> IsGranted(c, other))
      && (HasDecision(Forgotten(c, peer), other) <==> HasDecision(c, other))
    ensures Stored(c, peer, granted).(results := map[]) == Forgotten(c, peer).(results := map[]) == c.(results := map[])
  {
  }

  /** Forgetting undoes a first decision; a later decision replaces the one before. */
  lemma ForgettingUndoesStoring(c: Config, peer: string, granted: bool, granted': bool)
    ensures Forgotten(Stored(c, peer, granted), peer) == Forgotten(c, peer)
    ensures !HasDecision(c, peer) ==> Forgotten(Stored(c, peer, granted), peer) == c
    ensures Stored(Stored(c, peer, granted), peer, granted') == Stored(c, peer, granted')
  {
    assert c.results[peer := granted] - {peer} == c.results - {peer};
    assert c.results[peer := granted][peer := granted'] == c.results[peer := granted'];
    if !HasDecision(c, peer) {
      assert c.results - {peer} == c.results;
    }
  }

  /** No clearing grants anything, and after one by a real package name nobody has a decision. */
  lemma ClearingNeverGrants(c: Config, pkgName: string, peer: string)
    ensures !HasDecision(Cleared(c), peer)
    ensures HasDecision(ClearedByPkgName(c, pkgName), peer) <==> pkgName == "" && HasDecision(c, peer)
    ensures IsGranted(ClearedByPkgName(c, pkgName), peer) ==> IsGranted(c, peer)
  {
  }

  /** A listener with a package name is set, and then nobody is let in for want of one; else nothing changes. */
  lemma ConfiguringExactly(c: Config, listener: bool, timeOut: int, pkgName: string)
    ensures var (c', status) := Configured(c, listener, timeOut, pkgName);
      && (status == Success <==> listener && pkgName != "")
      && (status == Success ==> c'.listener && c'.pkgName == pkgName && c'.timeOut == timeOut)
      && (status != Success ==> status == InvalidParam && c' == c)
      && c'.results == c.results && c'.current == c.current
  {
  }

  /** A clearing takes the listener away, one by package name only from its own package. */
  lemma ClearingExactly(c: Config, pkgName: string)
    ensures !Cleared(c).listener && Cleared(c).pkgName == "" && Cleared(c).current == c.current
    ensures var c' := ClearedByPkgName(c, pkgName);
      if pkgName != "" && c.pkgName == pkgName then !c'.listener && c'.pkgName == "" && c'.current == ""
      else c'.listener == c.listener && c'.pkgName == c.pkgName && c'.timeOut == c.timeOut && c'.current == c.current
  {
  }

  /**
   * `StartAudioCodec` reads the configuration several times, with other steps in between: `at[0]` for the
   * current network id, `at[1]` for a decision, `at[2]` at the start of the wait, `at[3]` when the
   * wait ends (a decision, or the time is up), `at[4]` for the decision itself.
   */
  function GatePasses(at: seq<Config>): bool
    requires |at| == 5
  {
    var networkId := at[0].current;
    if networkId == "" then
      true
    else if !HasDecision(at[1], networkId) && !HasDecision(at[2], networkId) && !HasDecision(at[3], networkId) then
      false
    else
      IsGranted(at[4], networkId)
  }

  /**
   * With a network id the gate passes exactly if the peer is granted at the last read and a decision was
   * seen at one of the reads before; one that comes only after the wait is too late.
   */
  lemma GatePassesExactly(at: seq<Config>)
    requires |at| == 5 && at[0].current != ""
    ensures GatePasses(at) <==>
      && IsGranted(at[4], at[0].current)
      && exists k | 1 <= k < 4 :: HasDecision(at[k], at[0].current)
  {
    var peer := at[0].current;
    if k :| 1 <= k < 4 && HasDecision(at[k], peer) {
      assert k == 1 || k == 2 || k == 3;
    }
  }

  /** Without a network id there is nobody to ask for, and the gate is open. */
  lemma GateIsOpenWithoutPeer(at: seq<Config>)
    requires |at| == 5 && at[0].current == ""
    ensures GatePasses(at)
  {
  }

  /** `DAudioAccessConfigManager`; each method is one locked region. */
  class AccessConfigManager {
    var listener: bool
    var timeOut: int
    var pkgName: string
    var currentNetworkId: string
    var authorizationResults: map<string, bool>

    function State(): Config
      reads this
    {
      Config(listener, timeOut, pkgName, currentNetworkId, authorizationResults)
    }

    constructor ()
      ensures State() == INITIAL
    {
      listener, timeOut, pkgName, currentNetworkId, authorizationResults := false, 0, "", "", map[];
    }

    method SetAccessConfig(listener: bool, timeOut: int, pkgName: string) returns (status: Status)
      modifies this
      ensures (State(), status) == Configured(old(State()), listener, timeOut, pkgName)
    {
      if !listener {
        return InvalidParam;
      }
      if pkgName == "" {
        return InvalidParam;
      }
      this.listener, this.timeOut, this.pkgName := listener, timeOut, pkgName;
      return Success;
    }

    method ClearAccessConfig()
      modifies this
      ensures State() == Cleared(old(State()))
    {
      listener, timeOut, pkgName := false, 0, "";
      authorizationResults := map[];
    }

    method SetAuthorizationGranted(networkId: string, granted: bool)
      modifies this
      ensures State() == Stored(old(State()), networkId, granted)
    {
      authorizationResults := authorizationResults[networkId := granted];
    }

    method IsAuthorizationGranted(networkId: string) returns (granted: bool)
      ensures granted <==> IsGranted(State(), networkId)
    {
      if networkId !in authorizationResults {
        return false;
      }
      return authorizationResults[networkId];
    }

    method HasAuthorizationDecision(networkId: string) returns (has: bool)
      ensures has <==> HasDecision(State(), networkId)
    {
      return networkId in authorizationResults;
    }

    method ClearAuthorizationResult(networkId: string)
      modifies this
      ensures State() == Forgotten(old(State()), networkId)
    {
      ghost var was := authorizationResults;
      if networkId in authorizationResults {
        authorizationResults := authorizationResults - {networkId};
      }
      assert authorizationResults == was - {networkId};
    }

    method SetCurrentNetworkId(networkId: string)
      modifies this
      ensures State() == old(State()).(current := networkId)
    {
      currentNetworkId := networkId;
    }

    method ClearAccessConfigByPkgName(pkgName: string)
      modifies this
      ensures State() == ClearedByPkgName(old(State()), pkgName)
    {
      if pkgName == "" {
        return;
      }
      if this.pkgName == pkgName {
        listener, timeOut, this.pkgName, currentNetworkId := false, 0, "", "";
      }
      if authorizationResults != map[] {
        authorizationResults := map[];
      }
    }

    /**
     * The gate in `StartAudioCodec`: the configuration is read at up to five moments, and other calls
     * change it in between, so each read is given the state that it finds.
     */
    static method PassesGate(at: seq<Config>) returns (passes: bool)
      requires |at| == 5
      ensures passes <==> GatePasses(at)
    {
      var networkId := at[0].current;
      if networkId != "" {
        if !HasDecision(at[1], networkId) {
          var gotResult := HasDecision(at[2], networkId) || HasDecision(at[3], networkId);
          if !gotResult {
            return false;
          }
        }
        if !IsGranted(at[4], networkId) {
          return false;
        }
      }
      return true;
    }
  }
}
