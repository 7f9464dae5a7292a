/** `AP2SecurityManager`, the same in both SDKs: a registry of agents in which the last
    registration of an id wins, and the security check of a multi-agent transaction (a hard
    minimum of validators, and an advisory Byzantine-tolerance warning). */
module Security {
  import opened Wrappers
  import opened Text
  import opened Json
  import opened Ap2Types
  import opened Byzantine

  /** What the registry holds for an agent. */
  datatype RegistryEntry = RegistryEntry(publicKey: string, role: AgentRole, registeredAt: Timestamp, metadata: Members)

  /** `{ valid, errors, warnings }`. */
  datatype SecurityReport = SecurityReport(valid: bool, errors: seq<string>, warnings: seq<string>)

  function MinimumValidatorsError(requiredAgents: int): string {
    "Minimum " + IntText(requiredAgents) + " validators required"
  }

  const ToleranceWarning: string := "Byzantine tolerance may not be sufficient"

  /** The advisory condition: counting the initiator, fewer votes are required than there are
      agents beyond the tolerated number of faulty ones. */
  predicate ToleranceShort(t: MultiAgentTransaction) {
    var total := |t.validatorAgents| + 1;
    t.requiredVotes < total - MaxFaulty(total)
  }

  class SecurityManager {
    const requiredAgents: int
    var agentRegistry: map<string, RegistryEntry>

    /** `new AP2SecurityManager(requiredAgents)`; 3 when no count is given. */
    constructor (requiredAgents: Option<int>)
      ensures this.requiredAgents == requiredAgents.GetOr(3) && agentRegistry == map[]
    {
      this.requiredAgents := requiredAgents.GetOr(3);
      agentRegistry := map[];
    }

    /** `registerAgent(agentId, publicKey, role, metadata)` at time `now`: sets the entry,
        replacing any earlier one for the same id. */
    method RegisterAgent(agentId: string, publicKey: string, role: AgentRole, metadata: Option<Members>, now: Timestamp)
      modifies this
      ensures agentRegistry == old(agentRegistry)[agentId := RegistryEntry(publicKey, role, now, metadata.GetOr([]))]
      ensures GetAgent(agentId) == Some(RegistryEntry(publicKey, role, now, metadata.GetOr([])))
      ensures forall other :: other != agentId ==> GetAgent(other) == old(GetAgent(other))
    {
      agentRegistry := agentRegistry[agentId := RegistryEntry(publicKey, role, now, metadata.GetOr([]))];
    }

    /** `getAgent(agentId)`: the entry, or nothing for an id never registered. */
    function GetAgent(agentId: string): (r: Option<RegistryEntry>)
      reads this
      ensures r.Some? <==> agentId in agentRegistry
      ensures r.Some? ==> r.value == agentRegistry[agentId]
    {
      if agentId in agentRegistry then Some(agentRegistry[agentId]) else None
    }

    /** `validateTransactionSecurity(t)`: invalid exactly when there are fewer validators than
        required, with one error naming the minimum; the tolerance warning is advisory and never
        touches `valid`. */
    method ValidateTransactionSecurity(t: MultiAgentTransaction) returns (r: SecurityReport)
      ensures r.valid <==> |t.validatorAgents| >= requiredAgents
      ensures r.errors == if r.valid then [] else [MinimumValidatorsError(requiredAgents)]
      ensures r.warnings == if ToleranceShort(t) then [ToleranceWarning] else []
    {
      var valid := true;
      var errors: seq<string> := [];
      var warnings: seq<string> := [];
      if |t.validatorAgents| < requiredAgents {
        valid := false;
        errors := errors + [MinimumValidatorsError(requiredAgents)];
      }
      var totalAgents := |t.validatorAgents| + 1;
      var maxFaulty := (totalAgents - 1) / 3;
      if t.requiredVotes < totalAgents - maxFaulty {
        warnings := warnings + [ToleranceWarning];
      }
      r := SecurityReport(valid, errors, warnings);
    }
  }

  /** The TypeScript default `floor(0.67 n)` draws the warning for every validator count below 300. */
  lemma TsDefaultWarnsBelow300(t: MultiAgentTransaction)
    requires |t.validatorAgents| < 300
    requires t.requiredVotes == FloorTimes(|t.validatorAgents|, DefaultThreshold)
    ensures ToleranceShort(t)
  {
    var n := |t.validatorAgents|;
    var f := MaxFaulty(n + 1);
    assert 3 * f <= n;
    assert 100 * t.requiredVotes <= 67 * n;
    assert 300 * (t.requiredVotes + f) <= 301 * n;
  }

  /** ... and not for 300 validators. */
  lemma TsDefaultQuietAt300(t: MultiAgentTransaction)
    requires |t.validatorAgents| == 300
    requires t.requiredVotes == FloorTimes(|t.validatorAgents|, DefaultThreshold)
    ensures !ToleranceShort(t)
  {
  }

  /** The service's default `ceil(0.67 n)`, below 100 validators, draws the warning exactly when
      the count is not a multiple of 3. */
  lemma ServiceDefaultWarning(t: MultiAgentTransaction)
    requires 0 < |t.validatorAgents| < 100
    requires t.requiredVotes == CeilTimes(|t.validatorAgents|, DefaultThreshold)
    ensures ToleranceShort(t) <==> |t.validatorAgents| % 3 != 0
  {
    var n := |t.validatorAgents|;
    var f := MaxFaulty(n + 1);
    var c := t.requiredVotes;
    assert 3 * f <= n < 3 * f + 3;
    assert 100 * (c - 1) < 67 * n <= 100 * c;
    assert n % 3 == n - 3 * f;
  }
}
