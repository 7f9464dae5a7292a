/** The Python SDK's `AP2Protocol`: the same protocol as the TypeScript SDK, with
    `json.dumps(d, sort_keys=True)` as the canonical text, `int()` truncation for the default
    vote count, and an explicit `required_votes=0` kept as given. */
module PyProtocol {
  import opened Wrappers
  import opened Json
  import opened Ap2Types
  import SdkConsensus
  import TsProtocol

  /** The instance's agent, key and threshold (0.67 when the constructor was not given one). */
  datatype PyConfig = PyConfig(agentId: string, agentKey: string, byzantineThreshold: Ratio)

  /** `mandate_data` as `create_mandate` builds it, before the signature is added. */
  function MandateDict(m: Mandate): Members {
    [("id", JStr(m.id)),
     ("mandate_type", JStr(MandateTypeText(m.mandateType))),
     ("agent_id", JStr(m.agentId)),
     ("amount", JNum(m.amount)),
     ("currency", JStr(m.currency)),
     ("description", JStr(m.description)),
     ("expiry", JStr(IsoText(m.expiry))),
     ("metadata", JObj(m.metadata.GetOr([])))]
  }

  /** The text that is hashed: `json.dumps(data, sort_keys=True) + agent_key`. */
  function SignedText(data: Members, key: string): string {
    PyDumps(JObj(data)) + key
  }

  /** `create_mandate(...)` with `mandateId` the fresh uuid: the signature covers every field
      except itself, metadata included at every depth. */
  function CreateMandate(c: PyConfig, hash: Hash, mandateId: string, mandateType: MandateType, amount: int,
                         currency: string, description: string, expiry: Timestamp, metadata: Option<Members>)
    : (m: Mandate)
    ensures m.id == mandateId && m.mandateType == mandateType && m.agentId == c.agentId
    ensures m.amount == amount && m.currency == currency && m.description == description && m.expiry == expiry
    ensures m.metadata == Some(metadata.GetOr([]))
    ensures m.signature == hash(SignedText(MandateDict(m), c.agentKey))
  {
    var unsigned := Mandate(mandateId, mandateType, c.agentId, amount, currency, description, expiry, "",
                            Some(metadata.GetOr([])));
    unsigned.(signature := hash(SignedText(MandateDict(unsigned), c.agentKey)))
  }

  /** `verify_mandate` as intended: an expired mandate is refused before any hashing; otherwise the
      signature is recomputed over the same fields `create_mandate` signed. */
  function VerifyMandate(c: PyConfig, hash: Hash, m: Mandate, now: Timestamp): (ok: bool)
    ensures m.expiry < now ==> !ok
    ensures ok <==> now <= m.expiry && m.signature == hash(SignedText(MandateDict(m), c.agentKey))
  {
    if m.expiry < now then false
    else
      var expected := hash(SignedText(MandateDict(m), c.agentKey));
      expected == m.signature
  }

  lemma MandateRoundTrip(c: PyConfig, hash: Hash, mandateId: string, mandateType: MandateType, amount: int,
                         currency: string, description: string, expiry: Timestamp, metadata: Option<Members>,
                         now: Timestamp)
    ensures VerifyMandate(c, hash, CreateMandate(c, hash, mandateId, mandateType, amount, currency, description, expiry, metadata), now)
            <==> now <= expiry
  {
  }

  /** Dict order plays no part: a mandate dict whose keys were inserted in another order
      signs alike. */
  lemma MandateTextOrderIndependent(m: Mandate, key: string, reordered: Members)
    requires DistinctKeys(reordered) && multiset(reordered) == multiset(MandateDict(m))
    ensures SignedText(reordered, key) == SignedText(MandateDict(m), key)
  {
    MandateDictDistinct(m);
    PyDumpsOrderIndependent(reordered, MandateDict(m));
  }

  /** The dict's eight names are distinct. */
  lemma MandateDictDistinct(m: Mandate)
    ensures DistinctKeys(MandateDict(m))
  {
    var names := ["id", "mandate_type", "agent_id", "amount", "currency", "description", "expiry", "metadata"];
    assert Keys(MandateDict(m)) == names;
    assert forall i :: 0 <= i < |names| ==> names[i][0] == ['i', 'm', 'a', 'a', 'c', 'd', 'e', 'm'][i];
    assert names[3][1] != names[2][1] && names[7][1] != names[1][1];
  }

  // ---------------------------------------------------------------------------------------
  // verify_mandate as written

  /** A value in the dict `model_dump()` returns: plain JSON data, or a `datetime` object. */
  datatype Dumped = Plain(value: Json) | DateTime(at: Timestamp)

  /** `mandate.model_dump()`: the model's fields in declaration order; `expiry` stays a datetime. */
  function ModelDump(m: Mandate): seq<(string, Dumped)> {
    [("id", Plain(JStr(m.id))),
     ("mandate_type", Plain(JStr(MandateTypeText(m.mandateType)))),
     ("agent_id", Plain(JStr(m.agentId))),
     ("amount", Plain(JNum(m.amount))),
     ("currency", Plain(JStr(m.currency))),
     ("description", Plain(JStr(m.description))),
     ("expiry", DateTime(m.expiry)),
     ("signature", Plain(JStr(m.signature))),
     ("metadata", Plain(JObj(m.metadata.GetOr([]))))]
  }

  /** `d.pop(k)` on a dict with distinct keys: what remains. */
  function Without(d: seq<(string, Dumped)>, k: string): (r: seq<(string, Dumped)>)
    ensures forall p :: p in r <==> p in d && p.0 != k
  {
    if d == [] then []
    else if d[0].0 == k then Without(d[1..], k)
    else [d[0]] + Without(d[1..], k)
  }

  const DateTimeError: string := "Object of type datetime is not JSON serializable"

  /** `json.dumps(d, sort_keys=True)` on a dict that may hold datetime values: a `TypeError`
      for the first datetime it meets, the text otherwise. */
  function DumpsChecked(d: seq<(string, Dumped)>): (r: Result<string, string>)
    ensures r.Failure? <==> exists i :: 0 <= i < |d| && d[i].1.DateTime?
    ensures r.Failure? ==> r.error == DateTimeError
  {
    if exists i :: 0 <= i < |d| && d[i].1.DateTime? then Failure(DateTimeError)
    else Success(PyDumps(JObj(seq(|d|, i requires 0 <= i < |d| => (d[i].0, d[i].1.value)))))
  }

  /** `verify_mandate(m)` as the code is written: `False` for an expired mandate, and for any
      other mandate whatever `json.dumps` of the dumped model gives. */
  function VerifyMandateAsWritten(c: PyConfig, hash: Hash, m: Mandate, now: Timestamp): (r: Result<bool, string>)
    ensures m.expiry < now ==> r == Success(false)
    ensures r.Failure? ==> r.error == DateTimeError
  {
    if m.expiry < now then Success(false)
    else
      var data := Without(ModelDump(m), "signature");
      match DumpsChecked(data)
      case Failure(e) => Failure(e)
      case Success(text) => Success(hash(text + c.agentKey) == m.signature)
  }

  /** Every mandate that has not expired makes the written `verify_mandate` raise `TypeError`,
      those that `create_mandate` just signed included: no mandate ever verifies. */
  lemma AsWrittenRaisesOnLiveMandate(c: PyConfig, hash: Hash, m: Mandate, now: Timestamp)
    requires now <= m.expiry
    ensures VerifyMandateAsWritten(c, hash, m, now) == Failure(DateTimeError)
    ensures VerifyMandate(c, hash, m, now) <==> m.signature == hash(SignedText(MandateDict(m), c.agentKey))
  {
    var data := Without(ModelDump(m), "signature");
    assert ("expiry", DateTime(m.expiry)) in ModelDump(m);
    assert ("expiry", DateTime(m.expiry)) in data;
  }

  // ---------------------------------------------------------------------------------------
  // Agent signatures

  /** `create_agent_signature(data)` under the instance's key. */
  function CreateAgentSignature(c: PyConfig, hash: Hash, data: Members): (r: string)
    ensures VerifyAgentSignature(hash, data, r, c.agentKey)
    ensures forall s :: VerifyAgentSignature(hash, data, s, c.agentKey) ==> s == r
  {
    hash(SignedText(data, c.agentKey))
  }

  /** `verify_agent_signature(data, signature, agent_key)`. */
  function VerifyAgentSignature(hash: Hash, data: Members, signature: string, agentKey: string): (ok: bool)
    ensures ok <==> signature == hash(PyDumps(JObj(data)) + agentKey)
  {
    var expected := hash(SignedText(data, agentKey));
    expected == signature
  }

  lemma AgentSignatureOrderIndependent(c: PyConfig, hash: Hash, d1: Members, d2: Members)
    requires DistinctKeys(d1) && DistinctKeys(d2) && multiset(d1) == multiset(d2)
    ensures CreateAgentSignature(c, hash, d1) == CreateAgentSignature(c, hash, d2)
  {
    PyDumpsOrderIndependent(d1, d2);
  }

  // ---------------------------------------------------------------------------------------
  // Initiation

  /** `required_votes`, or `int(n * threshold)` when it is `None`; an explicit 0 stays 0. */
  function PyRequiredVotes(c: PyConfig, validators: nat, requiredVotes: Option<int>): int {
    match requiredVotes
    case Some(v) => v
    case None => TruncTimes(validators, c.byzantineThreshold)
  }

  /** `initiate_multi_agent_transaction(validators, amount, currency, required_votes)` with
      `transactionId` the fresh uuid. */
  function Initiate(c: PyConfig, transactionId: string, validatorAgents: seq<string>, amount: int, currency: string,
                    requiredVotes: Option<int>)
    : (t: MultiAgentTransaction)
    ensures t.transactionId == transactionId && t.initiatorAgent == c.agentId && t.validatorAgents == validatorAgents
    ensures t.amount == amount && t.currency == currency
    ensures t.status == Pending && t.consensusVotes == []
    ensures requiredVotes.Some? ==> t.requiredVotes == requiredVotes.value
    ensures requiredVotes.None? && c.byzantineThreshold.num >= 0 ==>
              t.requiredVotes * c.byzantineThreshold.den <= |validatorAgents| * c.byzantineThreshold.num
              < (t.requiredVotes + 1) * c.byzantineThreshold.den
    ensures SdkConsensus.Consistent(t)
  {
    var t := MultiAgentTransaction(transactionId, c.agentId, validatorAgents, PyRequiredVotes(c, |validatorAgents|, requiredVotes),
                                   [], Pending, amount, currency);
    SdkConsensus.FreshIsConsistent(t);
    t
  }

  /** With the same non-negative threshold and no explicit vote count, both SDKs require the same
      number of votes; an explicit 0 is where they part: TypeScript falls back to the default,
      Python keeps 0. */
  lemma DefaultsAgreeExceptExplicitZero(tc: TsProtocol.Config, pc: PyConfig, transactionId: string,
                                        validatorAgents: seq<string>, amount: int, currency: string)
    requires tc.byzantineThreshold == Some(pc.byzantineThreshold) && pc.byzantineThreshold.num > 0
    ensures TsProtocol.Initiate(tc, transactionId, validatorAgents, amount, currency, None).requiredVotes
         == Initiate(pc, transactionId, validatorAgents, amount, currency, None).requiredVotes
    ensures Initiate(pc, transactionId, validatorAgents, amount, currency, Some(0)).requiredVotes == 0
    ensures TsProtocol.Initiate(tc, transactionId, validatorAgents, amount, currency, Some(0)).requiredVotes
         == Initiate(pc, transactionId, validatorAgents, amount, currency, None).requiredVotes
  {
  }

  /** With `required_votes=0` the first vote of any validator authorizes the transaction, a
      vote against included. */
  lemma ZeroRequiredAuthorizesFirstVote(c: PyConfig, transactionId: string, validatorAgents: seq<string>, amount: int,
                                        currency: string, agentId: string, vote: bool, signature: string, now: Timestamp)
    requires agentId in validatorAgents
    ensures
      var t := Initiate(c, transactionId, validatorAgents, amount, currency, Some(0));
      var r := SdkConsensus.Vote(t, agentId, vote, signature, now);
      r.Success? && r.value.status == Authorized
  {
    var t := Initiate(c, transactionId, validatorAgents, amount, currency, Some(0));
    assert !SdkConsensus.HasVoted(t.consensusVotes, agentId);
  }
}
