/** The TypeScript SDK's `AP2Protocol`: signed mandates, agent signatures and the initiation
    of multi-agent transactions. A signature is the hash of the canonical text
    `JSON.stringify(o, Object.keys(o).sort())` followed by the agent key. */
module TsProtocol {
  import opened Wrappers
  import opened Json
  import opened Ap2Types
  import SdkConsensus

  /** The instance's configuration: its agent, its signing key, and the threshold it was given. */
  datatype Config = Config(agentId: string, agentKey: string, byzantineThreshold: Option<Ratio>)

  /** `config.byzantineThreshold || 0.67`: an absent threshold and a zero one both become 0.67. */
  function EffectiveThreshold(c: Config): Ratio {
    match c.byzantineThreshold
    case Some(r) => if r.num != 0 then r else DefaultThreshold
    case None => DefaultThreshold
  }

  /** The mandate's own properties other than `signature` and `metadata`, as the object is built. */
  function MandateFields(m: Mandate): Members {
    [("id", JStr(m.id)),
     ("mandate_type", JStr(MandateTypeText(m.mandateType))),
     ("agent_id", JStr(m.agentId)),
     ("amount", JNum(m.amount)),
     ("currency", JStr(m.currency)),
     ("description", JStr(m.description)),
     ("expiry", JStr(IsoText(m.expiry)))]
  }

  /** Every own property except `signature`: what `const { signature, ...mandateData } = m` keeps. */
  function MandateData(m: Mandate): Members {
    MandateFields(m) + (match m.metadata case Some(md) => [("metadata", JObj(md))] case None => [])
  }

  /** The text that is hashed: canonical form, then the key. */
  function SignedText(data: Members, key: string): string {
    TsCanon(data) + key
  }

  /** `createMandate(type, amount, currency, description, expiry, metadata)` with `mandateId`
      the fresh uuid: the fields as given, the instance's agent, and the signature over every
      other field under the instance's key. */
  function CreateMandate(c: Config, hash: Hash, mandateId: string, mandateType: MandateType, amount: int,
                         currency: string, description: string, expiry: Timestamp, metadata: Option<Members>)
    : (m: Mandate)
    ensures m.id == mandateId && m.mandateType == mandateType && m.agentId == c.agentId
    ensures m.amount == amount && m.currency == currency && m.description == description && m.expiry == expiry
    ensures m.metadata == Some(metadata.GetOr([]))
    ensures m.signature == hash(SignedText(MandateData(m), c.agentKey))
  {
    var unsigned := Mandate(mandateId, mandateType, c.agentId, amount, currency, description, expiry, "",
                            Some(metadata.GetOr([])));
    unsigned.(signature := hash(SignedText(MandateData(unsigned), c.agentKey)))
  }

  /** `verifyMandate(m)` at time `now`: an expired mandate is refused before any hashing; an
      expiry equal to `now` is not expired. */
  function VerifyMandate(c: Config, hash: Hash, m: Mandate, now: Timestamp): (ok: bool)
    ensures m.expiry < now ==> !ok
    ensures ok <==> now <= m.expiry && m.signature == hash(SignedText(MandateData(m), c.agentKey))
  {
    if m.expiry < now then false
    else
      var expected := hash(SignedText(MandateData(m), c.agentKey));
      expected == m.signature
  }

  /** A mandate verifies with the key that created it for exactly as long as it has not expired. */
  lemma MandateRoundTrip(c: Config, hash: Hash, mandateId: string, mandateType: MandateType, amount: int,
                         currency: string, description: string, expiry: Timestamp, metadata: Option<Members>,
                         now: Timestamp)
    ensures VerifyMandate(c, hash, CreateMandate(c, hash, mandateId, mandateType, amount, currency, description, expiry, metadata), now)
            <==> now <= expiry
  {
  }

  /** The property list `Object.keys(mandateData).sort()` also filters the nested metadata
      object: two metadata objects that agree on the top-level field names sign alike. */
  lemma MetadataBeyondFieldNamesUnsigned(c: Config, hash: Hash, m: Mandate, other: Members, now: Timestamp)
    requires m.metadata.Some?
    requires forall k :: k in SortedKeys(MandateData(m)) ==>
               PropText(m.metadata.value, k, SortedKeys(MandateData(m))) == PropText(other, k, SortedKeys(MandateData(m)))
    ensures VerifyMandate(c, hash, m.(metadata := Some(other)), now) == VerifyMandate(c, hash, m, now)
  {
    var m2 := m.(metadata := Some(other));
    var d1 := MandateFields(m) + [("metadata", JObj(m.metadata.value))];
    var d2 := MandateFields(m) + [("metadata", JObj(other))];
    assert MandateData(m) == d1;
    assert MandateData(m2) == d2 by { assert MandateFields(m2) == MandateFields(m); }
    TsCanonNestedFiltered(MandateFields(m), "metadata", m.metadata.value, other);
    assert SignedText(MandateData(m), c.agentKey) == SignedText(MandateData(m2), c.agentKey);
  }

  /** A verified mandate with metadata `{"note": "a"}` still verifies once the note is changed to
      `"b"`: the note is not part of the signed text. */
  lemma NestedNoteIsNotSigned(c: Config, hash: Hash, m: Mandate, now: Timestamp)
    requires m.metadata == Some([("note", JStr("a"))])
    requires VerifyMandate(c, hash, m, now)
    ensures VerifyMandate(c, hash, m.(metadata := Some([("note", JStr("b"))])), now)
  {
    var d := MandateData(m);
    var allow := SortedKeys(d);
    forall k | k in allow
      ensures PropText(m.metadata.value, k, allow) == PropText([("note", JStr("b"))], k, allow)
    {
      SortedKeysMembership(d, k);
      NoFieldNamedNote(m);
      assert k != "note";
    }
    MetadataBeyondFieldNamesUnsigned(c, hash, m, [("note", JStr("b"))], now);
  }

  /** None of the mandate's own property names is `note`: none starts with `n`. */
  lemma NoFieldNamedNote(m: Mandate)
    ensures forall i :: 0 <= i < |MandateData(m)| ==> MandateData(m)[i].0 != "note"
  {
    var d := MandateData(m);
    forall i | 0 <= i < |d| ensures d[i].0 != "note" {
      assert d[i].0[0] in "imacde";
    }
  }

  // ---------------------------------------------------------------------------------------
  // Agent signatures

  /** `createAgentSignature(data)` under the instance's key. */
  function CreateAgentSignature(c: Config, hash: Hash, data: Members): (r: string)
    ensures VerifyAgentSignature(hash, data, r, c.agentKey)
    ensures forall s :: VerifyAgentSignature(hash, data, s, c.agentKey) ==> s == r
  {
    hash(SignedText(data, c.agentKey))
  }

  /** `verifyAgentSignature(data, signature, agentKey)`: recompute under the given key and compare. */
  function VerifyAgentSignature(hash: Hash, data: Members, signature: string, agentKey: string): (ok: bool)
    ensures ok <==> signature == hash(TsCanon(data) + agentKey)
  {
    var expected := hash(SignedText(data, agentKey));
    expected == signature
  }

  /** An object's signature does not depend on the order its properties were created in. */
  lemma AgentSignatureOrderIndependent(c: Config, hash: Hash, d1: Members, d2: Members)
    requires DistinctKeys(d1) && DistinctKeys(d2) && multiset(d1) == multiset(d2)
    ensures CreateAgentSignature(c, hash, d1) == CreateAgentSignature(c, hash, d2)
  {
    TsCanonOrderIndependent(d1, d2);
  }

  // ---------------------------------------------------------------------------------------
  // Initiation

  /** `requiredVotes || Math.floor(n * threshold)`: an absent or zero argument gives the default. */
  function TsRequiredVotes(c: Config, validators: nat, requiredVotes: Option<int>): (r: int)
    ensures requiredVotes.Some? && requiredVotes.value != 0 ==> r == requiredVotes.value
    ensures requiredVotes.None? || requiredVotes.value == 0 ==>
              r * EffectiveThreshold(c).den <= validators * EffectiveThreshold(c).num
              < (r + 1) * EffectiveThreshold(c).den
  {
    match requiredVotes
    case Some(v) => if v != 0 then v else FloorTimes(validators, EffectiveThreshold(c))
    case None => FloorTimes(validators, EffectiveThreshold(c))
  }

  /** `initiateMultiAgentTransaction(validators, amount, currency, requiredVotes)` with
      `transactionId` the fresh uuid: a pending transaction without votes, satisfying the
      consensus invariant. */
  function Initiate(c: Config, transactionId: string, validatorAgents: seq<string>, amount: int, currency: string,
                    requiredVotes: Option<int>)
    : (t: MultiAgentTransaction)
    ensures t.transactionId == transactionId && t.initiatorAgent == c.agentId && t.validatorAgents == validatorAgents
    ensures t.amount == amount && t.currency == currency
    ensures t.status == Pending && t.consensusVotes == []
    ensures requiredVotes.Some? && requiredVotes.value != 0 ==> t.requiredVotes == requiredVotes.value
    ensures requiredVotes.None? || requiredVotes.value == 0 ==>
              t.requiredVotes * EffectiveThreshold(c).den <= |validatorAgents| * EffectiveThreshold(c).num
              < (t.requiredVotes + 1) * EffectiveThreshold(c).den
    ensures SdkConsensus.Consistent(t)
  {
    var t := MultiAgentTransaction(transactionId, c.agentId, validatorAgents, TsRequiredVotes(c, |validatorAgents|, requiredVotes),
                                   [], Pending, amount, currency);
    SdkConsensus.FreshIsConsistent(t);
    t
  }

  /** When the default applies, at least the floor of 67% of the validators must approve. */
  lemma DefaultRequiredVotes(c: Config, transactionId: string, validatorAgents: seq<string>, amount: int, currency: string)
    requires c.byzantineThreshold.None?
    ensures Initiate(c, transactionId, validatorAgents, amount, currency, None).requiredVotes == (67 * |validatorAgents|) / 100
    ensures 0 <= Initiate(c, transactionId, validatorAgents, amount, currency, None).requiredVotes < |validatorAgents| || |validatorAgents| == 0
  {
  }

  /** An explicit `0` is the same as no argument. */
  lemma ExplicitZeroIsDefault(c: Config, transactionId: string, validatorAgents: seq<string>, amount: int, currency: string)
    ensures Initiate(c, transactionId, validatorAgents, amount, currency, Some(0))
         == Initiate(c, transactionId, validatorAgents, amount, currency, None)
  {
  }
}
