/** The protocol's data model: mandates, consensus votes and multi-agent transactions,
    with the enumerations they use, and the abstract environment (hash, transfer service). */
module Ap2Types {
  import opened Wrappers
  import opened Text
  import opened Json

  /** A point in time, in milliseconds since the epoch. */
  type Timestamp = int

  datatype MandateType = Intent | Cart

  function MandateTypeText(t: MandateType): string {
    match t
    case Intent => "intent"
    case Cart => "cart"
  }

  datatype PaymentStatus = Pending | Authorized | Completed | Failed | Cancelled

  function StatusText(s: PaymentStatus): string {
    match s
    case Pending => "pending"
    case Authorized => "authorized"
    case Completed => "completed"
    case Failed => "failed"
    case Cancelled => "cancelled"
  }

  datatype AgentRole = Initiator | Validator | Executor

  function RoleText(r: AgentRole): (s: string)
    ensures s in ["initiator", "validator", "executor"]
  {
    match r
    case Initiator => "initiator"
    case Validator => "validator"
    case Executor => "executor"
  }

  /** A signed payment mandate. `metadata` is optional in the interface; every mandate the
      SDKs create carries one. */
  datatype Mandate = Mandate(
    id: string,
    mandateType: MandateType,
    agentId: string,
    amount: int,
    currency: string,
    description: string,
    expiry: Timestamp,
    signature: string,
    metadata: Option<Members>)

  /** One validator's vote on a transaction. */
  datatype AgentConsensus = AgentConsensus(agentId: string, vote: bool, signature: string, timestamp: Timestamp)

  datatype MultiAgentTransaction = MultiAgentTransaction(
    transactionId: string,
    initiatorAgent: string,
    validatorAgents: seq<string>,
    requiredVotes: int,
    consensusVotes: seq<AgentConsensus>,
    status: PaymentStatus,
    amount: int,
    currency: string)

  /** The hex digest of SHA-256 over a text, left uninterpreted. */
  type Hash = string -> string

  /** A transfer asked of the payment bridge; the service also names the bridge customer. */
  datatype TransferRequest = TransferRequest(
    customerId: Option<string>,
    fromWallet: string,
    toWallet: string,
    amount: int,
    currency: string)

  /** What the bridge answers: the created transfer, or a thrown error. */
  datatype BridgeReply = Transferred(transferId: string, transferStatus: string) | BridgeFailed(reason: string)

  /** The bridge's `createTransfer`, as a function of the request. */
  type Bridge = TransferRequest -> BridgeReply

  type Positive = n: int | n > 0 witness 1

  /** A threshold such as 0.67, held exactly as num/den. */
  datatype Ratio = Ratio(num: int, den: Positive)

  const DefaultThreshold: Ratio := Ratio(67, 100)

  /** `Math.floor(n * r)` on the exact product (Dafny's `/` by a positive divisor is floor). */
  function FloorTimes(n: nat, r: Ratio): (v: int)
    ensures v * r.den <= n * r.num < (v + 1) * r.den
  {
    (n * r.num) / r.den
  }

  /** `Math.ceil(n * r)` on the exact product. */
  function CeilTimes(n: nat, r: Ratio): (v: int)
    ensures (v - 1) * r.den < n * r.num <= v * r.den
  {
    (n * r.num + r.den - 1) / r.den
  }

  /** Python's `int(n * r)` on the exact product: truncation toward zero. */
  function TruncTimes(n: nat, r: Ratio): (v: int)
    ensures n * r.num >= 0 ==> v == FloorTimes(n, r)
    ensures n * r.num < 0 ==> v * r.den >= n * r.num > (v - 1) * r.den
  {
    if n * r.num >= 0 then (n * r.num) / r.den else -((-(n * r.num)) / r.den)
  }

  /** The text a timestamp is written as inside a signed object (`toISOString()` / `isoformat()`).
      Only its being a fixed function of the timestamp matters to the properties here. */
  function IsoText(t: Timestamp): string {
    IntText(t)
  }
}
