/** `AP2Service`, the Postgres-backed service: mandates, and multi-agent transactions whose
    votes are rows of a table. The database is the object's state, one field per table. */
module Service {
  import opened Wrappers
  import opened Text
  import opened Json
  import opened Ap2Types
  import TsProtocol
  import Security

  /** The columns of an `ai_agents` row that the service reads. */
  datatype AgentRow = AgentRow(userId: string, isActive: bool)

  /** A `consensus_transactions` row. `updatedAt`, `completedAt` and `bridgeTransactionId` are
      unset until the service writes them. */
  datatype TransactionRow = TransactionRow(
    initiatorAgentId: string,
    amount: int,
    currency: string,
    requiredVotes: int,
    status: PaymentStatus,
    metadata: Members,
    updatedAt: Option<Timestamp>,
    completedAt: Option<Timestamp>,
    bridgeTransactionId: Option<string>)

  /** A `consensus_votes` row. */
  datatype VoteRow = VoteRow(transactionId: string, validatorAgentId: string, vote: bool, signature: string)

  /** A `payment_mandates` row. */
  datatype MandateRow = MandateRow(
    mandateId: string,
    agentId: string,
    mandateType: MandateType,
    amount: int,
    currency: string,
    description: string,
    signature: string,
    expiresAt: Timestamp,
    metadata: Members)

  /** An `agent_actions` row. */
  datatype ActionRow = ActionRow(agentId: string, actionType: string, amount: int, currency: string, status: string,
                                 metadata: Members)

  /** The tables: agents by id, bridge customer ids by user id, transactions by
      `transaction_id`, and the append-only vote, mandate and action tables. */
  datatype Db = Db(
    agents: map<string, AgentRow>,
    customers: map<string, string>,
    transactions: map<string, TransactionRow>,
    votes: seq<VoteRow>,
    mandates: seq<MandateRow>,
    actions: seq<ActionRow>)

  /** The errors the service throws. */
  datatype ServiceError =
    | AgentUnusable
    | InitiatorUnusable
    | ValidatorUnusable(validatorId: string)
    | SecurityFailed(errors: seq<string>)
    | TransactionNotFound
    | NotPending
    | VoterUnusable
    | AlreadyVoted
    | NotAuthorized
    | InitiatorMissing
    | CustomerNotFound
    | TransferFailed(reason: string)

  function ErrorMessage(e: ServiceError): string {
    match e
    case AgentUnusable => "Agent not found or inactive"
    case InitiatorUnusable => "Initiator agent not found or inactive"
    case ValidatorUnusable(id) => "Validator agent " + id + " not found or inactive"
    case SecurityFailed(errors) => "Transaction security validation failed: " + Join(", ", errors)
    case TransactionNotFound => "Transaction not found"
    case NotPending => "Transaction is not in pending status"
    case VoterUnusable => "Validator agent not found or inactive"
    case AlreadyVoted => "Agent has already voted on this transaction"
    case NotAuthorized => "Transaction not authorized for execution"
    case InitiatorMissing => "Cannot read properties of undefined (reading 'user_id')"
    case CustomerNotFound => "Customer not found for agent"
    case TransferFailed(reason) => reason
  }

  /** What `addConsensusVote` returns. */
  datatype VoteReport = VoteReport(transactionId: string, status: PaymentStatus, totalVotes: nat, positiveVotes: nat,
                                   requiredVotes: int)

  /** What `executeConsensusTransaction` returns. */
  datatype ServiceReceipt = ServiceReceipt(transactionId: string, transferId: string, status: PaymentStatus, amount: int,
                                           currency: string)

  /** `!agent || !agent.is_active` is false: the agent exists and is active. */
  predicate Usable(agents: map<string, AgentRow>, agentId: string) {
    agentId in agents && agents[agentId].isActive
  }

  /** The position of the first validator that is missing or inactive, if any. */
  function FirstUnusable(agents: map<string, AgentRow>, ids: seq<string>): (r: Option<nat>)
    ensures r.Some? ==> r.value < |ids| && !Usable(agents, ids[r.value])
    ensures r.Some? ==> forall j :: 0 <= j < r.value ==> Usable(agents, ids[j])
    ensures r.None? <==> forall j :: 0 <= j < |ids| ==> Usable(agents, ids[j])
  {
    if ids == [] then None
    else if !Usable(agents, ids[0]) then Some(0)
    else match FirstUnusable(agents, ids[1..])
      case None => None
      case Some(k) => Some(k + 1)
  }

  /** `requiredVotes || Math.ceil(n * 0.67)`: an absent or zero count gives the default. */
  function ServiceRequiredVotes(validators: nat, requiredVotes: Option<int>): (v: int)
    ensures requiredVotes.Some? && requiredVotes.value != 0 ==> v == requiredVotes.value
    ensures requiredVotes.None? || requiredVotes.value == 0 ==> (v - 1) * 100 < 67 * validators <= v * 100
  {
    match requiredVotes
    case Some(v) => if v != 0 then v else CeilTimes(validators, DefaultThreshold)
    case None => CeilTimes(validators, DefaultThreshold)
  }

  /** The votes stored for one transaction, in insertion order. */
  function VotesFor(votes: seq<VoteRow>, transactionId: string): (r: seq<VoteRow>)
    ensures |r| <= |votes|
    ensures forall v :: v in r <==> v in votes && v.transactionId == transactionId
  {
    if votes == [] then []
    else
      var rest := VotesFor(votes[..|votes| - 1], transactionId);
      if votes[|votes| - 1].transactionId == transactionId then rest + [votes[|votes| - 1]] else rest
  }

  /** The votes recorded one after another for one transaction stay in arrival order: a new row
      joins the end of its own transaction's votes and no other's. */
  lemma VotesForAppend(votes: seq<VoteRow>, v: VoteRow, transactionId: string)
    ensures VotesFor(votes + [v], transactionId)
            == VotesFor(votes, transactionId) + (if v.transactionId == transactionId then [v] else [])
  {
    assert (votes + [v])[..|votes + [v]| - 1] == votes;
  }

  /** Selecting a transaction's votes distributes over concatenation: the votes of an earlier
      batch of rows come before those of a later one, each batch in its own order. */
  lemma {:induction false} VotesForConcat(a: seq<VoteRow>, b: seq<VoteRow>, transactionId: string)
    ensures VotesFor(a + b, transactionId) == VotesFor(a, transactionId) + VotesFor(b, transactionId)
    decreases |b|
  {
    if b == [] {
      assert a + b == a;
    } else {
      var init, last := b[..|b| - 1], b[|b| - 1];
      assert b == init + [last];
      assert a + b == (a + init) + [last];
      VotesForAppend(a + init, last, transactionId);
      VotesForAppend(init, last, transactionId);
      VotesForConcat(a, init, transactionId);
    }
  }

  /** The ballots of stored votes, in order. */
  function Ballots(votes: seq<VoteRow>): (b: seq<bool>)
    ensures |b| == |votes| && forall i :: 0 <= i < |votes| ==> b[i] == votes[i].vote
  {
    seq(|votes|, i requires 0 <= i < |votes| => votes[i].vote)
  }

  /** `votes.filter(v => v.vote).length`. */
  function Positives(votes: seq<VoteRow>): nat {
    CountYes(Ballots(votes))
  }

  /** One more vote adds one to the count exactly when it is in favour. */
  lemma PositivesAppend(votes: seq<VoteRow>, v: VoteRow)
    ensures Positives(votes + [v]) == Positives(votes) + (if v.vote then 1 else 0)
    ensures Positives(votes) <= |votes|
  {
    assert Ballots(votes + [v])[..|votes|] == Ballots(votes);
  }

  /** The service's rule after a vote is stored: authorized on enough positives; failed as soon
      as the votes cast reach the required count without them; otherwise unchanged. */
  function ServiceNextStatus(current: PaymentStatus, positives: nat, total: nat, required: int): (s: PaymentStatus)
    ensures s == Authorized <==> positives >= required || (current == Authorized && total < required)
    ensures positives < required && total >= required ==> s == Failed
    ensures positives < required && total < required ==> s == current
  {
    if positives >= required then Authorized
    else if total >= required && positives < required then Failed
    else current
  }

  /** The row a fresh transaction is inserted with. */
  function NewTransactionRow(initiatorAgentId: string, amount: int, currency: string, requiredVotes: int,
                             metadata: Option<Members>): TransactionRow {
    TransactionRow(initiatorAgentId, amount, currency, requiredVotes, Pending, metadata.GetOr([]), None, None, None)
  }

  /** The action row logged for a completed consensus payment. */
  function PaymentAction(t: TransactionRow, transactionId: string, transferId: string): ActionRow {
    ActionRow(t.initiatorAgentId, "consensus_payment", t.amount, t.currency, "completed",
              [("transaction_id", JStr(transactionId)), ("transfer_id", JStr(transferId))])
  }

  /** The mandate `createMandate` signs: the SDK's, for the agent under the key given, expiring
      `expiryHours` (24 when not given) after `now`. It verifies at once unless the hours are
      negative. */
  function ServiceMandate(agentId: string, agentKey: string, mandateType: MandateType, amount: int, currency: string,
                          description: string, expiryHours: Option<int>, metadata: Option<Members>, hash: Hash,
                          mandateId: string, now: Timestamp)
    : (m: Mandate)
    ensures m.id == mandateId && m.agentId == agentId && m.mandateType == mandateType
    ensures m.amount == amount && m.currency == currency && m.description == description
    ensures m.expiry == now + expiryHours.GetOr(24) * 3600000
    ensures m.metadata == Some(metadata.GetOr([]))
    ensures (TsProtocol.VerifyMandate(TsProtocol.Config(agentId, agentKey, None), hash, m, now)
             <==> expiryHours.GetOr(24) >= 0)
  {
    var expiry := now + expiryHours.GetOr(24) * 3600000;
    TsProtocol.MandateRoundTrip(TsProtocol.Config(agentId, agentKey, None), hash, mandateId, mandateType, amount,
                                currency, description, expiry, metadata, now);
    TsProtocol.CreateMandate(TsProtocol.Config(agentId, agentKey, None), hash, mandateId, mandateType, amount,
                             currency, description, expiry, metadata)
  }

  /** The row stored for a mandate: the stored metadata is `metadata || {}`. */
  function MandateRowOf(m: Mandate, metadata: Option<Members>): MandateRow {
    MandateRow(m.id, m.agentId, m.mandateType, m.amount, m.currency, m.description, m.signature, m.expiry,
               metadata.GetOr([]))
  }

  /** What an accepted vote on a pending transaction leaves behind: the vote row appended; the
      transaction's votes counted with it, in the order they were stored; the status the
      service's rule gives for one more ballot, written (with `updated_at`) only when it changes;
      every other table untouched. */
  function RecordVote(db: Db, transactionId: string, validatorAgentId: string, vote: bool, signature: string,
                      now: Timestamp): (res: (Db, VoteReport))
    requires transactionId in db.transactions && db.transactions[transactionId].status == Pending
    ensures var row := db.transactions[transactionId];
            var prior := VotesFor(db.votes, transactionId);
            var status := ServiceRun(Pending, Positives(prior), |prior|, row.requiredVotes, [vote]);
            && res.0 == db.(votes := db.votes + [VoteRow(transactionId, validatorAgentId, vote, signature)],
                            transactions := if status == Pending then db.transactions
                                            else db.transactions[transactionId := row.(status := status, updatedAt := Some(now))])
            && res.1 == VoteReport(transactionId, status, |prior| + 1, Positives(prior) + (if vote then 1 else 0),
                                   row.requiredVotes)
  {
    var row := db.transactions[transactionId];
    var stored := db.votes + [VoteRow(transactionId, validatorAgentId, vote, signature)];
    var all := VotesFor(stored, transactionId);
    VotesForAppend(db.votes, VoteRow(transactionId, validatorAgentId, vote, signature), transactionId);
    AcceptedVoteIsRunStep(VotesFor(db.votes, transactionId), VoteRow(transactionId, validatorAgentId, vote, signature),
                          row.requiredVotes);
    PositivesAppend(VotesFor(db.votes, transactionId), VoteRow(transactionId, validatorAgentId, vote, signature));
    var status := ServiceNextStatus(row.status, Positives(all), |all|, row.requiredVotes);
    var transactions := if status == row.status then db.transactions
                        else db.transactions[transactionId := row.(status := status, updatedAt := Some(now))];
    (db.(votes := stored, transactions := transactions),
     VoteReport(transactionId, status, |all|, Positives(all), row.requiredVotes))
  }

  /** `addConsensusVote` on the database as a whole: the first refusal that applies, in the
      order the service checks them, or the vote recorded. */
  function VoteOutcome(db: Db, transactionId: string, validatorAgentId: string, vote: bool, signature: string,
                       now: Timestamp): (r: Result<(Db, VoteReport), ServiceError>)
    ensures transactionId !in db.transactions ==> r == Failure(TransactionNotFound)
    ensures transactionId in db.transactions && db.transactions[transactionId].status != Pending ==>
              r == Failure(NotPending)
    ensures transactionId in db.transactions && db.transactions[transactionId].status == Pending
            && !Usable(db.agents, validatorAgentId) ==>
              r == Failure(VoterUnusable)
    ensures transactionId in db.transactions && db.transactions[transactionId].status == Pending
            && Usable(db.agents, validatorAgentId)
            && (exists v :: v in db.votes && v.transactionId == transactionId && v.validatorAgentId == validatorAgentId) ==>
              r == Failure(AlreadyVoted)
    ensures r.Success? <==>
              && transactionId in db.transactions && db.transactions[transactionId].status == Pending
              && Usable(db.agents, validatorAgentId)
              && (forall v :: v in db.votes && v.transactionId == transactionId ==> v.validatorAgentId != validatorAgentId)
    ensures r.Success? ==> r.value == RecordVote(db, transactionId, validatorAgentId, vote, signature, now)
  {
    if transactionId !in db.transactions then Failure(TransactionNotFound)
    else if db.transactions[transactionId].status != Pending then Failure(NotPending)
    else if !Usable(db.agents, validatorAgentId) then Failure(VoterUnusable)
    else if exists v :: v in db.votes && v.transactionId == transactionId && v.validatorAgentId == validatorAgentId then
      Failure(AlreadyVoted)
    else Success(RecordVote(db, transactionId, validatorAgentId, vote, signature, now))
  }

  class Ap2Service {
    var agents: map<string, AgentRow>
    var customers: map<string, string>
    var transactions: map<string, TransactionRow>
    var votes: seq<VoteRow>
    var mandates: seq<MandateRow>
    var actions: seq<ActionRow>
    const securityManager: Security.SecurityManager

    /** The service's security manager requires three validators. */
    ghost predicate Valid() {
      securityManager.requiredAgents == 3
    }

    /** The whole database. */
    function State(): Db
      reads this
    {
      Db(agents, customers, transactions, votes, mandates, actions)
    }

    /** A service over an existing database, with `new AP2SecurityManager(3)`. */
    constructor (db: Db)
      ensures State() == db && Valid()
    {
      agents := db.agents;
      customers := db.customers;
      transactions := db.transactions;
      votes := db.votes;
      mandates := db.mandates;
      actions := db.actions;
      securityManager := new Security.SecurityManager(Some(3));
    }

    /** `getAgent(agentId)`: the row, or nothing. */
    function GetAgent(agentId: string): (r: Option<AgentRow>)
      reads this
      ensures r.Some? <==> agentId in agents
      ensures r.Some? ==> r.value == agents[agentId]
    {
      if agentId in agents then Some(agents[agentId]) else None
    }

    /** `createMandate(...)` at time `now`, with `mandateId` the fresh uuid: refused for a
        missing or inactive agent before anything is signed or stored; otherwise the SDK's
        mandate under the given key, expiring `expiryHours` (24 by default) later, is stored
        and returned. */
    method CreateMandate(agentId: string, agentKey: string, mandateType: MandateType, amount: int, currency: string,
                         description: string, expiryHours: Option<int>, metadata: Option<Members>, hash: Hash,
                         mandateId: string, now: Timestamp)
      returns (r: Result<Mandate, ServiceError>)
      modifies this
      ensures !Usable(old(agents), agentId) ==> r == Failure(AgentUnusable) && State() == old(State())
      ensures Usable(old(agents), agentId) ==>
                var m := ServiceMandate(agentId, agentKey, mandateType, amount, currency, description, expiryHours,
                                        metadata, hash, mandateId, now);
                && r == Success(m)
                && State() == old(State()).(mandates := old(mandates) + [MandateRowOf(m, metadata)])
    {
      var agent := GetAgent(agentId);
      if agent.None? || !agent.value.isActive {
        return Failure(AgentUnusable);
      }
      var m := ServiceMandate(agentId, agentKey, mandateType, amount, currency, description, expiryHours,
                              metadata, hash, mandateId, now);
      mandates := mandates + [MandateRowOf(m, metadata)];
      return Success(m);
    }

    /** `initiateConsensusTransaction(...)` with `transactionId` the freshly generated id: the
        initiator is checked, then each validator in order; the pending row is inserted before
        the security check, so a transaction with fewer than three validators is refused but
        stays in the table. */
    method InitiateConsensusTransaction(initiatorAgentId: string, validatorAgentIds: seq<string>, amount: int,
                                        currency: string, requiredVotes: Option<int>, metadata: Option<Members>,
                                        transactionId: string)
      returns (r: Result<MultiAgentTransaction, ServiceError>)
      requires Valid()
      requires transactionId !in transactions
      modifies this
      ensures !Usable(old(agents), initiatorAgentId) ==> r == Failure(InitiatorUnusable) && State() == old(State())
      ensures Usable(old(agents), initiatorAgentId) && FirstUnusable(old(agents), validatorAgentIds).Some? ==>
                && r == Failure(ValidatorUnusable(validatorAgentIds[FirstUnusable(old(agents), validatorAgentIds).value]))
                && State() == old(State())
      ensures Usable(old(agents), initiatorAgentId) && FirstUnusable(old(agents), validatorAgentIds).None? ==>
                var required := ServiceRequiredVotes(|validatorAgentIds|, requiredVotes);
                && State() == old(State()).(transactions := old(transactions)[transactionId :=
                     NewTransactionRow(initiatorAgentId, amount, currency, required, metadata)])
                && r == if |validatorAgentIds| < 3 then Failure(SecurityFailed([Security.MinimumValidatorsError(3)]))
                        else Success(MultiAgentTransaction(transactionId, initiatorAgentId, validatorAgentIds, required,
                                                           [], Pending, amount, currency))
    {
      var initiator := GetAgent(initiatorAgentId);
      if initiator.None? || !initiator.value.isActive {
        return Failure(InitiatorUnusable);
      }
      var i := 0;
      while i < |validatorAgentIds|
        invariant 0 <= i <= |validatorAgentIds|
        invariant forall j :: 0 <= j < i ==> Usable(agents, validatorAgentIds[j])
      {
        var validator := GetAgent(validatorAgentIds[i]);
        if validator.None? || !validator.value.isActive {
          return Failure(ValidatorUnusable(validatorAgentIds[i]));
        }
        i := i + 1;
      }
      var required := ServiceRequiredVotes(|validatorAgentIds|, requiredVotes);
      transactions := transactions[transactionId := NewTransactionRow(initiatorAgentId, amount, currency, required, metadata)];
      var t := MultiAgentTransaction(transactionId, initiatorAgentId, validatorAgentIds, required, [], Pending,
                                     amount, currency);
      var validation := securityManager.ValidateTransactionSecurity(t);
      if !validation.valid {
        return Failure(SecurityFailed(validation.errors));
      }
      return Success(t);
    }

    /** `addConsensusVote(transactionId, validatorAgentId, vote, signature)` at time `now`: the
        checks run in order before anything is stored; an accepted vote is stored, the
        transaction's votes are counted with it, and the status is written only when the rule
        changes it. Any active agent may vote: the validator list is not stored. */
    method AddConsensusVote(transactionId: string, validatorAgentId: string, vote: bool, signature: string,
                            now: Timestamp)
      returns (r: Result<VoteReport, ServiceError>)
      modifies this
      ensures match VoteOutcome(old(State()), transactionId, validatorAgentId, vote, signature, now)
              case Failure(e) => r == Failure(e) && State() == old(State())
              case Success(recorded) => r == Success(recorded.1) && State() == recorded.0
    {
      if transactionId !in transactions {
        return Failure(TransactionNotFound);
      }
      var row := transactions[transactionId];
      if row.status != Pending {
        return Failure(NotPending);
      }
      var validator := GetAgent(validatorAgentId);
      if validator.None? || !validator.value.isActive {
        return Failure(VoterUnusable);
      }
      if exists v :: v in votes && v.transactionId == transactionId && v.validatorAgentId == validatorAgentId {
        return Failure(AlreadyVoted);
      }
      votes := votes + [VoteRow(transactionId, validatorAgentId, vote, signature)];
      var all := VotesFor(votes, transactionId);
      var positives := Positives(all);
      var status := ServiceNextStatus(row.status, positives, |all|, row.requiredVotes);
      if status != row.status {
        transactions := transactions[transactionId := row.(status := status, updatedAt := Some(now))];
      }
      return Success(VoteReport(transactionId, status, |all|, positives, row.requiredVotes));
    }

    /** `executeConsensusTransaction(transactionId, fromWalletId, toWalletId)` at time `now`:
        only an authorized transaction reaches the bridge, through the initiator's customer; a
        failed transfer changes nothing; a completed one records the transfer and logs exactly
        one action. */
    method ExecuteConsensusTransaction(transactionId: string, fromWalletId: string, toWalletId: string, bridge: Bridge,
                                       now: Timestamp)
      returns (r: Result<ServiceReceipt, ServiceError>, calls: seq<TransferRequest>)
      modifies this
      ensures transactionId !in old(transactions) ==> r == Failure(TransactionNotFound)
      ensures transactionId in old(transactions) && old(transactions)[transactionId].status != Authorized ==>
                r == Failure(NotAuthorized)
      ensures (transactionId !in old(transactions) || old(transactions)[transactionId].status != Authorized) ==> calls == []
      ensures transactionId in old(transactions) && old(transactions)[transactionId].status == Authorized ==>
                var row := old(transactions)[transactionId];
                if row.initiatorAgentId !in old(agents) then r == Failure(InitiatorMissing) && calls == []
                else if old(agents)[row.initiatorAgentId].userId !in old(customers) then
                  r == Failure(CustomerNotFound) && calls == []
                else
                  var request := TransferRequest(Some(old(customers)[old(agents)[row.initiatorAgentId].userId]),
                                                 fromWalletId, toWalletId, row.amount, row.currency);
                  && calls == [request]
                  && match bridge(request)
                     case BridgeFailed(reason) => r == Failure(TransferFailed(reason))
                     case Transferred(transferId, _) =>
                       && r == Success(ServiceReceipt(transactionId, transferId, Completed, row.amount, row.currency))
                       && State() == old(State()).(
                            transactions := old(transactions)[transactionId :=
                              row.(status := Completed, completedAt := Some(now), bridgeTransactionId := Some(transferId))],
                            actions := old(actions) + [PaymentAction(row, transactionId, transferId)])
      ensures r.Failure? ==> State() == old(State())
    {
      calls := [];
      if transactionId !in transactions {
        return Failure(TransactionNotFound), calls;
      }
      var row := transactions[transactionId];
      if row.status != Authorized {
        return Failure(NotAuthorized), calls;
      }
      var agent := GetAgent(row.initiatorAgentId);
      if agent.None? {
        return Failure(InitiatorMissing), calls;
      }
      if agent.value.userId !in customers {
        return Failure(CustomerNotFound), calls;
      }
      var request := TransferRequest(Some(customers[agent.value.userId]), fromWalletId, toWalletId, row.amount,
                                     row.currency);
      calls := [request];
      var reply := bridge(request);
      if reply.BridgeFailed? {
        return Failure(TransferFailed(reply.reason)), calls;
      }
      transactions := transactions[transactionId :=
        row.(status := Completed, completedAt := Some(now), bridgeTransactionId := Some(reply.transferId))];
      actions := actions + [PaymentAction(row, transactionId, reply.transferId)];
      return Success(ServiceReceipt(transactionId, reply.transferId, Completed, row.amount, row.currency)), calls;
    }
  }

  // ---------------------------------------------------------------------------------------
  // The service's vote rule over a sequence of ballots

  /** The final status of a pending transaction after `ballots` arrive in order, counting
      `positives` and `total` votes so far: once the status leaves `pending` every further vote
      is refused. */
  function ServiceRun(status: PaymentStatus, positives: nat, total: nat, required: int, ballots: seq<bool>)
    : PaymentStatus
    decreases |ballots|
  {
    if ballots == [] || status != Pending then status
    else
      var p := positives + (if ballots[0] then 1 else 0);
      ServiceRun(ServiceNextStatus(status, p, total + 1, required), p, total + 1, required, ballots[1..])
  }

  /** A vote the service accepts on a pending transaction is one step of `ServiceRun`: the
      status it writes is the run's status over that single ballot, from the counts so far. */
  lemma AcceptedVoteIsRunStep(prior: seq<VoteRow>, v: VoteRow, required: int)
    ensures ServiceNextStatus(Pending, Positives(prior + [v]), |prior + [v]|, required)
            == ServiceRun(Pending, Positives(prior), |prior|, required, [v.vote])
  {
    PositivesAppend(prior, v);
  }

  /** The number of votes in favour among `ballots`. */
  function CountYes(ballots: seq<bool>): (n: nat)
    ensures n <= |ballots|
  {
    if ballots == [] then 0 else CountYes(ballots[..|ballots| - 1]) + (if ballots[|ballots| - 1] then 1 else 0)
  }

  /** The outcome the service reaches: with `required` >= 1, it decides on the first `required`
      votes cast, and authorizes only when every one of them is in favour. */
  function ServiceVerdict(required: nat, ballots: seq<bool>): PaymentStatus
    requires required >= 1
  {
    if |ballots| < required then Pending
    else if CountYes(ballots[..required]) == required then Authorized
    else Failed
  }

  lemma {:induction false} ServiceRunFrom(required: nat, prefix: seq<bool>, rest: seq<bool>)
    requires required >= 1 && |prefix| < required
    ensures ServiceRun(Pending, CountYes(prefix), |prefix|, required, rest) == ServiceVerdict(required, prefix + rest)
    decreases |rest|
  {
    if rest == [] {
      assert prefix + rest == prefix;
    } else {
      var b := rest[0];
      var next := prefix + [b];
      assert next[..|next| - 1] == prefix;
      assert CountYes(next) == CountYes(prefix) + (if b then 1 else 0);
      assert prefix + rest == next + rest[1..];
      if |next| < required {
        ServiceRunFrom(required, next, rest[1..]);
      } else {
        assert (next + rest[1..])[..required] == next;
      }
    }
  }

  /** The service decides on the first `required` votes, and authorizes only on a unanimous
      first `required`: later votes are refused, whatever they are. */
  lemma ServiceDecidesOnFirstVotes(required: nat, ballots: seq<bool>)
    requires required >= 1
    ensures ServiceRun(Pending, 0, 0, required, ballots) == ServiceVerdict(required, ballots)
  {
    ServiceRunFrom(required, [], ballots);
    assert [] + ballots == ballots;
  }

  /** The service's outcome depends on the order of the votes: with two required, one vote
      against followed by two in favour fails, while the same votes in the other order
      authorize. */
  lemma ServiceOrderMatters()
    ensures ServiceRun(Pending, 0, 0, 2, [false, true, true]) == Failed
    ensures ServiceRun(Pending, 0, 0, 2, [true, true, false]) == Authorized
  {
    ServiceDecidesOnFirstVotes(2, [false, true, true]);
    ServiceDecidesOnFirstVotes(2, [true, true, false]);
  }

  /** The default for three validators is three votes, and for four it is also three. */
  lemma ServiceDefaultVotes()
    ensures ServiceRequiredVotes(3, None) == 3
    ensures ServiceRequiredVotes(4, None) == 3
    ensures ServiceRequiredVotes(3, Some(0)) == 3
  {
  }
}
