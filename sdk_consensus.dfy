/** The SDKs' consensus state machine (`addConsensusVote`, `executeMultiAgentTransaction`).
    The TypeScript and Python SDKs run the same rule: a vote must come from a listed validator
    that has not voted yet; after it is appended the transaction is authorized once the votes
    in favour reach the required number, and failed once every validator slot is filled. */
module SdkConsensus {
  import opened Wrappers
  import opened Ap2Types

  // ---------------------------------------------------------------------------------------
  // The tally

  /** `consensus_votes.filter(v => v.vote).length`. */
  function PositiveVotes(votes: seq<AgentConsensus>): (n: nat)
    ensures n <= |votes|
  {
    if votes == [] then 0
    else PositiveVotes(votes[..|votes| - 1]) + (if votes[|votes| - 1].vote then 1 else 0)
  }

  function Weight(v: AgentConsensus): nat {
    if v.vote then 1 else 0
  }

  lemma PositiveVotesAppend(votes: seq<AgentConsensus>, v: AgentConsensus)
    ensures PositiveVotes(votes + [v]) == PositiveVotes(votes) + Weight(v)
  {
    assert (votes + [v])[..|votes|] == votes;
  }

  lemma {:induction false} PositiveVotesConcat(a: seq<AgentConsensus>, b: seq<AgentConsensus>)
    ensures PositiveVotes(a + b) == PositiveVotes(a) + PositiveVotes(b)
    decreases |b|
  {
    if b != [] {
      var b' := b[..|b| - 1];
      assert a + b == (a + b') + [b[|b| - 1]];
      assert b == b' + [b[|b| - 1]];
      PositiveVotesAppend(a + b', b[|b| - 1]);
      PositiveVotesAppend(b', b[|b| - 1]);
      PositiveVotesConcat(a, b');
    } else {
      assert a + b == a;
    }
  }

  /** The tally does not depend on the order the votes arrived in. */
  lemma {:induction false} PositiveVotesPermutation(a: seq<AgentConsensus>, b: seq<AgentConsensus>)
    requires multiset(a) == multiset(b)
    ensures PositiveVotes(a) == PositiveVotes(b)
    decreases |a|
  {
    if a == [] {
      assert |multiset(b)| == 0;
    } else {
      var x := a[|a| - 1];
      var a' := a[..|a| - 1];
      assert a == a' + [x];
      assert x in multiset(b);
      var k :| 0 <= k < |b| && b[k] == x;
      var b' := b[..k] + b[k + 1..];
      assert b == b[..k] + [x] + b[k + 1..];
      assert multiset(b') == multiset(b) - multiset{x};
      assert multiset(a') == multiset(a) - multiset{x};
      PositiveVotesPermutation(a', b');
      PositiveVotesConcat(b[..k] + [x], b[k + 1..]);
      PositiveVotesConcat(b[..k], b[k + 1..]);
      PositiveVotesAppend(b[..k], x);
    }
  }

  /** The agent ids of the votes, in order. */
  function Voters(votes: seq<AgentConsensus>): (ids: seq<string>)
    ensures |ids| == |votes| && forall i :: 0 <= i < |votes| ==> ids[i] == votes[i].agentId
  {
    seq(|votes|, i requires 0 <= i < |votes| => votes[i].agentId)
  }

  /** `consensus_votes.find(v => v.agent_id === agentId)` finds something. */
  predicate HasVoted(votes: seq<AgentConsensus>, agentId: string) {
    exists i :: 0 <= i < |votes| && votes[i].agentId == agentId
  }

  predicate Distinct(s: seq<string>) {
    forall i, j :: 0 <= i < j < |s| ==> s[i] != s[j]
  }

  // ---------------------------------------------------------------------------------------
  // One vote

  datatype VoteError = NotAValidator(agentId: string) | AlreadyVoted(agentId: string)

  /** The message of the thrown error. */
  function VoteErrorMessage(e: VoteError): string {
    match e
    case NotAValidator(a) => "Agent " + a + " is not a validator for this transaction"
    case AlreadyVoted(a) => "Agent " + a + " has already voted"
  }

  /** `addConsensusVote(t, agentId, vote, signature)` at time `now`, on the transaction's value. */
  function Vote(t: MultiAgentTransaction, agentId: string, vote: bool, signature: string, now: Timestamp)
    : (r: Result<MultiAgentTransaction, VoteError>)
    ensures agentId !in t.validatorAgents ==> r == Failure(NotAValidator(agentId))
    ensures agentId in t.validatorAgents && HasVoted(t.consensusVotes, agentId) ==> r == Failure(AlreadyVoted(agentId))
    ensures r.Success? <==> agentId in t.validatorAgents && !HasVoted(t.consensusVotes, agentId)
    ensures r.Success? ==> r.value == t.(consensusVotes := t.consensusVotes + [AgentConsensus(agentId, vote, signature, now)],
                                         status := r.value.status)
    ensures r.Success? ==>
      var n := r.value;
      if PositiveVotes(n.consensusVotes) >= t.requiredVotes then n.status == Authorized
      else if |n.consensusVotes| == |t.validatorAgents| then n.status == Failed
      else n.status == t.status
  {
    if agentId !in t.validatorAgents then Failure(NotAValidator(agentId))
    else if HasVoted(t.consensusVotes, agentId) then Failure(AlreadyVoted(agentId))
    else
      var votes := t.consensusVotes + [AgentConsensus(agentId, vote, signature, now)];
      var status :=
        if PositiveVotes(votes) >= t.requiredVotes then Authorized
        else if |votes| == |t.validatorAgents| then Failed
        else t.status;
      Success(t.(consensusVotes := votes, status := status))
  }

  // ---------------------------------------------------------------------------------------
  // Execution

  datatype ExecError = NotAuthorized | TransferError(reason: string)

  /** What `executeMultiAgentTransaction` returns. */
  datatype ExecReceipt = ExecReceipt(
    transactionId: string,
    transferId: string,
    transferStatus: string,
    consensusVotes: nat,
    requiredVotes: int)

  /** The reply, the transaction afterwards, and the transfers asked of the bridge. */
  datatype Execution = Execution(result: Result<ExecReceipt, ExecError>, after: MultiAgentTransaction, calls: seq<TransferRequest>)

  function TransferFor(t: MultiAgentTransaction, fromWallet: string, toWallet: string): TransferRequest {
    TransferRequest(None, fromWallet, toWallet, t.amount, t.currency)
  }

  /** `executeMultiAgentTransaction(t, from, to)`: only an authorized transaction reaches the
      bridge; a transfer that throws leaves the status as it was. */
  function Execute(t: MultiAgentTransaction, fromWallet: string, toWallet: string, bridge: Bridge): (x: Execution)
    ensures t.status != Authorized ==> x == Execution(Failure(NotAuthorized), t, [])
    ensures t.status == Authorized ==> x.calls == [TransferFor(t, fromWallet, toWallet)]
    ensures x.result.Success? <==> t.status == Authorized && bridge(TransferFor(t, fromWallet, toWallet)).Transferred?
    ensures x.after == if x.result.Success? then t.(status := Completed) else t
    ensures x.result.Success? ==>
      var reply := bridge(TransferFor(t, fromWallet, toWallet));
      x.result.value == ExecReceipt(t.transactionId, reply.transferId, reply.transferStatus, |t.consensusVotes|, t.requiredVotes)
  {
    if t.status != Authorized then Execution(Failure(NotAuthorized), t, [])
    else
      var request := TransferFor(t, fromWallet, toWallet);
      match bridge(request)
      case BridgeFailed(reason) => Execution(Failure(TransferError(reason)), t, [request])
      case Transferred(id, transferStatus) =>
        Execution(Success(ExecReceipt(t.transactionId, id, transferStatus, |t.consensusVotes|, t.requiredVotes)),
                  t.(status := Completed), [request])
  }

  // ---------------------------------------------------------------------------------------
  // The transaction object the SDK methods update in place

  class Transaction {
    const transactionId: string
    const initiatorAgent: string
    const validatorAgents: seq<string>
    const requiredVotes: int
    var consensusVotes: seq<AgentConsensus>
    var status: PaymentStatus
    const amount: int
    const currency: string

    constructor (t: MultiAgentTransaction)
      ensures Value() == t
    {
      transactionId := t.transactionId;
      initiatorAgent := t.initiatorAgent;
      validatorAgents := t.validatorAgents;
      requiredVotes := t.requiredVotes;
      consensusVotes := t.consensusVotes;
      status := t.status;
      amount := t.amount;
      currency := t.currency;
    }

    function Value(): MultiAgentTransaction
      reads this
    {
      MultiAgentTransaction(transactionId, initiatorAgent, validatorAgents, requiredVotes, consensusVotes, status, amount, currency)
    }
  }

  /** `addConsensusVote`: appends the vote to the transaction and updates its status in place;
      a rejected vote throws and changes nothing. */
  method AddConsensusVote(t: Transaction, agentId: string, vote: bool, agentSignature: string, now: Timestamp)
    returns (r: Outcome<VoteError>)
    modifies t
    ensures match Vote(old(t.Value()), agentId, vote, agentSignature, now)
            case Success(n) => r == Pass && t.Value() == n
            case Failure(e) => r == Fail(e) && t.Value() == old(t.Value())
  {
    if agentId !in t.validatorAgents {
      return Fail(NotAValidator(agentId));
    }
    if HasVoted(t.consensusVotes, agentId) {
      return Fail(AlreadyVoted(agentId));
    }
    var consensus := AgentConsensus(agentId, vote, agentSignature, now);
    t.consensusVotes := t.consensusVotes + [consensus];
    var positiveVotes := PositiveVotes(t.consensusVotes);
    if positiveVotes >= t.requiredVotes {
      t.status := Authorized;
    } else if |t.consensusVotes| == |t.validatorAgents| {
      t.status := Failed;
    }
    r := Pass;
  }

  /** `executeMultiAgentTransaction`: asks the bridge for the transfer and marks the
      transaction completed once it returns. */
  method ExecuteMultiAgentTransaction(t: Transaction, fromWalletId: string, toWalletId: string, bridge: Bridge)
    returns (r: Result<ExecReceipt, ExecError>, calls: seq<TransferRequest>)
    modifies t
    ensures Execution(r, t.Value(), calls) == Execute(old(t.Value()), fromWalletId, toWalletId, bridge)
  {
    if t.status != Authorized {
      return Failure(NotAuthorized), [];
    }
    var request := TransferRequest(None, fromWalletId, toWalletId, t.amount, t.currency);
    calls := [request];
    var reply := bridge(request);
    if reply.BridgeFailed? {
      return Failure(TransferError(reply.reason)), calls;
    }
    t.status := Completed;
    r := Success(ExecReceipt(t.transactionId, reply.transferId, reply.transferStatus, |t.consensusVotes|, t.requiredVotes));
  }

  // ---------------------------------------------------------------------------------------
  // What every reachable transaction satisfies

  /** Every vote comes from a listed validator, and no validator voted twice. */
  predicate WellFormedVotes(t: MultiAgentTransaction) {
    Distinct(Voters(t.consensusVotes))
    && forall i :: 0 <= i < |t.consensusVotes| ==> t.consensusVotes[i].agentId in t.validatorAgents
  }

  /** The status the votes so far call for. */
  function Tally(t: MultiAgentTransaction): PaymentStatus {
    if t.consensusVotes == [] then Pending
    else if PositiveVotes(t.consensusVotes) >= t.requiredVotes then Authorized
    else if |t.consensusVotes| == |t.validatorAgents| then Failed
    else Pending
  }

  /** The invariant: well-formed votes, and a status that is the tally's, or completed after
      an authorizing tally. */
  predicate Consistent(t: MultiAgentTransaction) {
    WellFormedVotes(t) && (t.status == Tally(t) || (t.status == Completed && Tally(t) == Authorized))
  }

  lemma {:induction false} DistinctCard(s: seq<string>)
    requires Distinct(s)
    ensures |set x | x in s| == |s|
  {
    if s != [] {
      DistinctCard(s[1..]);
      assert (set x | x in s) == (set x | x in s[1..]) + {s[0]};
      assert s[0] !in (set x | x in s[1..]);
    }
  }

  lemma {:induction false} SeqSetCard(s: seq<string>)
    ensures |set x | x in s| <= |s|
  {
    if s != [] {
      SeqSetCard(s[1..]);
      assert (set x | x in s) == (set x | x in s[1..]) + {s[0]};
    }
  }

  lemma SubsetCard<T>(a: set<T>, b: set<T>)
    requires a <= b
    ensures |a| <= |b|
    decreases a
  {
    if a != {} {
      var x :| x in a;
      SubsetCard(a - {x}, b - {x});
    }
  }

  /** Distinct voters drawn from the validator list never outnumber it. */
  lemma VotesBounded(t: MultiAgentTransaction)
    requires WellFormedVotes(t)
    ensures |t.consensusVotes| <= |t.validatorAgents|
  {
    var ids := Voters(t.consensusVotes);
    DistinctCard(ids);
    SubsetCard(set x | x in ids, set x | x in t.validatorAgents);
    SeqSetCard(t.validatorAgents);
  }

  /** When the votes fill every slot, every listed validator has voted. */
  lemma FullMeansAllVoted(t: MultiAgentTransaction, agentId: string)
    requires WellFormedVotes(t) && |t.consensusVotes| == |t.validatorAgents|
    requires agentId in t.validatorAgents
    ensures HasVoted(t.consensusVotes, agentId)
  {
    var ids := Voters(t.consensusVotes);
    var voted := set x | x in ids;
    var listed := set x | x in t.validatorAgents;
    if !HasVoted(t.consensusVotes, agentId) {
      DistinctCard(ids);
      SeqSetCard(t.validatorAgents);
      SubsetCard(voted, listed - {agentId});
      assert false;
    }
  }

  /** A freshly initiated transaction satisfies the invariant. */
  lemma FreshIsConsistent(t: MultiAgentTransaction)
    requires t.consensusVotes == [] && t.status == Pending
    ensures Consistent(t)
  {
    assert Voters(t.consensusVotes) == [];
  }

  /** An accepted vote keeps the invariant. */
  lemma VoteKeepsConsistent(t: MultiAgentTransaction, agentId: string, vote: bool, signature: string, now: Timestamp)
    requires Consistent(t)
    requires Vote(t, agentId, vote, signature, now).Success?
    ensures Consistent(Vote(t, agentId, vote, signature, now).value)
  {
    var n := Vote(t, agentId, vote, signature, now).value;
    var v := AgentConsensus(agentId, vote, signature, now);
    assert Voters(n.consensusVotes) == Voters(t.consensusVotes) + [agentId];
    assert WellFormedVotes(n);
    VotesBounded(n);
    PositiveVotesAppend(t.consensusVotes, v);
  }

  /** An execution keeps the invariant. */
  lemma ExecuteKeepsConsistent(t: MultiAgentTransaction, fromWallet: string, toWallet: string, bridge: Bridge)
    requires Consistent(t)
    ensures Consistent(Execute(t, fromWallet, toWallet, bridge).after)
  {
  }

  /** Once the votes in favour reach the threshold, every later accepted vote leaves the
      transaction authorized; this holds for a completed transaction too, which the late vote
      sends back to authorized. */
  lemma AuthorizedAfterConsensus(t: MultiAgentTransaction, agentId: string, vote: bool, signature: string, now: Timestamp)
    requires Consistent(t) && (t.status == Authorized || t.status == Completed)
    requires Vote(t, agentId, vote, signature, now).Success?
    ensures Vote(t, agentId, vote, signature, now).value.status == Authorized
  {
    PositiveVotesAppend(t.consensusVotes, AgentConsensus(agentId, vote, signature, now));
  }

  /** A failed transaction accepts no further vote: every validator has already voted. */
  lemma FailedIsFinal(t: MultiAgentTransaction, agentId: string, vote: bool, signature: string, now: Timestamp)
    requires Consistent(t) && t.status == Failed
    ensures Vote(t, agentId, vote, signature, now).Failure?
  {
    if agentId in t.validatorAgents {
      FullMeansAllVoted(t, agentId);
    }
  }

  /** Nothing reaches the bridge without a tally that authorizes it. */
  lemma NoTransferWithoutConsensus(t: MultiAgentTransaction, fromWallet: string, toWallet: string, bridge: Bridge)
    requires Consistent(t)
    requires Execute(t, fromWallet, toWallet, bridge).calls != []
    ensures t.consensusVotes != [] && PositiveVotes(t.consensusVotes) >= t.requiredVotes
  {
  }

  /** The run below: two validators, one vote required, and the votes of both. */
  const TwoValidators := MultiAgentTransaction("t", "i", ["a", "b"], 1, [], Pending, 100, "USD")
  const VoteA := AgentConsensus("a", true, "sa", 1)
  const VoteB := AgentConsensus("b", false, "sb", 2)

  lemma FirstVoteAuthorizes()
    ensures Vote(TwoValidators, "a", true, "sa", 1) == Success(TwoValidators.(consensusVotes := [VoteA], status := Authorized))
  {
    assert !HasVoted(TwoValidators.consensusVotes, "a");
    PositiveVotesAppend([], VoteA);
  }

  lemma LateVoteReauthorizes()
    ensures Vote(TwoValidators.(consensusVotes := [VoteA], status := Completed), "b", false, "sb", 2)
         == Success(TwoValidators.(consensusVotes := [VoteA, VoteB], status := Authorized))
  {
    var done := TwoValidators.(consensusVotes := [VoteA], status := Completed);
    assert !HasVoted(done.consensusVotes, "b");
    assert [VoteA] + [VoteB] == [VoteA, VoteB];
    assert PositiveVotes([VoteA, VoteB]) == 1 by {
      PositiveVotesAppend([VoteA], VoteB);
      PositiveVotesAppend([], VoteA);
    }
  }

  /** A transaction initiated with two validators and one required vote is authorized, executed,
      re-authorized by the second validator's vote, and executed again: the bridge is asked for
      the same transfer twice. */
  lemma CompletedTransactionPaysTwice(bridge: Bridge)
    requires bridge(TransferRequest(None, "w1", "w2", 100, "USD")).Transferred?
    ensures
      var t1 := Vote(TwoValidators, "a", true, "sa", 1);
      t1.Success? &&
      var x1 := Execute(t1.value, "w1", "w2", bridge);
      var t2 := Vote(x1.after, "b", false, "sb", 2);
      t2.Success? &&
      var x2 := Execute(t2.value, "w1", "w2", bridge);
      x1.result.Success? && x2.result.Success?
      && x1.calls + x2.calls == [TransferRequest(None, "w1", "w2", 100, "USD"), TransferRequest(None, "w1", "w2", 100, "USD")]
  {
    FirstVoteAuthorizes();
    LateVoteReauthorizes();
    var t1 := TwoValidators.(consensusVotes := [VoteA], status := Authorized);
    assert Execute(t1, "w1", "w2", bridge).after == TwoValidators.(consensusVotes := [VoteA], status := Completed);
  }

  // ---------------------------------------------------------------------------------------
  // Runs of votes

  /** Ballots that a transaction accepts one after another: listed validators that have not
      voted, each appearing once. */
  predicate Admissible(t: MultiAgentTransaction, ballots: seq<AgentConsensus>) {
    (forall i :: 0 <= i < |ballots| ==>
       ballots[i].agentId in t.validatorAgents && !HasVoted(t.consensusVotes, ballots[i].agentId))
    && Distinct(Voters(ballots))
  }

  /** The votes cast in order; the first rejection ends the run. */
  function Run(t: MultiAgentTransaction, ballots: seq<AgentConsensus>): Result<MultiAgentTransaction, VoteError>
    decreases |ballots|
  {
    if ballots == [] then Success(t)
    else
      var b := ballots[0];
      match Vote(t, b.agentId, b.vote, b.signature, b.timestamp)
      case Failure(e) => Failure(e)
      case Success(n) => Run(n, ballots[1..])
  }

  /** The first ballot of an admissible run is accepted, and the rest stay admissible. */
  lemma AdmissibleStep(t: MultiAgentTransaction, ballots: seq<AgentConsensus>)
    requires Admissible(t, ballots) && ballots != []
    ensures Vote(t, ballots[0].agentId, ballots[0].vote, ballots[0].signature, ballots[0].timestamp).Success?
    ensures Admissible(Vote(t, ballots[0].agentId, ballots[0].vote, ballots[0].signature, ballots[0].timestamp).value, ballots[1..])
  {
    var b := ballots[0];
    var n := Vote(t, b.agentId, b.vote, b.signature, b.timestamp).value;
    forall i | 1 <= i < |ballots| ensures !HasVoted(n.consensusVotes, ballots[i].agentId) {
      assert Voters(ballots)[0] != Voters(ballots)[i];
    }
    assert Voters(ballots[1..]) == Voters(ballots)[1..];
  }

  /** An admissible run is accepted in full, appends exactly its ballots, keeps the invariant
      and never completes the transaction. */
  lemma {:induction false} RunAccepted(t: MultiAgentTransaction, ballots: seq<AgentConsensus>)
    requires Consistent(t) && t.status != Completed && Admissible(t, ballots)
    ensures Run(t, ballots).Success?
    ensures Run(t, ballots).value == t.(consensusVotes := t.consensusVotes + ballots, status := Run(t, ballots).value.status)
    ensures Consistent(Run(t, ballots).value) && Run(t, ballots).value.status != Completed
    decreases |ballots|
  {
    if ballots == [] {
      assert t.consensusVotes + ballots == t.consensusVotes;
    } else {
      var b := ballots[0];
      AdmissibleStep(t, ballots);
      VoteKeepsConsistent(t, b.agentId, b.vote, b.signature, b.timestamp);
      var n := Vote(t, b.agentId, b.vote, b.signature, b.timestamp).value;
      RunAccepted(n, ballots[1..]);
      assert n.consensusVotes == t.consensusVotes + [b];
      AppendFirst(t.consensusVotes, ballots);
    }
  }

  lemma AppendFirst<T>(s: seq<T>, xs: seq<T>)
    requires xs != []
    ensures s + xs == (s + [xs[0]]) + xs[1..]
  {
    assert xs == [xs[0]] + xs[1..];
  }

  /** The SDK's outcome does not depend on the order the votes arrive in: two admissible
      orderings of the same ballots on a fresh transaction end in the same status. */
  lemma SdkOrderIrrelevant(t: MultiAgentTransaction, a: seq<AgentConsensus>, b: seq<AgentConsensus>)
    requires t.consensusVotes == [] && t.status == Pending
    requires Admissible(t, a) && Admissible(t, b) && multiset(a) == multiset(b)
    ensures Run(t, a).Success? && Run(t, b).Success?
    ensures Run(t, a).value.status == Run(t, b).value.status
  {
    FreshIsConsistent(t);
    RunAccepted(t, a);
    RunAccepted(t, b);
    assert t.consensusVotes + a == a && t.consensusVotes + b == b;
    PositiveVotesPermutation(a, b);
    assert |multiset(a)| == |a| && |multiset(b)| == |b|;
  }
}
