# Agent-payment protocol (AP2) — a Dafny model

This project models the agent-payment protocol of the Bridge integration. It covers three cooperating parts and proves properties of each.

**The two SDKs.** The TypeScript and Python `AP2Protocol` share one design:
- **Signed mandates.** A signature is the hash of a canonical JSON text followed by the agent key. A mandate is refused once it has expired.
- **Agent signatures** over arbitrary objects.
- **Multi-agent transactions:**
  - initiation, which sets the number of required votes;
  - the vote state machine, `pending → authorized | failed`;
  - execution through the payment bridge, which sets `completed`.
- **`AP2SecurityManager`:**
  - an agent registry, in which the last registration wins;
  - a security check: a hard minimum of validators, plus an advisory Byzantine-tolerance warning.

**The backend service.** `AP2Service` runs the same protocol over Postgres tables, with its own vote rule.

**Two backend helpers.** The request validators of the HTTP middleware, and the `UPDATE` statement builder of `AgentService.updateAgent`.

## Modules

| file | module | models |
|---|---|---|
| `wrappers.dfy` | `Wrappers` | `Option`, `Result`, `Outcome` |
| `text.dfy` | `Text` | decimal rendering, `join`, the UTF-16 code-unit order of `sort()` and the code-point order of Python's `sorted` |
| `json.dfy` | `Json` | JSON values; `JSON.stringify(o, Object.keys(o).sort())`; `json.dumps(o, sort_keys=True)` |
| `ap2_types.dfy` | `Ap2Types` | the protocol's records and enumerations; exact `floor`/`ceil`/`int()` of `n × threshold` |
| `byzantine.dfy` | `Byzantine` | `validateByzantineTolerance` |
| `ts_protocol.dfy` | `TsProtocol` | mandates, agent signatures and initiation in the TypeScript SDK |
| `py_protocol.dfy` | `PyProtocol` | the same in the Python SDK, and `verify_mandate` as written |
| `sdk_consensus.dfy` | `SdkConsensus` | `addConsensusVote` / `executeMultiAgentTransaction`, identical in both SDKs, on a `Transaction` object |
| `security.dfy` | `Security` | `AP2SecurityManager`, identical in both SDKs |
| `service.dfy` | `Service` | `AP2Service`: a class whose fields are the tables |
| `validation.dfy` | `Validation` | `validateCustomerCreate`, `validateTransfer`, `validateAgent`, `isValidEmail` |
| `agent_update.dfy` | `AgentUpdate` | the assignment and parameter builder of `updateAgent` |

## How the environment is modelled

- **Hashes.** SHA-256 is a parameter `hash: string -> string`. Ids (uuid, the service's transaction id) and clocks (`Date.now()`, `datetime.now()`) are parameters too.
- **The payment bridge** is a parameter `bridge: TransferRequest -> BridgeReply`. A method also returns the transfer requests it issued (`calls`), so "the bridge is never called" is a statement about that sequence.
- **Thresholds** are exact rationals. The default 0.67 is `67/100`. The SDKs use `Math.floor` / `int()` of the product, and the service uses `Math.ceil`.
- **The database** is the `Ap2Service` object:
  - `agents` maps an agent id to `(user_id, is_active)`;
  - `customers` maps a user id to the bridge customer id;
  - `transactions` maps a `transaction_id` to its row;
  - `votes`, `mandates` and `actions` are sequences of rows.

## Noteworthy behaviour

- **Service default for three validators.** The service's default for three validators is 3 required votes, not 2: `Math.ceil(3 × 0.67) = 3` (`Service.ServiceDefaultVotes`).
- **SDK votes on finished transactions.** The SDK vote never checks the transaction's status. A valid vote on a completed transaction therefore re-authorizes it, and the same transfer can be executed twice (`SdkConsensus.CompletedTransactionPaysTwice`).
- **Service vote rule.** The service decides on the first `required` votes, and authorizes only when all of them are in favour (`Service.ServiceDecidesOnFirstVotes`). So the outcome depends on vote order (`Service.ServiceOrderMatters`), while the SDKs' does not (`SdkConsensus.SdkOrderIrrelevant`).
- **Nested metadata in TypeScript signatures.** The replacer array of the TypeScript canonical form also filters nested objects. Metadata keys that are not top-level field names are not signed (`TsProtocol.MetadataBeyondFieldNamesUnsigned`).

## Model

| member | source | states |
|---|---|---|
| Byzantine.MaxFaulty | bridge-integration/sdk/typescript/src/ap2-integration.ts:232 | `floor((total-1)/3)` is the largest f with 3f+1 ≤ total, also for total ≤ 0 |
| Byzantine.ValidateByzantineTolerance | bridge-integration/sdk/typescript/src/ap2-integration.ts:231-234 | tolerance holds iff 3·faulty + 1 ≤ total; the Python twin (`ap2_integration.py` lines 270-277) behaves the same |
| Ap2Types.FloorTimes | bridge-integration/sdk/typescript/src/ap2-integration.ts:143 | `Math.floor(n·r)` on the exact product: v·den ≤ n·num < (v+1)·den |
| Ap2Types.CeilTimes | bridge-integration/backend/services/ap2-service.ts:171 | `Math.ceil(n·0.67)` on the exact product: (v−1)·den < n·num ≤ v·den |
| Ap2Types.TruncTimes | bridge-integration/sdk/python/ap2_integration.py:195 | `int(n·r)` truncates toward zero: floor for a non-negative product, ceiling-like bounds for a negative one |
| Ap2Types.RoleText | bridge-integration/sdk/typescript/src/types.ts:41-45 | every role is written as one of `initiator`, `validator`, `executor` |
| Text.NatTextRoundTrip | bridge-integration/backend/services/agent-service.ts:56 | the decimal rendering used in placeholders reads back as the number, so it is injective |
| Text.LessTotal | bridge-integration/sdk/typescript/src/ap2-integration.ts:56 | in both orders, UTF-16 code units for `sort()` and code points for `sort_keys=True` (`ap2_integration.py` line 114), any two distinct names compare one way; with LessIrreflexive, LessAsymmetric and LessTransitive each is a strict total order |
| Text.Utf16Injective | bridge-integration/sdk/typescript/src/ap2-integration.ts:56 | distinct strings have distinct UTF-16 encodings, so comparing code units never makes two different names equal |
| Text.CollationsDiffer | bridge-integration/sdk/typescript/src/ap2-integration.ts:56 | the two orders disagree: U+FF61 sorts before U+1F600 by code point but after it by code unit, whose first unit is a surrogate 0xD83D |
| Json.SortCanonical | bridge-integration/sdk/typescript/src/ap2-integration.ts:56 | two objects with the same distinct properties sort to the same sequence, whatever their creation order |
| Json.StrictlySortedUnique | bridge-integration/sdk/python/ap2_integration.py:114 | a strictly key-sorted arrangement of given properties is unique |
| Json.TsCanonOrderIndependent | bridge-integration/sdk/typescript/src/ap2-integration.ts:56 | the TypeScript canonical text depends only on the set of properties, not their order |
| Json.TsCanonNestedFiltered | bridge-integration/sdk/typescript/src/ap2-integration.ts:79 | the property list filters nested objects too: nested objects that agree on the listed names give the same text |
| Json.PyDumpsOrderIndependent | bridge-integration/sdk/python/ap2_integration.py:114 | `json.dumps(sort_keys=True)` of a dict depends only on its items, not their insertion order |
| TsProtocol.CreateMandate | bridge-integration/sdk/typescript/src/ap2-integration.ts:35-66 | the mandate carries the given fields and the instance's agent; metadata defaults to `{}`; the signature is the hash of the canonical text of every other field plus the instance key |
| TsProtocol.VerifyMandate | bridge-integration/sdk/typescript/src/ap2-integration.ts:71-86 | false whenever expiry < now (expiry = now is not expired); otherwise true iff the stored signature equals the recomputed one |
| TsProtocol.MandateRoundTrip | bridge-integration/sdk/typescript/src/ap2-integration.ts:35-86 | a created mandate verifies with the same key exactly while now ≤ expiry |
| TsProtocol.MetadataBeyondFieldNamesUnsigned | bridge-integration/sdk/typescript/src/ap2-integration.ts:78-85 | replacing the metadata by one that agrees on the top-level field names does not change whether the mandate verifies |
| TsProtocol.NestedNoteIsNotSigned | bridge-integration/sdk/typescript/src/ap2-integration.ts:78-85 | a verified mandate with metadata `{note: "a"}` still verifies with `{note: "b"}` |
| TsProtocol.CreateAgentSignature | bridge-integration/sdk/typescript/src/ap2-integration.ts:239-261 | the created signature passes `verifyAgentSignature` under the instance's key, and it is the only string that does |
| TsProtocol.VerifyAgentSignature | bridge-integration/sdk/typescript/src/ap2-integration.ts:250-261 | true iff the signature equals the hash of the canonical text of the data followed by the key passed in (not the instance's); the round trip and uniqueness are stated on `CreateAgentSignature` |
| TsProtocol.AgentSignatureOrderIndependent | bridge-integration/sdk/typescript/src/ap2-integration.ts:239-245 | the agent signature does not depend on property order |
| TsProtocol.Initiate | bridge-integration/sdk/typescript/src/ap2-integration.ts:137-155 | a pending transaction with no votes and the given fields; required votes are the argument if non-zero, else `floor(n·threshold)`, where a missing or zero threshold becomes 0.67; the result satisfies the consensus invariant |
| TsProtocol.TsRequiredVotes | bridge-integration/sdk/typescript/src/ap2-integration.ts:143 | a non-zero argument is kept as it is; an absent or zero argument gives the floor r of n·threshold, r·den ≤ n·num < (r+1)·den |
| TsProtocol.DefaultRequiredVotes | bridge-integration/sdk/typescript/src/ap2-integration.ts:29 | without a configured threshold the default is `floor(67n/100)`, which is below n for every n > 0 |
| TsProtocol.ExplicitZeroIsDefault | bridge-integration/sdk/typescript/src/ap2-integration.ts:143 | `requiredVotes = 0` initiates the same transaction as no argument |
| PyProtocol.CreateMandate | bridge-integration/sdk/python/ap2_integration.py:88-120 | the signature is the hash of `json.dumps(fields, sort_keys=True)` over every field but the signature, metadata included, plus the key |
| PyProtocol.VerifyMandate | bridge-integration/sdk/python/ap2_integration.py:122-138 | as intended: false when expiry < now, before any hashing; otherwise true iff the stored signature equals the recomputed one |
| PyProtocol.MandateRoundTrip | bridge-integration/sdk/python/ap2_integration.py:88-138 | a created mandate verifies (as intended) exactly while now ≤ expiry |
| PyProtocol.MandateDictDistinct | bridge-integration/sdk/python/ap2_integration.py:96-105 | the dict that is signed has eight distinct keys, so no entry shadows another |
| PyProtocol.MandateTextOrderIndependent | bridge-integration/sdk/python/ap2_integration.py:114 | the signed text does not depend on dict insertion order |
| PyProtocol.Without | bridge-integration/sdk/python/ap2_integration.py:132 | `pop("signature")` leaves exactly the other items |
| PyProtocol.DumpsChecked | bridge-integration/sdk/python/ap2_integration.py:133 | `json.dumps` fails with a `TypeError` exactly when some value is a datetime |
| PyProtocol.VerifyMandateAsWritten | bridge-integration/sdk/python/ap2_integration.py:122-138 | the code as written: an expired mandate is `False` before anything is serialised, and the only failure is the datetime `TypeError` of `json.dumps` |
| PyProtocol.AsWrittenRaisesOnLiveMandate | bridge-integration/sdk/python/ap2_integration.py:126-133 | as written, every unexpired mandate makes `verify_mandate` raise, while the intended check succeeds iff the signature matches |
| PyProtocol.CreateAgentSignature | bridge-integration/sdk/python/ap2_integration.py:279-299 | the created signature passes `verify_agent_signature` under the instance's key, and it is the only string that does |
| PyProtocol.VerifyAgentSignature | bridge-integration/sdk/python/ap2_integration.py:287-299 | true iff the signature equals the hash of `json.dumps(data, sort_keys=True)` followed by the key passed in (not the instance's); the round trip and uniqueness are stated on `CreateAgentSignature` |
| PyProtocol.AgentSignatureOrderIndependent | bridge-integration/sdk/python/ap2_integration.py:279-285 | the agent signature does not depend on key order |
| PyProtocol.Initiate | bridge-integration/sdk/python/ap2_integration.py:184-205 | a pending transaction with no votes; an explicit count is kept (0 included); `None` gives `int(n·threshold)`; the consensus invariant holds |
| PyProtocol.DefaultsAgreeExceptExplicitZero | bridge-integration/sdk/python/ap2_integration.py:194-195 | with the same positive threshold both SDKs default alike; an explicit 0 stays 0 in Python and becomes the default in TypeScript |
| PyProtocol.ZeroRequiredAuthorizesFirstVote | bridge-integration/sdk/python/ap2_integration.py:230-233 | with `required_votes=0` the first vote of any validator, even against, authorizes |
| SdkConsensus.PositiveVotes | bridge-integration/sdk/typescript/src/ap2-integration.ts:186 | the count of votes in favour never exceeds the number of votes |
| SdkConsensus.PositiveVotesPermutation | bridge-integration/sdk/typescript/src/ap2-integration.ts:186 | the tally does not depend on vote order |
| SdkConsensus.Vote | bridge-integration/sdk/typescript/src/ap2-integration.ts:160-195 | a non-validator, then a repeat voter, is refused; otherwise exactly one vote is appended and the status becomes authorized if positives ≥ required, else failed if every slot is filled, else is unchanged; nothing else changes; the Python twin (`ap2_integration.py` lines 207-240) behaves the same |
| SdkConsensus.AddConsensusVote | bridge-integration/sdk/typescript/src/ap2-integration.ts:160-195 | the in-place update of the transaction object: the new object state is `Vote` of the old one, and a refused vote changes nothing |
| SdkConsensus.Execute | bridge-integration/sdk/typescript/src/ap2-integration.ts:200-226 | unless authorized: an error, no transfer, no change; otherwise exactly one transfer, and completed only when it returns; the Python twin (`ap2_integration.py` lines 242-268) behaves the same |
| SdkConsensus.ExecuteMultiAgentTransaction | bridge-integration/sdk/typescript/src/ap2-integration.ts:200-226 | the in-place update: reply, new state and bridge calls are those of `Execute` |
| SdkConsensus.VotesBounded | bridge-integration/sdk/typescript/src/ap2-integration.ts:166-174 | distinct listed voters never outnumber the validator list |
| SdkConsensus.FullMeansAllVoted | bridge-integration/sdk/typescript/src/ap2-integration.ts:189 | when the vote count equals the list length, every listed validator has voted |
| SdkConsensus.FreshIsConsistent | bridge-integration/sdk/typescript/src/ap2-integration.ts:146-154 | a freshly initiated transaction satisfies the invariant (votes well formed; status is the tally, or completed after an authorizing tally) |
| SdkConsensus.VoteKeepsConsistent | bridge-integration/sdk/typescript/src/ap2-integration.ts:183-192 | an accepted vote keeps the invariant |
| SdkConsensus.ExecuteKeepsConsistent | bridge-integration/sdk/typescript/src/ap2-integration.ts:205-217 | an execution keeps the invariant |
| SdkConsensus.AuthorizedAfterConsensus | bridge-integration/sdk/typescript/src/ap2-integration.ts:186-188 | once authorized (or completed), every accepted later vote leaves the transaction authorized |
| SdkConsensus.FailedIsFinal | bridge-integration/sdk/typescript/src/ap2-integration.ts:189-191 | a failed transaction refuses every further vote |
| SdkConsensus.NoTransferWithoutConsensus | bridge-integration/sdk/typescript/src/ap2-integration.ts:205-207 | a transfer is requested only for a transaction whose votes in favour reach the requirement |
| SdkConsensus.CompletedTransactionPaysTwice | bridge-integration/sdk/typescript/src/ap2-integration.ts:166-192 | with no pending check, a late vote re-authorizes a completed transaction and the same transfer is requested twice |
| SdkConsensus.RunAccepted | bridge-integration/sdk/typescript/src/ap2-integration.ts:160-195 | a run of distinct listed validators is accepted in full, appends exactly its ballots, keeps the invariant and never completes |
| SdkConsensus.SdkOrderIrrelevant | bridge-integration/sdk/typescript/src/ap2-integration.ts:186-192 | two orderings of the same ballots on a fresh transaction end in the same status |
| Security.SecurityManager.constructor | bridge-integration/sdk/typescript/src/ap2-integration.ts:268-271 | the required count is the argument, 3 by default, and the registry starts empty |
| Security.SecurityManager.RegisterAgent | bridge-integration/sdk/typescript/src/ap2-integration.ts:276-288 | the entry for the id is set, replacing any earlier one; other ids are untouched; the Python twin (`ap2_integration.py` lines 319-332) behaves the same |
| Security.SecurityManager.GetAgent | bridge-integration/sdk/typescript/src/ap2-integration.ts:293-295 | the registered entry, or nothing for an unknown id |
| Security.SecurityManager.ValidateTransactionSecurity | bridge-integration/sdk/typescript/src/ap2-integration.ts:300-327 | valid iff there are at least `requiredAgents` validators, with exactly the minimum error otherwise; the warning is given iff required votes < (n+1) − floor(n/3), and never affects `valid`; the Python twin (`ap2_integration.py` lines 338-364) behaves the same |
| Security.TsDefaultWarnsBelow300 | bridge-integration/sdk/typescript/src/ap2-integration.ts:143 | with the TypeScript default, the tolerance warning is raised for every validator count from 1 to 299 |
| Security.TsDefaultQuietAt300 | bridge-integration/sdk/typescript/src/ap2-integration.ts:320-324 | at 300 validators the TypeScript default raises no warning |
| Security.ServiceDefaultWarning | bridge-integration/backend/services/ap2-service.ts:171 | for 0 < n < 100 validators the service default raises the warning iff n is not a multiple of 3 |
| Service.Ap2Service.constructor | bridge-integration/backend/services/ap2-service.ts:21-25 | the tables are as given, and the security manager requires 3 validators |
| Service.Ap2Service.GetAgent | bridge-integration/backend/services/ap2-service.ts:54-60 | the agent row, or nothing |
| Service.FirstUnusable | bridge-integration/backend/services/ap2-service.ts:163-168 | the first listed validator that is missing or inactive, with every earlier one usable; none iff all are usable |
| Service.ServiceRequiredVotes | bridge-integration/backend/services/ap2-service.ts:171 | the count if non-zero, else `ceil(67n/100)` |
| Service.ServiceMandate | bridge-integration/backend/services/ap2-service.ts:95-108 | the SDK mandate for the agent and key, expiring `expiryHours` (24 by default) after now; it verifies at once iff the hours are not negative |
| Service.Ap2Service.CreateMandate | bridge-integration/backend/services/ap2-service.ts:78-129 | a missing or inactive agent is refused before any signing or insert; otherwise exactly one mandate row is added and the mandate returned |
| Service.Ap2Service.InitiateConsensusTransaction | bridge-integration/backend/services/ap2-service.ts:148-218 | the initiator is checked first, then validators in list order, the error naming the first unusable one, with no change; otherwise a pending row is inserted, and the call fails on fewer than 3 validators only after that insert |
| Service.VotesFor | bridge-integration/backend/services/ap2-service.ts:267-272 | exactly the stored votes of this transaction |
| Service.VotesForAppend | bridge-integration/backend/services/ap2-service.ts:259-272 | storing a vote appends it to the list of its own transaction and leaves every other transaction's list as it was |
| Service.VotesForConcat | bridge-integration/backend/services/ap2-service.ts:267-272 | the votes a transaction reads back are those of earlier rows followed by those of later rows, each in insertion order |
| Service.PositivesAppend | bridge-integration/backend/services/ap2-service.ts:273 | `votes.filter(v => v.vote).length`, read from the `vote` column one ballot per row in order, grows by one for a vote in favour and is unchanged otherwise; it never exceeds the number of votes |
| Service.ServiceNextStatus | bridge-integration/backend/services/ap2-service.ts:276-281 | authorized iff positives ≥ required (or already authorized); failed once votes ≥ required without them; otherwise unchanged |
| Service.AcceptedVoteIsRunStep | bridge-integration/backend/services/ap2-service.ts:259-281 | the status an accepted vote writes is one step of the service's vote run from the tally before that vote |
| Service.RecordVote | bridge-integration/backend/services/ap2-service.ts:258-297 | an accepted vote adds exactly its row; the transaction's status becomes the vote run's next step over the earlier votes of that transaction, written with `updated_at` only when it leaves pending; the reply counts the earlier votes plus this one |
| Service.VoteOutcome | bridge-integration/backend/services/ap2-service.ts:220-298 | the refusals in the order the service checks them (not found, not pending, voter missing or inactive, already voted); a vote is recorded iff none applies, and then as `RecordVote` says |
| Service.Ap2Service.AddConsensusVote | bridge-integration/backend/services/ap2-service.ts:220-298 | the object's tables and reply are `VoteOutcome`'s: a refusal changes no table, an accepted vote changes them as `RecordVote` says |
| Service.Ap2Service.ExecuteConsensusTransaction | bridge-integration/backend/services/ap2-service.ts:300-378 | unless authorized, no transfer; a missing initiator or customer also stops it before the transfer; a failed transfer changes nothing and the row stays authorized; success sets completed, `completed_at` and the transfer id, and logs one `consensus_payment` action |
| Service.ServiceDecidesOnFirstVotes | bridge-integration/backend/services/ap2-service.ts:238-281 | the service decides on the first `required` votes and authorizes only when all of them are in favour |
| Service.ServiceOrderMatters | bridge-integration/backend/services/ap2-service.ts:276-281 | with 2 required, [against, for, for] fails while [for, for, against] authorizes |
| Service.ServiceDefaultVotes | bridge-integration/backend/services/ap2-service.ts:171 | the default is 3 for 3 validators and 3 for 4, and an explicit 0 gives the default |
| Validation.IsValidEmail | bridge-integration/backend/middleware/validation.ts:49-52 | the computed check accepts exactly the language of `/^[^\s@]+@[^\s@]+\.[^\s@]+$/` |
| Validation.EmailPatternByParts | bridge-integration/backend/middleware/validation.ts:50 | the pattern matches iff there is no whitespace, exactly one `@`, not first, and a `.` in the domain that is neither its first nor last character |
| Validation.SecondAtRefused | bridge-integration/backend/middleware/validation.ts:50 | an address with two `@` signs anywhere in it is refused |
| Validation.SpaceRefused | bridge-integration/backend/middleware/validation.ts:50 | an address containing any JavaScript whitespace character is refused |
| Validation.ValidateCustomerCreate | bridge-integration/backend/middleware/validation.ts:6-18 | `next` iff both fields are truthy and the email matches; otherwise 400 "userId and email are required" when a field is falsy, and only with both present 400 "Invalid email format" |
| Validation.ValidateTransfer | bridge-integration/backend/middleware/validation.ts:20-32 | `next` iff all five fields are truthy and `amount <= 0` is false; otherwise 400 "Missing required fields" when any field is falsy (an amount of 0 included), and only with all present 400 "Amount must be positive" |
| Validation.ZeroAmountIsMissing | bridge-integration/backend/middleware/validation.ts:23 | amount 0 is "Missing required fields" |
| Validation.NegativeAmountRefused | bridge-integration/backend/middleware/validation.ts:27-29 | a negative amount is "Amount must be positive" |
| Validation.NonNumericAmountPasses | bridge-integration/backend/middleware/validation.ts:27 | a non-numeric string amount passes, since NaN ≤ 0 is false |
| Validation.ValidateAgent | bridge-integration/backend/middleware/validation.ts:34-47 | `next` iff all five fields are truthy and the role is one of the three role names; otherwise 400 "Missing required fields" when any field is falsy, and only with all present 400 "Invalid agent role" |
| Validation.EveryRoleAccepted | bridge-integration/backend/middleware/validation.ts:41-42 | each protocol role passes the role check |
| Validation.MissingFieldBeforeFormat | bridge-integration/backend/middleware/validation.ts:9-15 | a missing user id is reported whatever the email |
| AgentUpdate.Kept | bridge-integration/backend/services/agent-service.ts:54-60 | kept exactly the updates whose value is not `undefined` (null kept) |
| AgentUpdate.PlanUpdate | bridge-integration/backend/services/agent-service.ts:52-68 | no statement iff no update is kept; otherwise the bound values are the kept values in key order followed by the agent id |
| AgentUpdate.BuildUpdate | bridge-integration/backend/services/agent-service.ts:49-72 | the loop produces the plan: no statement when nothing is kept, otherwise the numbered assignments and their values, then the agent id |
| AgentUpdate.NothingToSet | bridge-integration/backend/services/agent-service.ts:62-64 | the stored agent is returned without an update iff every value is `undefined` |
| AgentUpdate.PlaceholdersMatchValues | bridge-integration/backend/services/agent-service.ts:52-68 | the k-th assignment uses `$k` and binds the k-th kept value; the agent id is bound last at `$(kept+1)`; values = kept + 1 |
| AgentUpdate.AgentIdPlaceholderIsLast | bridge-integration/backend/services/agent-service.ts:68 | the agent id's placeholder differs from every assignment's |
| AgentUpdate.KeptConcat | bridge-integration/backend/services/agent-service.ts:54-59 | the kept updates of a concatenation are those of the first part followed by those of the second, so the filter never reorders keys |
| AgentUpdate.KeptIsOrderedFilter | bridge-integration/backend/services/agent-service.ts:54-59 | assignments follow key order: an update adds one at the end iff its value is not `undefined` |

## Left out

- **Hashes, ids and clocks.** SHA-256 is uninterpreted, so no tamper-detection property is claimed. `uuid`, `Date.now()`, `datetime.now()` and the service's `txn_…` id are parameters.
- **Transaction ids.** `Service.Ap2Service.InitiateConsensusTransaction` requires the generated transaction id to be new to the table, which is an assumption about the id generator.
- **Floating point.**
  - `n × 0.67` is taken as the exact 67n/100, and thresholds are exact rationals.
  - The float product can round above an integer, where `Math.ceil` then adds one (e.g. n = 1500). The model does not capture that.
  - Amounts are integers.
  - The service's `expiryHours` is an integer number of hours; a fractional value such as 1.5, which the default parameter accepts, is not modelled.
  - Python's float coercion of `amount` is not modelled.
- **Timestamps.** `toISOString()` / `isoformat()` are rendered as a fixed decimal text of the timestamp. Only the fact that the text is determined by the timestamp is used.
- **Database.**
  - The service's vote rows are keyed by `transaction_id`, not by the row's internal `id`.
  - Stored JSON columns are kept as values.
  - The `users` lookup in execution, whose result is unused, is not modelled.
  - Database failures and `RETURNING` rows are not modelled.
- **Concurrency.** The service's check-then-insert race on duplicate votes, and async interleavings, are not modelled. Methods run sequentially.
- **Other service operations.** `registerAgent`, `listUserAgents`, `updateAgentStatus`, `getMandate`, `verifyMandate` (a one-line SDK call), `processAgentPayment`, the X402 request, and the action and spending queries are not part of this model.
- **HTTP plumbing.**
  - The middleware's `res.status(...).json(...)` / `next()` calls are the `Verdict` value.
  - Express, routes, authentication and the error handler are not part of this model.
- **Number parsing.** `Validation.ToNumber` reads strings of the form sign, digits, optional fraction. Exponents, surrounding whitespace, hex and `Infinity` read as NaN, and an object's `valueOf` is taken to be its string form.
- **Non-string emails.** `Validation.EmailOk` treats `String(v)` of a number, boolean, null or undefined as containing no `@`, which holds for JavaScript's renderings.
- **Regex engine.** The regex engine itself is not modelled; the email pattern is given as an explicit language.
- **Python verify as written.** `PyProtocol.VerifyMandateAsWritten` models the exception as a `Failure`, not as a raised `TypeError`.
- **Runtime quirks of comparison and number printing.** Two behaviours of the host languages are not modelled: `mandate.expiry < datetime.now()` raises `TypeError` when the expiry carries a time zone, because `datetime.now()` is naive (`ap2_integration.py` line 127), and timestamps are plain integers; and `JSON.stringify` writes numbers of 1e21 and above in exponent form (`ap2-integration.ts` lines 56 and 79), while `Text.IntText` always writes plain digits.

## Findings

| source | as written | input that shows it | evidently intended | confidence | as-written member | corrected member |
|---|---|---|---|---|---|---|
| bridge-integration/sdk/python/ap2_integration.py:131-133 | `mandate.model_dump()` keeps `expiry` as a `datetime`, which `json.dumps` cannot serialise; `create_mandate` had signed `expiry.isoformat()` | any mandate with `expiry >= now`, for instance one `create_mandate` has just returned | recompute the signature over the same dict `create_mandate` signed, so a fresh mandate verifies | not executed | PyProtocol.AsWrittenRaisesOnLiveMandate | PyProtocol.MandateRoundTrip |
