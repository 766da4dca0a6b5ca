# Verified model of jev_reflex

jev_reflex stands between coding agents and the actions they ask for. This project models the
stateful and branching core of it in Dafny and proves what that core promises. `dafny verify
dfyconfig.toml` checks everything.

| File | Models | Main results |
|---|---|---|
| `Authority.dfy`, `AuthorityHistory.dfy` | `authority.py`: delegated leases | over all runs: `_chain` succeeds exactly when nothing on the path is revoked and the clock is in the leaf's window; exactly which issues and uses are accepted, and what `_chain` returns from any store, tampered with or not; authority only shrinks; no replay; revocation is final for the subtree; `tree` is exactly the subtree |
| `AgentState.dfy`, `ControlStore.dfy`, `RewrittenStores.dfy` | `agent_state.py`: scopes, containment, the authenticated table; what its readers notice | containment is transitive; what a rewrite without the key can make readable is exactly what was put under that key; a replay takes an older version of the lease row; a deleted action record is always noticed |
| `Intent.dfy` | `intent.py`: action lineages and drift | over all runs: `_lineage` never fails and is exactly the session's records, and what it returns from any store; exactly which actions are recorded and allowed; closed sessions never allow again |
| `Policy.dfy`, `PolicyMerge.dfy`, `PolicyRollout.dfy`, `Aggregation.dfy` | `policy.py`, `policy_source.py`, `policy_rollout.py`, `evaluator.py` | exact characterisations of ALLOW, HOLD and every reason; monotonicity; exactly when a local override loosens; exactly which log lines are replayed; aggregates of ALLOW samples |
| `McpGateway.dfy`, `GatewayProtocol.dfy`, `GatewayAnswers.dfy`, `JsonPointer.dfy` | `mcp_gateway.py` | over all interleavings: a pinned tool's call is forwarded exactly on a page of a scan that still stands; exactly which pages are accepted; exactly when a call gets one answer; exactly which texts the pointer evaluator reads as RFC 6901 does |
| `Audit.dfy`, `Json.dfy` | `audit.py`: the hash chain | exactly which logs are valid, for both verifiers; interleaved writers keep the chain; equal tips mean equal payloads; an edited record is noticed |
| `Compaction.dfy` | `evaluator.py`, `context.py` | the size bound; exactly which stage's state is kept and when none is; the text searches are optimal; lists are kept whole or dropped |
| `StreamFraming.dfy`, `CutIndependence.dfy`, `Approvals.dfy`, `GitStatus.dfy` (with `ByteStrings.dfy`) | `workspace/process.py`, `workspace/streaming.py`, `git_inspection.py`, `workspace/state.py` | agreement with the newline split and independence of the cuts, each exactly when; one-shot decisions, allowed exactly for the issued action; two parsers that agree and invert a printer |

Code that changes state or loops is a method, mostly of a class with the source's fields, and its
contract equates the result and the whole new state with a specification function. The theorems are
about those functions, over `Run(ops)` for every list of operations with any clock readings, any
generated identifiers and any storage refusals. `None` stands for the source's exceptions. A
transaction is one atomic step; a refused operation leaves the store as it was.

## Where the code differs from what is said of it

- `docs/security.md` lines 217-227 say a local override can only tighten. `PolicyMerge.LooseningExact`
  proves when it does not: with nothing else asking for attention, a risk confidence between the
  merged and the central review threshold, or a central mode `review` raised to `enforce`, turns
  REVIEW into ALLOW. `PolicyMerge.TightenOnlyExact` gives the condition on the two policies alone.
- `docs/security.md` line 222 orders the modes advisory, enforce, review; `merge_policies` orders them
  advisory, review, enforce. The model follows the code, and this is the second opening above.
- `_pointer_value` accepts the decimal digits of every script as an array index, where section 4 of
  RFC 6901 allows 0 to 9 only. It also evaluates texts that are no pointers, and finds nothing for the
  empty one, which is the whole document. `JsonPointer.PointerExact`: a text is evaluated on all values as
  the RFC does if and only if it is a non-empty pointer and none of its tokens is a number written with
  other digits. The configuration admits only non-empty pointers (`config.py` lines 309-312), so the
  digits are what remains.
- A call can get two answers. `GatewayAnswers.AnswersExact`: it has exactly one if its forward returned,
  or if the failure path still found its pending entry and no reply is processed after that; otherwise
  two. The failure path runs when the write raises and when the pin was revoked meanwhile. The entry
  can be gone because the timer fired, upstream replied or upstream ended; a reply can come after it
  because a write that raises may have arrived.
- The delivered events are those of the newline split for every way of cutting the output into chunks
  if and only if no line exceeds `max_buffer` (`StreamFraming.FramingExact`). Where
  distinct lines give distinct events, the cuts make no difference at all if and only if every line fits,
  or the finished lines do, the trailing piece is one byte over the limit, and no read can hold it together
  with a newline before it: there is none, or `max_buffer` + 2 exceeds the read size, as the default does
  (`CutIndependence.CutsExact`).
- Submodule records appended to a status stream without a last separator would run into its last
  name and add no path (`GitStatus.AppendExact`); git always writes the separator.
- The MAC of a control record does not date it: what can be made readable without the key is every
  version ever put under that key (`ControlHistory.ReadableExact`).
- `compact_state` searches the changed files and the arguments only once none of them fit. As a JSON list
  grows with every item, the searches keep none: each list is kept whole or dropped whole
  (`Compaction.ListsAreAllOrNothing`).

## Model

| member | source | states |
|---|---|---|
| Authority.AuthorityStore.CheckUses | src/jev_reflex/authority.py:37-43 | the replay-state checks of one lease: the number of use records equals the use count and each names the lease |
| Authority.AuthorityStore.Chain | src/jev_reflex/authority.py:21-48 | the loop with its growing list and set computes the guarded ancestor walk |
| Authority.AuthorityStore.Issue | src/jev_reflex/authority.py:68-130 | the whole new store and the returned lease, or the store unchanged on every refusal |
| Authority.AuthorityStore.Validate | src/jev_reflex/authority.py:132-178 | records the use and bumps the count exactly when the chain, the bindings and the requested authority pass; otherwise nothing changes |
| Authority.AuthorityStore.CheckLive | src/jev_reflex/authority.py:180-184 | passes exactly for a live chain whose leaf belongs to this subject and session |
| Authority.AuthorityStore.Revoke | src/jev_reflex/authority.py:190-194 | marks exactly the named lease revoked |
| Authority.AuthorityStore.Tree | src/jev_reflex/authority.py:196-202 | the repeated selection rounds over all stored leases |
| AuthorityHistory.IssueKeepsInv | src/jev_reflex/authority.py:68-130 | issuing keeps the inductive invariant of the store |
| AuthorityHistory.ValidateKeepsInv | src/jev_reflex/authority.py:132-178 | so does validating |
| AuthorityHistory.RevokeKeepsInv | src/jev_reflex/authority.py:190-194 | so does revoking |
| AuthorityHistory.WalkExact | src/jev_reflex/authority.py:24-48 | from any point of an honest walk the loop returns the rest of the ancestry, or stops at a revoked or out-of-window lease |
| AuthorityHistory.ChainExact | src/jev_reflex/authority.py:21-66 | in every reachable store `_chain` succeeds exactly when no ancestor is revoked and the clock is in the leaf's window: cycle, depth, use-count, binding and subset guards never fire |
| AuthorityHistory.AcceptedUseIsConfined | src/jev_reflex/authority.py:147-159 | what an accepted use asks for is inside the capabilities and scopes, and outside the forbidden set, of every ancestor at any depth |
| AuthorityHistory.NoReplay | src/jev_reflex/authority.py:161-177 | no (lease, nonce) pair is accepted twice in any run |
| AuthorityHistory.UseExact | src/jev_reflex/authority.py:132-178 | in every reachable store a use is accepted exactly when the lease is live, its subject, session, repository, environment and revision are those of the request, the capabilities and resources asked for lie inside it, no earlier accepted use had this nonce and there is room; it adds one use record and one to the count |
| AuthorityHistory.UseAnywhere | src/jev_reflex/authority.py:132-178 | in any store, tampered with or not, exactly when a use is accepted: a whole chain above the lease, the lease's own bindings and authority, an unused key and room |
| AuthorityHistory.IssueExact | src/jev_reflex/authority.py:68-130 | in every reachable store an issue is accepted exactly when the request is well formed, a named parent is live and lets its holder hand all of it on, and there is room; the stored lease field by field |
| AuthorityHistory.RevocationIsFinal | src/jev_reflex/authority.py:190-194 | no use is accepted if any ancestor was revoked at any earlier moment |
| AuthorityHistory.RevokeExact | src/jev_reflex/authority.py:190-194 | in every reachable store exactly a stored lease can be revoked, and nothing but its flag changes |
| AuthorityHistory.RevokedSubtreeIsDead | src/jev_reflex/authority.py:190-194 | after an accepted revocation no use is accepted of the lease or of anything below it |
| AuthorityHistory.ChainAnywhere | src/jev_reflex/authority.py:21-66 | in any store, tampered with or not, `_chain` returns exactly the path of distinct, unrevoked, current leases with agreeing use records, each a subset of the next, that ends in a root within the depth limit |
| AuthorityHistory.TreeExact | src/jev_reflex/authority.py:196-202 | in every reachable store `tree` lists exactly the rows of the lease and all its transitive descendants, in insertion order |
| AgentState.CheckResources | src/jev_reflex/agent_state.py:98-110 | true exactly when there are resources and each is literal, resolvable and inside a scope |
| AgentState.ResourcesExact | src/jev_reflex/agent_state.py:98-110 | what that means in path components: relative, without "..", and with the components of one of the scopes in front |
| AgentState.ContainedTransitive | src/jev_reflex/agent_state.py:89-95 | path-prefix containment is transitive through a set of scopes |
| AgentState.ScopeRoundTrip | src/jev_reflex/agent_state.py:71-86 | a stored scope parses back to the path it was written from |
| AgentState.ScopesKeepMeaning | src/jev_reflex/agent_state.py:71-95 | the normalised scopes confine exactly what the given texts confine |
| ControlStore.AuthenticatedStore.Get | src/jev_reflex/agent_state.py:170-184 | returns the object of a row of the right key, size and MAC, and nothing otherwise |
| ControlStore.AuthenticatedStore.Put | src/jev_reflex/agent_state.py:186-214 | inserts or replaces exactly one sealed row; every refusal changes nothing |
| ControlStore.AuthenticatedStore.List | src/jev_reflex/agent_state.py:216-222 | the ids of one namespace in insertion order |
| ControlHistory.FrameBinds | src/jev_reflex/agent_state.py:165-168 | the NUL-joined text under the MAC determines namespace, id and payload |
| ControlHistory.FrameAmbiguous | src/jev_reflex/agent_state.py:165-168 | with a NUL inside a part it does not |
| ControlHistory.GotExact | src/jev_reflex/agent_state.py:170-184 | a record reads back exactly when its row is there, within the size, with the MAC of namespace, id and payload joined by NUL, and loads as an object |
| ControlHistory.StoredExact | src/jev_reflex/agent_state.py:186-214 | a put is accepted exactly within the size and, as new, on an unused key with room, as an update, on a key that is there; it adds or replaces this one row |
| ControlHistory.IdsExact | src/jev_reflex/agent_state.py:216-222 | a namespace lists the ids of exactly its rows in insertion order |
| ControlHistory.ReadWasPut | src/jev_reflex/agent_state.py:170-184 | however the file is rewritten without the key along the way, a record that reads back was put with this content under this key |
| ControlHistory.ReadableExact | src/jev_reflex/agent_state.py:170-214 | after any run, what a rewrite without the key can make a record read as is exactly what was ever put under its key |
| ControlHistory.ReadIsLatest | src/jev_reflex/agent_state.py:170-214 | without such rewriting a read returns the last accepted put of its key |
| RewrittenAuthority.ReplayNeedsOlderLease | src/jev_reflex/authority.py:37-43 | whatever a rewrite without the key deletes or puts back, a used (lease, nonce) is not accepted again unless a rewrite puts an older version of the lease into its row; the row may be deleted and put back |
| RewrittenIntent.MissingRecordIsNoticed | src/jev_reflex/intent.py:79-94 | however deletions and restored records are interleaved with operations, while no older version of the envelope is put back the lineage is refused exactly when one of the session's records is missing and is whole otherwise, and the drift sums all records ever made |
| Intent.IntentStore.Create | src/jev_reflex/intent.py:30-77 | the new envelope on an unused session id, or nothing |
| Intent.IntentStore.Lineage | src/jev_reflex/intent.py:79-94 | the guarded walk from the tip, reversed |
| Intent.IntentStore.Evaluate | src/jev_reflex/intent.py:96-154 | the recorded action and updated envelope, or nothing |
| Intent.IntentStore.Collect | src/jev_reflex/intent.py:115-132 | the list of evidence against an action |
| Intent.IntentStore.Stop | src/jev_reflex/intent.py:166-170 | marks exactly this session stopped |
| IntentHistory.CreateExact | src/jev_reflex/intent.py:30-77 | a session is opened exactly by a well-formed request on an unused id with room; the envelope field by field |
| IntentHistory.EvaluateExact | src/jev_reflex/intent.py:96-154 | in every reachable store an action is recorded exactly for an open session with fewer than the maximum of records and room; the record, its causes and the envelope field by field |
| IntentHistory.EvidenceExact | src/jev_reflex/intent.py:115-132 | the evidence is the list of all kinds, in order, without those that have no cause |
| IntentHistory.StopExact | src/jev_reflex/intent.py:166-170 | exactly an existing session can be stopped, and nothing but its flag changes |
| IntentHistory.StoppedNeverAllows | src/jev_reflex/intent.py:110-170 | after an accepted stop no action of the session is allowed again |
| IntentHistory.AllowedExact | src/jev_reflex/intent.py:115-145 | an action is allowed exactly when it stays inside its envelope |
| IntentHistory.RunKeepsInv | src/jev_reflex/intent.py:30-170 | every run keeps the invariant of the store |
| IntentHistory.LineageExact | src/jev_reflex/intent.py:79-94 | in every reachable store `_lineage` succeeds with exactly the session's records; count, tip and drift of the envelope and the running drift of each record agree with it |
| IntentHistory.LineageAnywhere | src/jev_reflex/intent.py:79-94 | in any store, tampered with or not, `_lineage` returns exactly the trail of distinct records of the session from the tip to one without a parent, if it is as long as the envelope counts |
| IntentHistory.LineagesDisjoint | src/jev_reflex/intent.py:79-94 | no record is in two sessions' lineages |
| IntentHistory.ClosedSessionsNeverAllow | src/jev_reflex/intent.py:110-154 | once stopped or over its drift limit a session never again records an allowed action |
| IntentHistory.AllowedWithinDrift | src/jev_reflex/intent.py:130-145 | every record ever allowed was within the drift limit |
| Policy.Decide | src/jev_reflex/policy.py:35-152 | the decision and the exact set of triggered rules |
| Policy.CollectNear | src/jev_reflex/policy.py:75-89 | the signals near a boundary, and which boundary, in conservative mode with a positive margin |
| Policy.CollectHolds | src/jev_reflex/policy.py:91-107 | the hold_on signals past the hold threshold and not near it |
| Policy.CollectSignals | src/jev_reflex/policy.py:111-124 | the signals that ask for a review, each with its band |
| Policy.ThresholdsExact | src/jev_reflex/config.py:47-57 | which thresholds are accepted, and `hold` taking the place of `strong` |
| Policy.TriggeredExact | src/jev_reflex/policy.py:50-152 | a decision has reasons exactly when it is not ALLOW, and a blocking or hold_on reason exactly when it is HOLD |
| Policy.RulesExact | src/jev_reflex/policy.py:50-152 | when each rule is among the reasons, in the fields of the findings, signals and thresholds |
| Policy.AllowExact | src/jev_reflex/policy.py:50-152 | ALLOW exactly when no finding blocks or needs review, every signal is below the review line, risk is low, confidence absent or at least review, mode is not review and nothing is degraded |
| Policy.HoldExact | src/jev_reflex/policy.py:50-107 | HOLD exactly on a triggered blocking finding or a hold_on signal, the semantic alias of wrong_repo included, past the hold line |
| Policy.DecideMonotone | src/jev_reflex/policy.py:35-152 | more alarming inputs never give a less severe decision |
| Policy.ExecutionMeaning | src/jev_reflex/policy.py:213-225 | what may run in each mode, and never more on a more severe decision |
| PolicyMerge.MergeTightensSettings | src/jev_reflex/policy_source.py:182-287 | the merge of valid policies is valid with strong above review, each setting the stricter of the two or the union of both, all others the centre's; without an override it is the centre |
| PolicyMerge.MergeIdempotent | src/jev_reflex/policy_source.py:182-287 | merging the same override again changes nothing |
| PolicyMerge.MergeOrderIrrelevant | src/jev_reflex/policy_source.py:182-287 | the order of two overrides does not matter |
| PolicyMerge.LooseningExact | src/jev_reflex/policy_source.py:182-287 | the merged decision is weaker exactly in the two openings |
| PolicyMerge.HoldSurvives | src/jev_reflex/policy_source.py:203-250 | a central HOLD is a HOLD after the merge |
| PolicyMerge.TightenOnlyExact | src/jev_reflex/policy_source.py:182-287 | an override tightens on all inputs if and only if the result is review mode, or the review threshold is kept and the centre is not review mode |
| PolicyMerge.ExecutionExact | src/jev_reflex/policy.py:213-225 | execution newly permitted by the merge exactly when review is raised to enforce, nothing is degraded and the decision is not HOLD |
| PolicyMerge.BandExample | src/jev_reflex/policy_source.py:231-250 | a concrete override under which REVIEW becomes ALLOW |
| PolicyRollout.Simulate | src/jev_reflex/policy_rollout.py:25-104 | the report of a log: each counter, the change table, examples and new allows and holds |
| PolicyRollout.Count | src/jev_reflex/policy_rollout.py:56-101 | the effect of one line on the report |
| PolicyRollout.OutcomeExact | src/jev_reflex/policy_rollout.py:56-101 | which lines are replayed and with which two decisions, and which counter each other line moves, in the fields of the line |
| PolicyRollout.ChangedAt | src/jev_reflex/policy_rollout.py:56-101 | each changed line is in the list of changes at its place, with its own number, decisions and summary |
| PolicyRollout.ReportBalances | src/jev_reflex/policy_rollout.py:33-104 | total is replayed plus the three skip counts; examples are min(100, sum of changes) |
| PolicyRollout.MergedReplayNeverLoosens | src/jev_reflex/policy_rollout.py:56-101 | over any log a merged candidate weakens no HOLD, and turns REVIEW into ALLOW for no entry exactly when no replayed entry is in an opening |
| PolicyRollout.SimulateMerged | src/jev_reflex/policy_rollout.py:25-104 | the report for a merged candidate counts no new allow exactly when no replayed entry is in an opening |
| Aggregation.AggregateBounds | src/jev_reflex/evaluator.py:367-372 | median, mean and max lie between the least and the greatest value |
| Aggregation.MedianIsMiddle | src/jev_reflex/evaluator.py:367-372 | the median splits a sorted permutation of the values in halves |
| Aggregation.MeanWeighs | src/jev_reflex/evaluator.py:367-372 | the mean of one value is that value, and joining two groups weighs their means by their sizes |
| Aggregation.MaximumIsLargest | src/jev_reflex/evaluator.py:367-372 | the maximum is one of the values and no value is larger |
| Aggregation.AggregateExact | src/jev_reflex/evaluator.py:375-416 | the aggregate field by field: every name of any sample, missing ones counting as zero, the score and its level or the vote, the least confidence, degraded if any sample is |
| Aggregation.VoteWins | src/jev_reflex/evaluator.py:375-416 | the chosen risk is outvoted by no other, ties going to the least severe |
| Aggregation.AllAllowExact | src/jev_reflex/evaluator.py:375-416 | if every sample alone is ALLOW, the aggregate is ALLOW exactly when the aggregated risk score, if any, is below 0.67 |
| Aggregation.AllAllowWithLowScores | src/jev_reflex/evaluator.py:375-416 | so it is when every score is absent or below 0.67 |
| Aggregation.SharedHoldHolds | src/jev_reflex/evaluator.py:375-416 | a hold_on signal past the hold line in every sample holds the aggregate |
| McpGateway.Gateway.InvalidateCatalogLocked | src/jev_reflex/mcp_gateway.py:121-124 | a new generation with nothing validated and no cursors |
| McpGateway.Gateway.ValidateToolCatalog | src/jev_reflex/mcp_gateway.py:126-180 | the new catalog and whether the client gets an error, for every page and scan |
| McpGateway.Gateway.ScanPage | src/jev_reflex/mcp_gateway.py:146-171 | the loop over the tools of one page, on a copy of the validated map |
| McpGateway.Gateway.SchemaIsVerified | src/jev_reflex/mcp_gateway.py:182-187 | unpinned, or validated with the pinned digest |
| McpGateway.Gateway.HandleList | src/jev_reflex/mcp_gateway.py:363-381 | a catalog request is registered with the generation of its scan, unless its id is taken |
| McpGateway.Gateway.OnReply | src/jev_reflex/mcp_gateway.py:276-293 | what a reply takes out of the pending, catalog and expired tables |
| McpGateway.Gateway.OnTimer | src/jev_reflex/mcp_gateway.py:249-256 | a timer answers exactly when its call was still pending |
| McpGateway.ScanExact | src/jev_reflex/mcp_gateway.py:146-171 | an accepted page adds pinned tools it lists, with their pinned digests, and nothing else |
| McpGateway.ScanAcceptsExactly | src/jev_reflex/mcp_gateway.py:146-171 | exactly the pages without a bad entry, a wrong digest or a repeated pinned tool are accepted |
| McpGateway.PageExact | src/jev_reflex/mcp_gateway.py:121-180 | for every answer to a tools/list: which is passed on, which is an error to the client and which revokes the scan; an accepted page adds exactly the pinned tools it lists and remembers its cursor |
| McpGateway.CompletedScanIsPins | src/jev_reflex/mcp_gateway.py:172-180 | an accepted last page leaves the validated map equal to the pins; a refused one revokes the scan |
| GatewayTrust.StepKeepsTrust | src/jev_reflex/mcp_gateway.py:121-180 | every step keeps generations, cursors, open requests and the validated map in agreement with the history, which records requests and the pages that answer them and no generation |
| GatewayTrust.ForwardedOnlyWhileVerified | src/jev_reflex/mcp_gateway.py:439-455 | in every interleaving a pinned tool's call is forwarded only if an accepted page listed it with the pinned digest and nothing was invalidated since the first request of the scan of the request that page answers, followed back cursor by cursor |
| GatewayTrust.VerdictExact | src/jev_reflex/mcp_gateway.py:121-180 | in every interleaving a page is accepted, revokes its scan or is passed over without a trace but an error to the client, and the history and the page alone decide which |
| GatewayTrust.VerifiedExact | src/jev_reflex/mcp_gateway.py:439-455 | in every interleaving the schema check passes exactly for tools not pinned and those a page of a scan that still stands has vouched for |
| GatewayTrust.ForwardExact | src/jev_reflex/mcp_gateway.py:432-461 | a registered call is forwarded, unless its write fails, exactly in that case |
| GatewayTrust.CallGetsThrough | src/jev_reflex/mcp_gateway.py:384-438 | in every interleaving a well-formed call of a free id that nothing else weighs against is registered exactly when its tool is not pinned or vouched for; else it is refused without a trace |
| GatewayTrust.RefusedAtOnce | src/jev_reflex/mcp_gateway.py:363-400 | an id pending or being listed is refused as a duplicate and a malformed call at once, without touching the shared state |
| GatewayTrust.ReplyExact | src/jev_reflex/mcp_gateway.py:276-293 | where a reply goes: to the catalog check, to the client, or nowhere after its timer answered |
| GatewayTrust.ScanVerifies | src/jev_reflex/mcp_gateway.py:121-180 | an undisturbed scan of one clean page that lists every pinned tool verifies them all and the client gets the page |
| GatewayTrust.ShutdownTellsAll | src/jev_reflex/mcp_gateway.py:296-302 | when upstream ends every pending call is told so and the reader finishes with the last |
| GatewayTrust.ClientGoesOn | src/jev_reflex/mcp_gateway.py:351-461 | the client thread is stuck in no state |
| GatewayTrust.ReaderGoesOn | src/jev_reflex/mcp_gateway.py:249-302 | nor is the reader before its end, nor a timer |
| GatewayTrust.CompletedScan | src/jev_reflex/mcp_gateway.py:146-180 | in every interleaving a completed scan leaves the validated map equal to the pins |
| GatewayAnswers.RunKeepsInv | src/jev_reflex/mcp_gateway.py:249-302 | every disciplined interleaving keeps the accounting of owed answers |
| GatewayAnswers.AnswersExact | src/jev_reflex/mcp_gateway.py:432-461 | a registered call the client thread is done with has one answer, owed or sent, if and only if its forward returned or its failure found the pending entry and no reply is processed later; otherwise two |
| GatewayAnswers.SentExact | src/jev_reflex/mcp_gateway.py:432-461 | once no thread holds the call, that is the number of answers sent |
| GatewayAnswers.ExactlyOneAnswerOwed | src/jev_reflex/mcp_gateway.py:249-302 | a call whose forward returned is owed or has received exactly one of reply, timeout and shutdown error |
| GatewayAnswers.AnsweredWhenSettled | src/jev_reflex/mcp_gateway.py:249-302 | once no thread holds it, its one answer has been sent |
| GatewayAnswers.RaisedForwardAnswersTwice | src/jev_reflex/mcp_gateway.py:456-461 | one of the interleavings in which a failed forward gives two answers |
| JsonPointer.PointerValue | src/jev_reflex/mcp_gateway.py:189-204 | the loop evaluates the split pointer segment by segment, errors included |
| JsonPointer.UnescapeInvertsEscape | src/jev_reflex/mcp_gateway.py:193 | the two replacements, in this order, undo the escaping |
| JsonPointer.PointerSegments | src/jev_reflex/mcp_gateway.py:192 | splitting a pointer gives back its escaped tokens |
| JsonPointer.PointerFindsReferenced | src/jev_reflex/mcp_gateway.py:189-204 | any non-empty token list evaluates to the value RFC 6901 section 4 says it references |
| JsonPointer.PointerExact | src/jev_reflex/mcp_gateway.py:189-204 | for every text: evaluation agrees with the RFC's reading of it on all values, errors included, if and only if it is non-empty, well formed (what config.py:309-312 demands) and no token is a number written with digits other than 0 to 9 |
| JsonPointer.TwoPassesAreOne | src/jev_reflex/mcp_gateway.py:193 | on every text the two replacements decode exactly as one pass from the left does |
| JsonPointer.SegmentsExact | src/jev_reflex/mcp_gateway.py:189-204 | for every text: evaluation is reference by the text's decoded segments on all values if and only if no segment is such a number |
| JsonPointer.TokensExact | src/jev_reflex/mcp_gateway.py:189-204 | agreement with the RFC on all values, by the same condition, for a pointer made of given tokens |
| JsonPointer.RfcExact | src/jev_reflex/mcp_gateway.py:196-201 | the evaluator as a whole meets the RFC if and only if isdecimal accepts 0 to 9 only |
| JsonPointer.ForeignDigit | src/jev_reflex/mcp_gateway.py:196-201 | a digit of another script indexes an array |
| JsonPointer.PathRoundTrip | src/jev_reflex/mcp_gateway.py:189-204 | escaping any non-empty path of keys and indexes and evaluating it returns the value at that path |
| Audit.ChainTip | src/jev_reflex/audit.py:25-47 | the last hash and next number of a valid chain, and a refusal of everything else |
| Audit.CheckLine | src/jev_reflex/audit.py:481-502 | accepts exactly a well-chained record |
| Audit.ChainExact | src/jev_reflex/audit.py:25-47 | a log is valid exactly when there are hashes from the genesis hash on such that each record carries its number, the hash before and the hash after it, which is that of the one before and its other fields |
| Audit.Verify | src/jev_reflex/audit.py:453-522 | intact for a missing log; broken for a key that does not load; otherwise intact exactly for a valid chain whose signatures, if asked for, verify |
| Audit.VerifiersAgree | src/jev_reflex/audit.py:25-47 | the log can be appended to exactly when unsigned verify accepts it |
| Audit.ReadBack | src/jev_reflex/audit.py:94-140 | both entry kinds re-hash to their stored hash, given that the text of this record loads with the same chain fields and canonical payload |
| Audit.HashDictSays | src/jev_reflex/audit.py:94-125 | the hashed record says what the entry is, field by field, with replay inputs and hook only when given |
| Audit.StoredSays | src/jev_reflex/audit.py:127-140 | the stored record adds only the hash over the previous hash and the canonical text, and the signature |
| Audit.HashDictBinds | src/jev_reflex/audit.py:94-125 | no two entries or places in the chain share a hashed record |
| Audit.AuditLog.Append | src/jev_reflex/audit.py:318-367 | one chained and signed entry on a valid log, nothing on a damaged one |
| Audit.AppendKeepsChain | src/jev_reflex/audit.py:369-406 | the written entry extends the chain and becomes its tip |
| Audit.StepKeepsGood | src/jev_reflex/audit.py:333-367 | each lock, read, write and unlock step, also unlocking after a writer has raised, keeps the lock discipline and the chain |
| Audit.InterleavedWritersKeepChain | src/jev_reflex/audit.py:318-406 | any interleaving of any number of writers, some of which raise before writing, keeps a valid log valid with one entry per write, and a damaged log untouched |
| Audit.LoneWriterFinishes | src/jev_reflex/audit.py:318-367 | while nobody holds the lock a writer goes through: its entry at the tip of a valid log, nothing on a damaged one, the lock free again |
| Audit.SameTipSamePayloads | src/jev_reflex/audit.py:40-46 | logs with equal tip hashes have equal payloads, or exhibit a collision or a preimage of the genesis hash |
| Audit.EditIsNoticed | src/jev_reflex/audit.py:453-522 | editing the hashed fields of a record in place spoils the log, or exhibits a hash collision at that record |
| Context.TruncateLength | src/jev_reflex/context.py:31-43 | the length is exactly min(len, limit); a text that fits is untouched |
| Context.TruncateKeepsEnds | src/jev_reflex/context.py:31-43 | past the marker's length a cut text keeps a true head and tail that do not overlap |
| Compaction.JevState.FitTextField | src/jev_reflex/evaluator.py:193-206 | the field after its search, everything else unchanged |
| Compaction.JevState.SearchText | src/jev_reflex/evaluator.py:198-206 | the loop that mutates the field leaves the text of the found limit |
| Compaction.JevState.FitChangedFiles | src/jev_reflex/evaluator.py:214-229 | the kept prefix of the changed files |
| Compaction.JevState.FitProposedAction | src/jev_reflex/evaluator.py:233-271 | the reduced action |
| Compaction.JevState.FitCommand | src/jev_reflex/evaluator.py:240-253 | the bounded command |
| Compaction.JevState.FitArgv | src/jev_reflex/evaluator.py:254-271 | the kept, bounded arguments |
| Compaction.JevState.CompactState | src/jev_reflex/evaluator.py:182-285 | the whole sequence of stages on the mutable state |
| Compaction.CompactIsBounded | src/jev_reflex/evaluator.py:182-285 | for any size function the result is empty or within the limit, and a fitting state is untouched |
| Compaction.KeptWhenever | src/jev_reflex/evaluator.py:182-285 | whatever the sizes are, a state is kept if the least left at any of the stages fits |
| Compaction.CompactExact | src/jev_reflex/evaluator.py:182-285 | with JSON's sizes: which stage's state is the result, and exactly when it is the bare type or empty |
| Compaction.SearchLargest | src/jev_reflex/evaluator.py:198-205 | where passing is downward closed the search finds the largest value that passes |
| Compaction.SearchResult | src/jev_reflex/evaluator.py:198-205 | with no assumption it ends at its start or at a value that passes |
| Compaction.FilesBoundary | src/jev_reflex/evaluator.py:214-229 | whatever the sizes are, the files kept are none or a prefix that fits, and one more would not fit |
| Compaction.ArgumentsBoundary | src/jev_reflex/evaluator.py:254-271 | so it is with the arguments, each bounded to 1,000 characters |
| Compaction.FitTextLargest | src/jev_reflex/evaluator.py:193-206 | a field that can be saved is cut to the largest limit that fits |
| Compaction.FitCommandLargest | src/jev_reflex/evaluator.py:239-253 | a command that can be saved is cut to the largest limit that fits |
| Compaction.FilesAreAllOrNothing | src/jev_reflex/evaluator.py:214-229 | where fitting is downward closed no changed file is kept once the list is touched |
| Compaction.ArgumentsAreAllOrNothing | src/jev_reflex/evaluator.py:254-271 | where fitting is downward closed no argument is kept once the action is reduced |
| Compaction.ListsAreAllOrNothing | src/jev_reflex/evaluator.py:214-271 | with sizes that add up over list items, as those of JSON do, the result holds all changed files or none, and all arguments or none |
| Compaction.FieldsInOrder | src/jev_reflex/evaluator.py:208-212 | a prose field is touched only when all before it are empty |
| Compaction.ActionIsKeptLongest | src/jev_reflex/evaluator.py:208-276 | the action is cut only after all prose and the file list are gone; the repository root never |
| StreamFraming.StreamReader.OnRead | src/jev_reflex/workspace/process.py:269-329 | the buffers and the events of one read of either descriptor, up to the event the handler stops at |
| StreamFraming.StreamReader.OnError | src/jev_reflex/workspace/process.py:278-294 | the standard error: the buffer cut to its last bytes, each finished non-empty line shown |
| StreamFraming.StreamReader.OnChunk | src/jev_reflex/workspace/process.py:295-329 | the buffer and the events of one chunk of the standard output |
| StreamFraming.StreamReader.DrainLines | src/jev_reflex/workspace/process.py:310-329 | the complete lines are delivered in order and the unfinished rest stays |
| StreamFraming.StreamReader.OnEnd | src/jev_reflex/workspace/process.py:332-349 | what is left of the output is one line, dropped when oversized, and then what is left of the error |
| StreamFraming.Stream | src/jev_reflex/workspace/process.py:255-349 | the whole run over both descriptors, to their end or a cancellation, delivers the events up to the one the handler stops at |
| StreamFraming.LinesExact | src/jev_reflex/workspace/process.py:310-329 | one event for each line that fits, in order, marked for review exactly when the provider ends a turn after output |
| StreamFraming.UntilExact | src/jev_reflex/workspace/process.py:255-349 | a handler sees all events or those up to the first it refuses |
| StreamFraming.ErrorsExact | src/jev_reflex/workspace/process.py:278-294 | while no line of the standard error comes within one read of the limit, exactly its non-empty lines are shown, whatever the cuts and the output |
| StreamFraming.BuffersBounded | src/jev_reflex/workspace/process.py:269-329 | after any reads the error buffer is within the limit and the output buffer within the limit or shorter than one read |
| StreamFraming.ErrorKeepsEnd | src/jev_reflex/workspace/process.py:278-282 | of an unfinished error line over the limit the last bytes are kept |
| StreamFraming.CancelledRun | src/jev_reflex/workspace/process.py:255-268 | a cancelled run shows what was read and the cancellation, and nothing that was left over |
| StreamFraming.OutputUndisturbed | src/jev_reflex/workspace/process.py:255-349 | the output events of a run are those of its output chunks alone, whatever the standard error brings in between |
| StreamFraming.FeedAllExact | src/jev_reflex/workspace/process.py:295-329 | after any chunks whose lines fit, exactly the finished lines are delivered |
| StreamFraming.CutsAgree | src/jev_reflex/workspace/process.py:295-349 | any cut of an input whose lines fit gives the events of its newline split |
| StreamFraming.FramingExact | src/jev_reflex/workspace/process.py:295-349 | all cuts give the events of the newline split if and only if no line exceeds the limit |
| CutIndependence.CutsExact | src/jev_reflex/workspace/process.py:269-349 | for a provider that tells lines apart: all cuts give the same events if and only if every line fits, or the finished lines do and the trailing piece is one byte over the limit and cannot be read together with a newline before it |
| CutIndependence.CutsAgreeWhen | src/jev_reflex/workspace/process.py:269-349 | the condition suffices for every provider |
| Approvals.PendingApprovals.RetireKey | src/jev_reflex/workspace/streaming.py:404-408 | the key becomes the newest of at most 10,000 remembered ones |
| Approvals.PendingApprovals.Issue | src/jev_reflex/workspace/streaming.py:410-430 | one new ticket, or nothing |
| Approvals.PendingApprovals.Decide | src/jev_reflex/workspace/streaming.py:432-460 | the ruling and the whole new state; a mismatch keeps the ticket |
| Approvals.PendingApprovals.CloseSession | src/jev_reflex/workspace/streaming.py:462-466 | every ticket of the session is retired |
| Approvals.PendingApprovals.Expire | src/jev_reflex/workspace/streaming.py:468-473 | every ticket past its time is retired |
| ApprovalHistory.ApprovalsExact | src/jev_reflex/workspace/streaming.py:386-473 | in every run pending keys are distinct and not remembered, no ticket is decided twice, and the memory is the last 10,000 of the whole history |
| ApprovalHistory.IssueExact | src/jev_reflex/workspace/streaming.py:410-430 | a request is refused exactly for an incomplete key, an unbindable action, a full table, a pending key or one of the last 10,000 retirements; else its ticket is added and nothing else changes |
| ApprovalHistory.RulingExact | src/jev_reflex/workspace/streaming.py:432-460 | in every reachable state a decision is allowed exactly on a pending ticket with this id, this key and this action's digest before its time, and expired exactly on one past it |
| ApprovalHistory.DecideExact | src/jev_reflex/workspace/streaming.py:432-460 | a refused decision changes nothing; any other removes exactly its ticket and retires its key |
| ApprovalHistory.AllowedWasAsked | src/jev_reflex/workspace/streaming.py:410-460 | whatever is allowed was issued earlier for the same request and the same digest |
| ApprovalHistory.RetireExact | src/jev_reflex/workspace/streaming.py:404-408 | a retired key is remembered as the newest and nowhere else; the oldest beyond 10,000 are forgotten |
| ApprovalHistory.SweepExact | src/jev_reflex/workspace/streaming.py:462-473 | closing and expiring remove exactly the matching tickets, retire their keys in order and decide none |
| ApprovalHistory.NeverDecidedAgain | src/jev_reflex/workspace/streaming.py:444-460 | a ticket once gone is refused by every later decision |
| GitStatus.StatusPaths | src/jev_reflex/git_inspection.py:203-218 | the paths of the records, rename sources included, or a refusal |
| GitStatus.PorcelainEntries | src/jev_reflex/workspace/state.py:192-208 | the entries of the records, or a refusal |
| GitStatus.ReadersAgree | src/jev_reflex/workspace/state.py:192-208 | the two readers refuse the same inputs and list the same paths |
| GitStatus.EntriesExact | src/jev_reflex/workspace/state.py:196-207 | every record has an entry with its path and status and one for its old path, and there are no others |
| GitStatus.EntriesDetermineRecords | src/jev_reflex/workspace/state.py:196-207 | the entries lose nothing of the records |
| GitStatus.RoundTrip | src/jev_reflex/git_inspection.py:203-218 | reading inverts printing on every list of well-formed records |
| GitStatus.AcceptedIsPrinted | src/jev_reflex/git_inspection.py:203-218 | every accepted input is a printed list up to empty pieces and a missing last separator |
| GitStatus.AppendSubmodules | src/jev_reflex/git_inspection.py:181-199 | the stream with one record per changed submodule path, or a refusal |
| GitStatus.AppendExact | src/jev_reflex/git_inspection.py:198-199 | an appended record adds exactly its path if and only if the stream is empty or ends with a separator |
| GitStatus.SubmodulesExact | src/jev_reflex/git_inspection.py:181-199 | on a stream as git writes it appending adds exactly the prefixed paths, and is refused exactly when a submodule's status is |

## Left out

- SQLite, file permissions, fsync and locking calls: a transaction is one atomic step; `timeout` and database errors are refusals that change nothing.
- The store's size limits as numbers inside the lease and intent models: a refused `put` is a parameter there; `ControlStore` has the numbers.
- Authority and Intent use a plain record table; that every read passes the MAC check on an untouched file is `ControlHistory.ReadIsLatest`, not repeated there.
- SHA-256, HMAC, Ed25519, base64 and JSON text: abstract functions; what is needed of them (a fixed digest length, canonical text that reads back) is a hypothesis of the lemma that needs it.
- Resolving a path under the repository root: each resource carries what resolving gave; symbolic links are not modelled.
- Floating point: scores, thresholds, clocks and drift are reals, so rounding is not modelled.
- Reason and message texts: decisions, rules and counts are kept; the order of triggered rules is not.
- Classifying an action into capabilities and resources (`describe_action`): inputs of `Evaluate`.
- What `_authorize_tool` weighs besides the schema pin, and the session limits it reserves: the event's choice.
- Cancelling a timer in the gateway: a timer may fire at any moment after registration, which allows more interleavings.
- Message size limits, invalid JSON and calls without an id in the gateway: answered without touching the shared state.
- Starting and terminating the provider process, its return code, the order in which descriptors become ready and the 4,096 character cut of shown error lines.
- What `parse_provider_event` makes of a line and whether the handler continues after an event: any functions of the line and of the event.
- Ticket identifiers in approvals: fresh numbers for uuids.
- `os.fsdecode` of status bytes, and which submodules are initialised and inside the root: paths are bytes and the submodules are given.
- GatewayAnswers.ExactlyOneAnswerOwed: assumes the client never reuses an id and upstream answers each message at most once, because without this an answer is not tied to one call.
- A log or database write that fails half way: a write is one step, and a writer that raises does so before it.
- Redaction, destructive-command detection, session limits, the enterprise approval store, the rollout store's staging, broker and proxy sockets, sandboxes, provider launch, user interface and logging.
