# A Dafny model of the ADS platform's decision procedures and protocols

This project models the parts of the ADS platform whose promises range over every input, every
interleaving or every crash, and proves those promises. It is plain Dafny 4.11;
`dafny verify dfyconfig.toml` checks all of it.

| component | files | what is modelled |
|---|---|---|
| Denial of existence | `Names`, `Denial`, `Nsec`, `Nsec3`, `DenialValidator` | the validator that concludes from NSEC or NSEC3 records that a name or type does not exist, against an abstract zone with its honest circular chain |
| Trust chains | `Chain`, `ChainWalker`, `ChainDenial` | the memoised walk from a zone up its signers to a configured anchor, against inductive trusted paths and insecure cuts, and joined with the denial validator |
| Answers and aliases | `Alias`, `RecordCheck` | the alias loop, DNAME substitution and the verdict on a whole reply; the check of one record set, signed or not |
| Context compaction | `History`, `Compaction`, `Compactor` | safe split points, nested memories and the compaction loop |
| Recall frames | `Frames` | budgeted tool-call batches with reserved closing results and self-describing capacity reports, and the recursive frames that recalls run in |
| Revocation lists | `Crl`, `CrlVerdict` | scopes, delta merging and the verdict over a set of lists |
| Engine runs | `Engine`, `EngineAborts`, `EngineService` | the run protocol as atomic steps between awaits, what becomes of aborts, and the service and session store that take the steps |
| Query accounting | `QueryAccounting` | the DNS transport's count of accepted queries under callbacks, teardown and shutdown |
| Reset | `Preservation`, `Reset` | the restartable reset coordinator with a crash possible before every effect |

Names are sequences of labels from the root, folded to lower case, so that "is a subdomain of" is
the prefix relation and canonical order is lexicographic. Outside answers are oracles: functions
that a theorem quantifies over. Those that may change over time take the moment of the question as
an argument. The oracles are signature checks, the NSEC3 hash and its decoding, upstream replies,
token meters, the summarising model and its parser, failures and crashes, pods, and what users write
while they can. What a theorem assumes of an oracle is in its `requires`: verified records are the
zone's own, compared NSEC3 hashes do not collide, DS matching returns keys it was given, a meter is
additive, a freshly minted identifier is unused. Everything else about them is arbitrary.

Code that works by changing state is modelled by classes whose fields are that state: the hashing
budget, the walker's memo, the compactor's loop, frames, the engine's tables and the session store,
the transport's tables, and everything the reset coordinator drives. Interleaved tasks are modelled
by the atomic step each takes between two suspension points, in any order.

These results correct what one might expect of the code:

* an NSEC wildcard proof takes its closest encloser from the caller, so it is valid for questions
  that exist, as empty non-terminals or even as owners with data
  (`NsecTheorems.WildcardAcceptsEmptyNonTerminal`, `NsecTheorems.WildcardAcceptsOwner`);
  `NsecTheorems.WildcardExact` says exactly when the next closer name is absent, and when the question
  is as far as the covering record reaches; past its end nothing is decided (`NsecTheorems.WildcardUndecided`);
* an NSEC name error rules its wildcard out as an owner but not as an empty non-terminal;
  `NsecTheorems.NameErrorWildcardExact` says exactly when the wildcard name exists;
* an abort accepted while a run joins its ping is swallowed and the finish is still published
  (`EngineAborts.AbortLost`); `EngineAborts.AbortExact` says that a finish may follow an accepted
  abort exactly then and when it was being published already;
* a session is not released when its ping, while the final block joins it, ends with an exception
  other than cancellation (`EngineAborts.ReleaseLost`); `EngineAborts.ReleaseExact` says that every
  other held session can still be released, one whose ping broke earlier included. It takes a publisher that
  answers cancellation with another exception, which the service's own Kafka publisher does not, and
  the row then stays until the service starts again and resets the store;
* an honest authority may retire an expired permanent revocation, and the delta that does so makes
  its lists impossible to evaluate (`CrlVerdict.RetiringUnavailable`); `CrlVerdict.EffectiveIsFull`
  says exactly when;
* a completed reset need not leave the restored models in place, since owners write again while the
  workloads resume (`Reset.ResetCoordinator.ReopenAfterDeletion`); `Reset.ResetCoordinator.Reopen`
  says exactly when it does.

## Model

| member | source | states |
|---|---|---|
| Names.Total | services/ads-sandbox-egress/src/ads_sandbox_egress/dnssec_denial.py:188-201 | canonical name order (section 6.1 of RFC 4034), the order every interval test uses, is a strict total order |
| Names.Contiguous | services/ads-sandbox-egress/src/ads_sandbox_egress/dnssec_denial.py:188-201 | a subtree is contiguous in that order: whatever lies between two names of a subtree is in it |
| DenialValidator.ValidateDenial | services/ads-sandbox-egress/src/ads_sandbox_egress/dnssec_denial.py:93-275 | concludes exactly when the question is in scope, no set ends the request, and the budget pays for checking every set and then for hashing every name asked for, each once; it then says what the gathered evidence implies and has taken exactly that from the budget |
| DenialValidator.GatherAll | services/ads-sandbox-egress/src/ads_sandbox_egress/dnssec_denial.py:124-156 | the loop charges and gathers the usable records, or stops at the first set whose type, charge or signature check ends the request |
| DenialValidator.Closest | services/ads-sandbox-egress/src/ads_sandbox_egress/dnssec_denial.py:233-251 | the climb from the question finds the first name at or above it that is known to exist, or none; it hashes exactly the names on the way, or the budget does not pay for them |
| DenialValidator.Covering | services/ads-sandbox-egress/src/ads_sandbox_egress/dnssec_denial.py:188-214 | finds a covering record of either family and its Opt-Out flag exactly when there is one |
| DenialValidator.RunWithEncloser | services/ads-sandbox-egress/src/ads_sandbox_egress/dnssec_denial.py:252-275 | with an encloser in hand: ancestor-delegation exclusion, next closer name, then the result of each kind of question, hashing exactly the names each needs |
| DenialValidator.EnoughPays | services/ads-sandbox-egress/src/ads_sandbox_egress/dnssec_denial.py:174-184 | hashing never costs more than the question, every ancestor up to the apex and four further names |
| NsecTheorems.CoveredName | services/ads-sandbox-egress/src/ads_sandbox_egress/dnssec_denial.py:188-201 | a name covered by an honest chain record is no owner, and exists exactly when the record's next name is at or below it; wrap-around included |
| NsecTheorems.CoveredNotUnderCut | services/ads-sandbox-egress/src/ads_sandbox_egress/dnssec_denial.py:188-201 | a record passing the ancestor-delegation exclusion (section 4.1 of RFC 6840) never covers a name below a delegation or DNAME |
| NsecTheorems.EncloserSound | services/ads-sandbox-egress/src/ads_sandbox_egress/dnssec_denial.py:233-259 | the encloser computed from endpoints, with the next closer name covered, is the true closest encloser, and the question does not exist and is under no cut |
| NsecTheorems.NameErrorSound | services/ads-sandbox-egress/src/ads_sandbox_egress/dnssec_denial.py:233-267 | a valid NSEC name error: nothing at or below the name exists, no strict ancestor is a delegation or DNAME owner, the encloser is the true one and its wildcard is no owner (section 5.4 of RFC 4035) |
| NsecTheorems.NameErrorComplete | services/ads-sandbox-egress/src/ads_sandbox_egress/dnssec_denial.py:233-267 | for every honest zone and absent name under no cut without a wildcard owner at its encloser, the records serving the name and the wildcard are accepted and the encloser found is the true one |
| NsecTheorems.NameErrorServable | services/ads-sandbox-egress/src/ads_sandbox_egress/dnssec_denial.py:255-267 | the chain always holds two such serving records |
| NsecTheorems.NameErrorWildcardExact | services/ads-sandbox-egress/src/ads_sandbox_egress/dnssec_denial.py:260-267 | a valid name error leaves the wildcard existing (as an empty non-terminal) exactly when the record covering it ends below it |
| NsecTheorems.NameErrorAcceptsNonTerminalWildcard | services/ads-sandbox-egress/src/ads_sandbox_egress/dnssec_denial.py:260-267 | a zone where a valid name error coexists with an existing wildcard name |
| NsecTheorems.WildcardExact | services/ads-sandbox-egress/src/ads_sandbox_egress/dnssec_denial.py:223-232 | NSEC wildcard proofs: the next closer name is no owner and under no cut, and is absent exactly when its covering record does not end below it; then the question is absent, and in general a question that the record does not end before exists exactly when the record ends at or below it |
| NsecTheorems.WildcardAcceptsEmptyNonTerminal | services/ads-sandbox-egress/src/ads_sandbox_egress/dnssec_denial.py:223-232 | a zone where an NSEC wildcard proof is valid for a name that exists as an empty non-terminal |
| NsecTheorems.WildcardAcceptsOwner | services/ads-sandbox-egress/src/ads_sandbox_egress/dnssec_denial.py:223-232 | a zone and one honest record for which an NSEC wildcard proof is valid for a question that is an owner with the type asked for |
| NsecTheorems.WildcardUndecided | services/ads-sandbox-egress/src/ads_sandbox_egress/dnssec_denial.py:223-232 | past the end of that record nothing is decided: the same record makes the proof valid in a zone where the question exists and in one where it does not |
| NsecTheorems.WildcardNoDataSound | services/ads-sandbox-egress/src/ads_sandbox_egress/dnssec_denial.py:268-274 | valid wildcard NODATA: the true encloser, an absent question, and a wildcard owner without the type |
| NsecTheorems.NoDataSound | services/ads-sandbox-egress/src/ads_sandbox_egress/dnssec_denial.py:56-70 | valid NODATA: an owner without the type or an alias, or an empty non-terminal |
| NsecTheorems.NoDataExact | services/ads-sandbox-egress/src/ads_sandbox_egress/dnssec_denial.py:216-221 | an owner's own record decides NODATA for it both ways, ANY and DS included |
| NsecTheorems.EmptyNonTerminalComplete | services/ads-sandbox-egress/src/ads_sandbox_egress/dnssec_denial.py:245-247 | every empty non-terminal under no cut is accepted as NODATA from the record serving it |
| NsecTheorems.UnsignedDelegationSound | services/ads-sandbox-egress/src/ads_sandbox_egress/dnssec_denial.py:73-80 | valid unsigned delegation: the name has NS without SOA, DS, CNAME or DNAME |
| Nsec3Theorems.CoveredMeans | services/ads-sandbox-egress/src/ads_sandbox_egress/dnssec_denial.py:202-214 | a covered hash means the name does not exist when Opt-Out is clear, and otherwise leads only to insecure delegations |
| Nsec3Theorems.Encloser3Sound | services/ads-sandbox-egress/src/ads_sandbox_egress/dnssec_denial.py:233-259 | a matched authoritative encloser and a covered next closer name: with Opt-Out clear the true encloser, absence and no cut |
| Nsec3Theorems.NameError3Sound | services/ads-sandbox-egress/src/ads_sandbox_egress/dnssec_denial.py:260-267 | valid NSEC3 name error (section 8.4 of RFC 5155), with and without Opt-Out, for the next closer name and the wildcard |
| Nsec3Theorems.Wildcard3Sound | services/ads-sandbox-egress/src/ads_sandbox_egress/dnssec_denial.py:223-232 | valid NSEC3 wildcard answer (section 8.8 of RFC 5155): nothing at or below the next closer name, or only insecure delegations |
| Nsec3Theorems.NoData3Sound | services/ads-sandbox-egress/src/ads_sandbox_egress/dnssec_denial.py:216-221 | valid NSEC3 NODATA: the name exists without the type, or for DS lies only in Opt-Out insecurity |
| Nsec3Theorems.WildcardNoData3Sound | services/ads-sandbox-egress/src/ads_sandbox_egress/dnssec_denial.py:268-274 | valid NSEC3 wildcard NODATA: the wildcard exists without the type, and the encloser facts of a name error |
| Nsec3Theorems.UnsignedDelegation3Sound | services/ads-sandbox-egress/src/ads_sandbox_egress/dnssec_denial.py:73-80 | valid NSEC3 unsigned delegation: an unsigned child, or an Opt-Out span over insecurity (section 8.9 of RFC 5155) |
| Nsec3Theorems.NameError3Complete | services/ads-sandbox-egress/src/ads_sandbox_egress/dnssec_denial.py:233-267 | the records matching the provable encloser and spanning the two hashes are always accepted and yield that encloser |
| Nsec3Theorems.SpanServable | services/ads-sandbox-egress/src/ads_sandbox_egress/dnssec_denial.py:202-214 | every hash that is no chain name's lies in the interval of some chain record |
| DenialValidator.ConcludedNameError | services/ads-sandbox-egress/src/ads_sandbox_egress/dnssec_denial.py:124-267 | soundness through the validator's own gathering: authentic evidence of either family and a valid name error give the absence facts; of the hash only the gathered parameters are assumed collision-free |
| DenialValidator.ConcludedNameErrorComplete | services/ads-sandbox-egress/src/ads_sandbox_egress/dnssec_denial.py:124-267 | completeness through the gathering: any authentic, orderly evidence holding the two served records, whatever else it holds, is accepted with the true encloser |
| DenialValidator.ConcludedNameError3Complete | services/ads-sandbox-egress/src/ads_sandbox_egress/dnssec_denial.py:124-267 | the same for NSEC3: any authentic, orderly evidence holding the records matching the provable encloser and spanning the two hashes is accepted with that encloser |
| Chain.ClosestAnchor | services/ads-sandbox-egress/src/ads_sandbox_egress/dnssec_chain.py:92-98 | the most specific configured anchor at or above a name |
| Chain.SecureSound | services/ads-sandbox-egress/src/ads_sandbox_egress/dnssec_chain.py:110-335 | a secure verdict has an unbroken path of non-wildcard verified DS and DNSKEY links from an anchored zone, and hands out the zone's own keys |
| Chain.SecureComplete | services/ads-sandbox-egress/src/ads_sandbox_egress/dnssec_chain.py:110-335 | wherever the walk answers, such a path makes the verdict secure |
| Chain.PathConfined | services/ads-sandbox-egress/src/ads_sandbox_egress/dnssec_chain.py:92-98 | a trusted path starts at the closest anchor and every zone on it lies at or below that anchor |
| Chain.SecureExactly | services/ads-sandbox-egress/src/ads_sandbox_egress/dnssec_chain.py:110-335 | secure if and only if a verified path descends from the most specific anchor |
| Chain.InsecureSound | services/ads-sandbox-egress/src/ads_sandbox_egress/dnssec_chain.py:190-324 | an insecure verdict has, at or above the zone, a delegation that a trusted parent proved unsigned or signed only with unsupported algorithms |
| ChainDenial.DeniedMeans | services/ads-sandbox-egress/src/ads_sandbox_egress/dnssec_chain.py:190-248 | with the denial validator as the oracle, an accepted denial of DS means the parent's zone delegates the child without DS, or only insecurely under it, and signs no delegation at or above it |
| ChainDenial.InsecureMeans | services/ads-sandbox-egress/src/ads_sandbox_egress/dnssec_chain.py:190-324 | so an insecure verdict names a trusted parent whose zone delegates insecurely at or above the zone, or a verified DS without a supported algorithm |
| ChainDenial.NoDowngrade | services/ads-sandbox-egress/src/ads_sandbox_egress/dnssec_chain.py:190-324 | where every trusted zone above signs a delegation towards the zone and verified DS sets are supported, no replies make it insecure |
| Chain.UnanchoredIndeterminate | services/ads-sandbox-egress/src/ads_sandbox_egress/dnssec_chain.py:110-335 | a zone with no anchor at or above it always ends indeterminate |
| Chain.LimitOnlyRefuses | services/ads-sandbox-egress/src/ads_sandbox_egress/dnssec_chain.py:120-121 | the depth limit can only refuse: any answer under it is the unlimited answer |
| ChainWalker.Walker.Zone | services/ads-sandbox-egress/src/ads_sandbox_egress/dnssec_chain.py:110-335 | the memoised recursion answers what the plain walk answers; recursion goes to strict ancestors, no zone is asked for twice, the cycle test is never met, and no zone above the anchor is asked |
| ChainWalker.Authenticate | services/ads-sandbox-egress/src/ads_sandbox_egress/dnssec_chain.py:100-108 | a whole request: whenever the plain recursion answers the memoised one gives the same, and everything asked lies between the zone and its anchor |
| Alias.Governing | services/ads-sandbox-egress/src/ads_sandbox_egress/dnssec_answer.py:394-400 | the DNAME chosen for a name is the deepest of those strictly above it, and none is chosen only when there is none |
| Alias.Follow | services/ads-sandbox-egress/src/ads_sandbox_egress/dnssec_answer.py:375-435 | the alias loop ends; it goes gap-free through distinct CNAME owners, reports a loop or the limit exactly when that is what happened and a conflict only for contradictory sets, and gathers exactly the sets that decide the answer |
| Alias.Examine | services/ads-sandbox-egress/src/ads_sandbox_egress/dnssec_answer.py:436-474 | the two passes judge every gathered set and nothing else, an unsigned synthesised CNAME by its DNAME |
| Alias.CombinedWorst | services/ads-sandbox-egress/src/ads_sandbox_egress/dnssec_answer.py:60-68 | one set stands for itself and each further set leaves the worse of the two verdicts |
| Alias.CombinedSecure | services/ads-sandbox-egress/src/ads_sandbox_egress/dnssec_answer.py:60-68 | the conjunction is secure exactly when there is a required set and all are secure |
| Alias.SecureTrail | services/ads-sandbox-egress/src/ads_sandbox_egress/dnssec_answer.py:449-474 | on a sound trail each step under a DNAME is exactly its substitution (section 2.2 of RFC 6672) and that DNAME is secure; any other step is a secure CNAME |
| Alias.JudgeNegative | services/ads-sandbox-egress/src/ads_sandbox_egress/dnssec_answer.py:481-519 | a dead end: indeterminate without one enclosing SOA whose zone keys are known, bogus without a proof of the reply's kind, else the worse of the sets, the SOA and the proof's Opt-Out; secure exactly when all of these are |
| Alias.Classify | services/ads-sandbox-egress/src/ads_sandbox_egress/dnssec_answer.py:369-519 | the exact verdict: for an answer the worst of the deciding sets' own verdicts, so a forged alias makes it bogus; for a dead end that and the weight of its proof; secure if and only if the aliases lead without a gap from the question to an answer or a proven absence and every deciding set is sound |
| RecordCheck.CheckSigned | services/ads-sandbox-egress/src/ads_sandbox_egress/dnssec_answer.py:288-367 | the loop over the signers weighs their verdicts: refused if any is, secure with one that vouches, else bogus, unknown or insecure by what the rest showed |
| RecordCheck.SignedSecureExactly | services/ads-sandbox-egress/src/ads_sandbox_egress/dnssec_answer.py:288-367 | a signed set is secure if and only if some signer at or above it, not above its anchor, has an unbroken chain from the most specific anchor and its own keys verify the set, as it stands or as a wildcard expansion proven in order and without Opt-Out |
| RecordCheck.Establish | services/ads-sandbox-egress/src/ads_sandbox_egress/dnssec_answer.py:162-235 | the loop proves every possible cut between a zone and a name, one label at a time |
| RecordCheck.CheckUnsigned | services/ads-sandbox-egress/src/ads_sandbox_egress/dnssec_answer.py:241-287 | an unsigned set is never secure: bogus where every cut is proven signed, insecure below an insecure one, otherwise unknown |
| RecordCheck.UnsignedInsecureMeans | services/ads-sandbox-egress/src/ads_sandbox_egress/dnssec_answer.py:162-287 | an unsigned set is taken for insecure only at or below a delegation that a trusted zone truly leaves insecure |
| RecordCheck.NoStripping | services/ads-sandbox-egress/src/ads_sandbox_egress/dnssec_answer.py:162-287 | stripped signatures never pass for an unsigned zone: where every trusted zone above signs the name or the way to it, no replies make an unsigned set insecure |
| RecordCheck.SecureSetExactly | services/ads-sandbox-egress/src/ads_sandbox_egress/dnssec_answer.py:237-367 | the whole check: secure if and only if the set comes with one signature set and one of its signers authenticates it |
| RecordCheck.SoundExactly | services/ads-sandbox-egress/src/ads_sandbox_egress/dnssec_answer.py:436-479 | the sets deciding an answer are all sound if and only if every alias under a DNAME is its substitution and each deciding set is authenticated by a trusted zone |
| Compaction.SafeBoundaries | services/ads-context-compactor/src/ads_context_compactor/service.py:82-120 | the scan succeeds exactly on well-formed histories, fails with the first fault, and returns exactly the positions with no open call or task |
| Compaction.BoundariesAre | services/ads-context-compactor/src/ads_context_compactor/service.py:82-120 | the list holds every boundary once, ascending |
| Compaction.SafeSplit | services/ads-context-compactor/src/ads_context_compactor/service.py:82-120 | a prefix up to a boundary scans, and so does a memory followed by the rest, with exactly the later boundaries shifted |
| Compaction.BoundaryBehindMemory | services/ads-context-compactor/src/ads_context_compactor/service.py:82-120 | a boundary behind a memory is a boundary of the history it replaced |
| Compaction.MemoryOnlyFirst | services/ads-context-compactor/src/ads_context_compactor/service.py:282-285 | in a history that scans, a memory can only come first, so the position check never fires |
| Compaction.ReplacementConserves | libraries/ads-commons/src/ads_commons/context_compactor.py:47-48 | replacing a prefix by a memory leaves the unfolded history unchanged, in order |
| Compactor.LowerRatioEarlier | services/ads-context-compactor/src/ads_context_compactor/service.py:228-230 | lowering the share never moves the chosen split later, whatever was measured |
| Compactor.FewerMessages | services/ads-context-compactor/src/ads_context_compactor/service.py:282-308 | every replacement leaves strictly fewer messages |
| Compactor.ContextCompactor.Summarize | services/ads-context-compactor/src/ads_context_compactor/service.py:251-281 | a summary is a parsed answer of the model, after at most one repair, measured within the cap |
| Compactor.ContextCompactor.TrySplits | services/ads-context-compactor/src/ads_context_compactor/service.py:226-306 | splits are safe, are those the shares choose, and are tried in strictly descending order, each once; giving up means each of them was memory only or overflowed the model |
| Compactor.ContextCompactor.Weigh | services/ads-context-compactor/src/ads_context_compactor/service.py:282-304 | a replacement archives exactly the prefix and measured at least the minimum reduction smaller |
| Compactor.ContextCompactor.CompactRound | services/ads-context-compactor/src/ads_context_compactor/service.py:207-308 | a round finishes at the target, replaces at the last split it tried, or stops for a cause an oracle gave in that round, never a misplaced memory |
| Compactor.ContextCompactor.Compact | services/ads-context-compactor/src/ads_context_compactor/service.py:315-324 | terminates for every meter and model; a result unfolds to exactly the unfolded input, keeps visible what follows a safe boundary of it, and measured at most the target; on a well-formed input it fails only for an oracle's answer or for want of a usable split |
| Frames.BatchMessages | libraries/ads-context-runtime/src/ads_context_runtime/frames.py:191-213 | a closed batch reaches the provider as one assistant message owning every call, then one tool message a call, in call order |
| Frames.Runtime.Guard | libraries/ads-context-runtime/src/ads_context_runtime/frames.py:295-301 | passes exactly when the charged frame measures within budget, else says why, and closes the frame when the report forbids more |
| Frames.Runtime.ResolvedResult | libraries/ads-context-runtime/src/ads_context_runtime/frames.py:303-331 | an accepted result reports a remainder that is nonnegative and at most what is left with that very result charged; one is withheld only when it overflows the frame under some report |
| Frames.Runtime.Recall | libraries/ads-context-runtime/src/ads_context_runtime/frames.py:341-421 | a result is an answer that the model gave in the memory's own frame within its cap, and fits the frame with its report; giving up means the envelope overflowed or both attempts were useless |
| Frames.Runtime.AskChild | libraries/ads-context-runtime/src/ads_context_runtime/frames.py:341-361 | a memory is asked in a frame of its own holding only what it archives; nested recall ends whatever memories hold, and an answer is the model's, not blank and within its cap |
| Frames.Runtime.Run | libraries/ads-context-runtime/src/ads_context_runtime/frames.py:451-511 | a frame's loop: whatever the model asks for, the frame gains only whole rounds, each call with its one result in call order, and the answer is the model's last words, given while the frame fitted |
| Frames.Runtime.Step | libraries/ads-context-runtime/src/ads_context_runtime/frames.py:452-498 | one completion: an answer that changes nothing, or calls that are all answered, which once only closing remains are refused |
| Frames.DepthOfSource | libraries/ads-commons/src/ads_commons/context_compactor.py:51-52 | a recall's own frame holds only memories nested less deep than the one recalled, whatever it archives |
| Frames.Runtime.Dispatch | libraries/ads-context-runtime/src/ads_context_runtime/frames.py:376-421 | one result per call: in place of its reservation, or appended with its call, and the frame still fits; every raise has its cause, and for a reserved call a closure fails to fit only as the notice of a failed recall |
| Frames.Runtime.ClosureFits | libraries/ads-context-runtime/src/ads_context_runtime/frames.py:143-152 | for every deterministic meter, closing a reserved call for starvation measures exactly what is charged already, so it always fits |
| Frames.Runtime.Serve | libraries/ads-context-runtime/src/ads_context_runtime/frames.py:441-449 | a reserved call is answered in its place; with an additive meter it raises only for an unknown tool, an unsettled report or a failed recall's heavier notice, and once only closing it never raises |
| Frames.Runtime.CheckIds | libraries/ads-context-runtime/src/ads_context_runtime/frames.py:425-429 | accepts a batch exactly when its identifiers are nonempty and new to the frame and to each other |
| Frames.Runtime.DispatchBatch | libraries/ads-context-runtime/src/ads_context_runtime/frames.py:423-449 | a batch is turned away, untouched, exactly when an identifier is unusable or its closing results do not fit; after any other normal return the pending results are as before and the exchanges grew by all calls, then one result a call; with an additive meter an admitted batch raises only for an unknown tool, an unsettled report, or the notice of a failed recall heavier than the reserved one, and a batch that is only to be closed never raises |
| Crl.ScopeOf | services/ads-sandbox-egress/src/ads_sandbox_egress/crl_status.py:99-133 | the reasons a list covers for the certificate, by point, names and flags |
| Crl.ReadEntries | services/ads-sandbox-egress/src/ads_sandbox_egress/crl_status.py:136-168 | read exactly when every entry is acceptable (issuer allowed, not future, no unknown critical extension, no removal in a base) and no certificate repeats; then each certificate listed has the reason of its one entry, and no other is listed |
| Crl.IssuerInherited | services/ads-sandbox-egress/src/ads_sandbox_egress/crl_status.py:136-168 | the issuer of an entry is the one named last, at or before it |
| Crl.Merge | services/ads-sandbox-egress/src/ads_sandbox_egress/crl_status.py:231-241 | a delta adds, replaces and removes, refusing to lift a permanent revocation |
| Crl.MergeRefinesFull | services/ads-sandbox-egress/src/ads_sandbox_egress/crl_status.py:231-241 | merging an honest delta into any base it covers gives the authority's full list at the delta's number (section 5.2.4 of RFC 5280), and is refused exactly when that list dropped an entry not on hold |
| CrlVerdict.MatchingDeltas | services/ads-sandbox-egress/src/ads_sandbox_egress/crl_status.py:213-234 | finds the matching delta of greatest number, a clash of numbers, and which deltas were used |
| CrlVerdict.Newest | services/ads-sandbox-egress/src/ads_sandbox_egress/crl_status.py:213-234 | the greatest number among a base and the deltas that match it |
| CrlVerdict.EffectiveIsFull | services/ads-sandbox-egress/src/ads_sandbox_egress/crl_status.py:207-241 | honest lists evaluate to the authority's full list at the greatest matching number, and cannot be evaluated exactly when deltas clash or that list dropped an entry not on hold |
| CrlVerdict.EffectiveNeverRemoves | services/ads-sandbox-egress/src/ads_sandbox_egress/crl_status.py:207-241 | no removal marker survives into the effective entries |
| CrlVerdict.RetiringUnavailable | services/ads-sandbox-egress/src/ads_sandbox_egress/crl_status.py:231-241 | honest lists that cannot be evaluated: a delta retires an expired permanent revocation, which section 5.3.1 of RFC 5280 allows |
| CrlVerdict.CrlSetRevoked | services/ads-sandbox-egress/src/ads_sandbox_egress/crl_status.py:171-255 | the loops compute the declarative verdict over the set of lists |
| CrlVerdict.VerdictSound | services/ads-sandbox-egress/src/ads_sandbox_egress/crl_status.py:202-253 | False: all reasons covered, every delta matched, the certificate in no merged list; True: some in-scope list holds it for an admitted reason (section 6.3.3 of RFC 5280) |
| CrlVerdict.HonestVerdict | services/ads-sandbox-egress/src/ads_sandbox_egress/crl_status.py:171-255 | with honest authorities, False means the certificate is on no in-scope authority's list at the greatest number supplied, True that it is on one |
| CrlVerdict.OrderIrrelevant | services/ads-sandbox-egress/src/ads_sandbox_egress/crl_status.py:171-255 | rearranging the lists never changes the outcome |
| Engine.StepKeeps | services/ads-engine/src/ads_engine/service.py:91-245 | every step of every task keeps the protocol invariant |
| Engine.OneRunPerSession | services/ads-engine/src/ads_engine/store.py:52-74 | in every reachable state one handler at most holds a session, exactly while its row exists, and is the run registered while live |
| Engine.OutputShape | services/ads-engine/src/ads_engine/service.py:202-245 | in every reachable state every run's output has the acceptable shape |
| Engine.ShapeOrders | services/ads-engine/src/ads_engine/service.py:202-240 | partials are numbered 0, 1, 2, ... once each across retries |
| Engine.ShapeAcked | services/ads-engine/src/ads_engine/service.py:162-174 | partials and pings come only after an accepted acknowledgement |
| Engine.ShapeFinished | services/ads-engine/src/ads_engine/service.py:136-145 | a finish carries the last order and nothing of that run follows it |
| Engine.AcksMatch | services/ads-engine/src/ads_engine/service.py:162-170 | an accepted acknowledgement carries the run's own message |
| EngineAborts.AbortExact | services/ads-engine/src/ads_engine/service.py:136-193 | in every reachable state, after an accepted abort some continuation shows the run's finish if and only if the run was joining its ping or publishing the finish |
| EngineAborts.AbortLost | services/ads-engine/src/ads_engine/service.py:136-153 | a whole history from the start in which an abort is accepted and the finish is published after it |
| EngineAborts.ReleaseExact | services/ads-engine/src/ads_engine/service.py:154-160 | in every reachable state the row a run holds can still be released if and only if its final block has not met a ping that raised something other than cancellation while being joined |
| EngineAborts.ReleaseLost | services/ads-engine/src/ads_engine/service.py:248-255 | a whole history from the start after which nothing releases the session: the ping cancelled by the final block answers with another exception |
| EngineAborts.BrokenPingReleased | services/ads-engine/src/ads_engine/service.py:248-250 | a whole history in which the ping breaks before the final block and the session is released all the same |
| EngineService.ActiveSessionStore.Claim | services/ads-engine/src/ads_engine/store.py:52-65 | the claim succeeds exactly when the session has no row, and then inserts it |
| EngineService.ActiveSessionStore.Release | services/ads-engine/src/ads_engine/store.py:67-74 | the session's row, and no other, goes |
| EngineService.EngineService.Leave | services/ads-engine/src/ads_engine/service.py:154-160 | the final block forgets the run, the abort and the waiter before it joins the ping |
| EngineService.EngineService.AckResponse | services/ads-engine/src/ads_engine/service.py:162-174 | only the waiting run's own message wakes it |
| EngineService.EngineService.Abort | services/ads-engine/src/ads_engine/service.py:176-193 | only the live run's own message cancels it |
| EngineService.EngineService.Perform | services/ads-engine/src/ads_engine/service.py:91-245 | each atomic step changes the tables as the protocol says, or nothing |
| EngineService.EngineService.Serve | services/ads-engine/src/ads_engine/service.py:91-245 | whatever is attempted in whatever order, the service stays in a reachable state satisfying the invariant |
| QueryAccounting.DnsTransport.UdpQuery | services/ads-sandbox-egress/src/ads_sandbox_egress/dns_transport.py:216-226 | admitted and counted, or refused, exactly by the closed flag and the limit |
| QueryAccounting.DnsTransport.UdpCompleted | services/ads-sandbox-egress/src/ads_sandbox_egress/dns_transport.py:199-207 | the callback and the shutdown both run it; only one releases |
| QueryAccounting.DnsTransport.TcpQuery | services/ads-sandbox-egress/src/ads_sandbox_egress/dns_transport.py:321-338 | a duplicate outstanding ID, a full connection or a full service is refused and tears the connection down; otherwise one more is counted |
| QueryAccounting.DnsTransport.Complete | services/ads-sandbox-egress/src/ads_sandbox_egress/dns_transport.py:291-299 | releases exactly while this task is the one pending under its ID, so a late callback after reuse releases nothing |
| QueryAccounting.DnsTransport.Drain | services/ads-sandbox-egress/src/ads_sandbox_egress/dns_transport.py:336-342 | a torn connection releases whatever it had outstanding and not yet released |
| QueryAccounting.DnsTransport.FinishClosing | services/ads-sandbox-egress/src/ads_sandbox_egress/dns_transport.py:350-369 | closing ends with nothing counted and every admitted query released exactly once |
| QueryAccounting.DnsTransport.ConnectionStep | services/ads-sandbox-egress/src/ads_sandbox_egress/dns_transport.py:228-342 | opening, tearing down, draining, a drain that is itself cancelled, and ending a connection take effect whenever they can happen; either drain ends with nothing of the connection outstanding |
| QueryAccounting.DnsTransport.Step | services/ads-sandbox-egress/src/ads_sandbox_egress/dns_transport.py:155-369 | each atomic step keeps the account: the count is the live UDP and outstanding TCP queries, within every limit |
| QueryAccounting.DnsTransport.Execute | services/ads-sandbox-egress/src/ads_sandbox_egress/dns_transport.py:155-369 | so does every interleaving; once closed nothing more is admitted |
| Preservation.ValidateModels | deploy/reset/models.py:19-47 | accepts exactly nonempty, complete rows of distinct ids and distinct owner, type, url and name |
| Preservation.PartialNeverConflicts | deploy/reset/models.py:81-92 | an interrupted restoration never makes a row conflict |
| Preservation.RestoredExactly | deploy/reset/models.py:69-101 | a finished restoration holds the backup's owner and payload pairs exactly: none lost, doubled or added |
| Preservation.StillBackExactly | deploy/reset/models.py:69-101 | a restored state that others have written to is still restored and mapped exactly when no restored model was deleted or changed and none like a backed-up row was added |
| Reset.ResetCoordinator.RefreshBackup | deploy/reset/models.py:50-59 | an empty source keeps a good backup and needs one; a nonempty source replaces it only when itself good |
| Reset.ResetCoordinator.RestoreRow | deploy/reset/models.py:79-97 | a row is refused exactly when it conflicts; else it is found or created once under an unused id, whatever replies are lost |
| Reset.ResetCoordinator.RestoreModels | deploy/reset/models.py:69-103 | finished means every row restored and mapped; a finished restoration is left unchanged by another pass |
| Reset.ResetCoordinator.CheckFence | deploy/reset/workloads.py:126-158 | holds exactly when nothing outside the spared services is asked for or seen |
| Reset.ResetCoordinator.Pause | deploy/reset/workloads.py:160-168 | finishes only behind the complete fence, and gives up only over a fence seen open or no patience |
| Reset.ResetCoordinator.StartPreferences | deploy/reset/workloads.py:170-185 | scales only the one preferences workload and finishes only once it runs |
| Reset.ResetCoordinator.Resume | deploy/reset/workloads.py:187-191 | captured replicas come back except the controllers', which are left untouched: with them fenced they stay so |
| Reset.ResetCoordinator.DropTables | deploy/reset/database.py:234-275 | drops only tables still as captured; a schema already gone counts as done |
| Reset.ResetCoordinator.InitializeNext | deploy/reset/database.py:277-330 | initialises the next target once and records it; existing fresh tables stay |
| Reset.ResetCoordinator.CheckOwners | deploy/reset/coordinator.py:78-91 | passes only when no owner's model differs from its backed-up row, refuses only when one does |
| Reset.ResetCoordinator.Commit | deploy/reset/coordinator.py:92-106 | behind the fence the models cannot change between the comparison and the preserved phase |
| Reset.ResetCoordinator.RecreateTarget | deploy/reset/coordinator.py:110-120 | each target behind a fresh fence check, skipping what an earlier run recorded |
| Reset.ResetCoordinator.RestoreTwice | deploy/reset/coordinator.py:130-137 | the second pass creates nothing and finds every model where the first did, exactly the backup's and no other; an interrupted restoration is never refused |
| Reset.ResetCoordinator.BeginResuming | deploy/reset/coordinator.py:141-148 | the workloads are let back in only behind the fence and with every backed-up model there exactly once; those models are the ones recorded as settled |
| Reset.ResetCoordinator.Reopen | deploy/reset/coordinator.py:149-161 | completion: every backed-up model was there exactly once when the owners were let back in, and is still, in place, if and only if no owner deleted, changed or doubled one since; the controllers are at zero and every other workload as when the cycle began |
| Reset.ResetCoordinator.ReopenCalmly | deploy/reset/coordinator.py:149-161 | with the controllers at zero and no failure a resuming cycle always completes |
| Reset.ResetCoordinator.ReopenAfterDeletion | deploy/reset/coordinator.py:149-161 | an owner deletes everything while the workloads resume, nothing fails and the controllers stay at zero: the cycle completes with none of the models there |
| Reset.ResetCoordinator.Run | deploy/reset/coordinator.py:42-162 | refuses exactly an inadmissible or other scope and a new cycle over an unfinished one, touching nothing; finishing means reopened, or already complete; it ends otherwise only after an outside failure or with a refusal the state bears out |
| Reset.ResetCoordinator.Operate | deploy/reset/coordinator.py:42-162 | over any history of runs stopped anywhere: every drop happened with all workloads at zero, a good backup holding every row lost, and never on a schema of the same cycle |

## Left out

- DenialValidator.ValidateDenial: what one signature check takes from the budget is given, not computed from its signatures.
- DenialValidator.ConcludedNameError: evidence is authentic when verified; the signature arithmetic is not part of this model.
- Nsec3Theorems.Encloser3Sound: NSEC3 statements assume that the hash does not collide on the names compared.
- Nsec3Theorems.NameError3Complete: the encloser is the longest ancestor with a record, which under Opt-Out need not be the closest existing name.
- Chain.SecureComplete: completeness is stated where the walk answers; the depth, proof-size and signer limits refuse in the model as in the code, the request deadline and the signature budget do not appear.
- ChainDenial.InsecureMeans: what a trusted parent's keys verify is that zone's own, and the names its proof compares do not collide; a refused signature check denies nothing, where the code ends the request.
- ChainWalker.Authenticate: replies and checks are fixed within a request; the messages, checks and denials collected for diagnosis are reduced to the set of checks.
- Alias.Classify: the proofs of a negative answer are an oracle; message-shape refusals and the record-count limit before the loop are left out.
- RecordCheck.CheckSigned: signature arithmetic and the messages and proofs collected for diagnosis are left out; replies are fixed within a request.
- RecordCheck.CheckUnsigned: what a bogus verdict excludes about the cuts between is not spelled out in terms of zones.
- Compactor.ContextCompactor.Compact: diagnostics, tracing and cancellation are left out; the floating-point share comparison is the exact integer one.
- Compactor.ContextCompactor.Summarize: the frame that runs the model is an oracle, so its repair prompt is not visible.
- Frames.Runtime.Run: the model may say anything whenever it is asked until the provider is gone for good; prompts, tool schemas, completion caps and the top-level recall, which differs in its budgets, are left out.
- Frames.Runtime.DispatchBatch: what may be raised is limited for a meter that adds up over messages; for any other meter the shape of the batch and the fit of starvation closures are claimed.
- Crl.ReadEntries: parsing, signatures, validity times and the issuer's authority are decided before these functions and are left out.
- CrlVerdict.EffectiveIsFull: an honest delta lists every change since any list it may be merged into; other deltas are covered only by `CrlVerdict.VerdictSound`.
- Engine.OutputShape: failures of the session store and cancellation from outside during the final block are left out.
- EngineAborts.AbortExact: a finish may appear, and a row be released, in some continuation; that a waiting task is eventually resumed is not modelled, nor is the reset of the store at startup.
- EngineService.EngineService.Advance: a handler's own decision is the protocol's `Move`; what the method adds is what the step does to the tables and the log.
- QueryAccounting.DnsTransport.Drain: the time limits and socket writes are left out; that a cancelled drain outlasts its tasks' own callbacks is the event loop's order of callbacks, taken as the guard of that step.
- Reset.ResetCoordinator.Operate: administrators scale workloads between runs and not within one, and owners write no models while the application services they write through are fenced, from preservation until the workloads resume; minted identifiers are unused. The tool's documentation forbids overriding the fence.
- Reset.ResetCoordinator.ReopenAfterDeletion: it starts from a cycle that is resuming with preferences running; the way there is not spelled out as one history.
- Reset.ResetCoordinator.DropTables: database identity, grants, connected clients and lock timeouts are refusals the model folds into an interrupted run; tables and grants are one captured layout.
- Reset.ResetCoordinator.CheckFence: workload and namespace identity, autoscalers and selectors are left out.
- Reset.ResetCoordinator.Preserve: the content of the controllers' associations is reduced to whether it was stored.
- Preservation.ValidateModels: the format checks of one row are one flag on the row.
- Policy revisions, MCP tool admission, CRL publication, history conversion for chat providers, DNSSEC key lifecycle and identity, charts, migrations and lab scripts are left out; they would add easy members or rest on stores outside this model.
