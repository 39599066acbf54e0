# Verified model of the A-FORGE control loops

Dafny models of the parts of this repository that keep state over unbounded runs, each proved
against the promise it is there to keep. One module per source component; where the source
changes objects in place, the model is a class whose methods are proved to compute a function on
values; the whole-run theorems are about that function, and its parts are pinned down by laws of
their own, stated on inputs and outcomes.

| modules | source | what is proved of it |
|---|---|---|
| `Locks` | `kernel/locks.py` | mutual exclusion over every interleaving; stale releases |
| `Leases` | `leases/lease_engine.py` | reverse scan = last write; revocation and expiry are final |
| `Reconcile` | `leases/reconcile.py` | stages in order, when a run leaves a receipt, no merge after a revoke |
| `Paradox`, `ParadoxHeap` | `paradox-engine/engine.py`, `models.py` | which pairs are held; spacing of emergences; boosts never reach the caller's motifs |
| `SustainedClash` | `paradox-engine/engine.py` | closed form of a pair kept up: its tension, and when it emerges |
| `Somatic`, `SomaticApi` | `paradox-engine/api.py` | the decay law |
| `Router`, `Affordance`, `Guard` | `a_think/` | what each mode says of the input; session accounting; who may run |
| `OrTree`, `Disclosure` | `duties/security-disclosure-watch.py` | the OR printer read back; who silences whom; the ACK clock |
| `Timestamps`, `Recovery` | `duties/autonomic-recovery-agent.py` | printed time orders as time; limits on restarts |
| `Kabarkan` | `kabarkan/worker.py` | conservation, counters and first-write-wins over every interleaving |
| `ExploreGraph`, `EvidenceGraph`, `Critic` | `forge_explore/` | visits, depth and rounds; edges and what the report says; the clamped loop |
| `Prelude` | - | options, Python's string order, substrings |

## Modelling choices

- Floats are `real`; rounding is not modelled. Timestamps are exact to the microsecond.
- The registry's relation and the cosine of two vectors are parameters of `Paradox.Config`. The
  maturation threshold is not zero, since the source divides by it.
- A Python dictionary whose order shows is a sequence in insertion order; otherwise it is a map.
- A Redis key is gone from the instant its expiry is reached. `uuid4` tokens are parameters;
  theorems that need them distinct say so.
- Git is what its commands answer: a merge is declined, conflicts, is up to date, or makes a commit
  on the branch HEAD is on. A conflict writes marked files into the working tree and leaves a merge
  in progress; aborting it puts the tree back.
- What lowers a character, and what counts as a word character, are parameters of
  `Router.Alphabet`, with the one demand that a space lowers to itself and is no word character.
- A handler or coroutine runs from one `await` to the next as one step. `executemany` is one
  transaction. A handler's acknowledgement may raise at any await.
- Values read from outside (probe results, clocks, search results, pages, reply witnesses, fresh
  ids) are parameters, so the theorems hold for all of them.
- An exception that leaves a run before its state file is written leaves the file as it was.

## Where code and documentation differ

The model follows the code.

- `leases/reconcile.py` merges into the branch HEAD is on and never checks that it is the target:
  `TargetMovesIff` gives the exact condition, `StrayRunPasses` a run with a receipt for the wrong
  branch.
- `security-disclosure-watch.py:551` promises that the copies of an unacknowledged disclosure are
  never all silenced. An older closed or non-human copy on the other lane silences the only open
  one (`OlderClosedCopySilences`); where the open record carries no lane, so does one on the same
  lane (`LanelessCopySilences`). `OpenMessageWatchedIff` says exactly when an open message keeps a
  watched copy.
- The OR printer does not escape its words; `ReadsBackIff` says exactly which lists survive.
- `autonomic-recovery-agent.py:878` announces an escalation from retry to restart. It has just
  counted a failure, so it never restarts (`EscalationHolds`); and since a retry is always offered
  first, an agent without cooldowns never restarts anything (`RealAgentNeverRestarts`).
- The MCP guard says destructive tools need a human; it asks only in GOVERN calls
  (`DestructiveRunsIff`), and it skips the session budget for the empty session id
  (`SessionBudgetBindsIffNamed`). A refusal is a HOLD by what its text happens to contain
  (`HoldIff`).
- `kabarkan/worker.py` without a pool drops what it flushes, and no counter shows it
  (`PoollessDropsAll`).
- `forge_explore/graph.ts:443` says that the loop goes on at SELECT; it goes on at SEED and searches
  again, by the index modulo nine. So what a search gave is not worked off: a round takes two URLs
  and the next search replaces the rest. `RoundEmptiesIff` says exactly when a round over pages
  without links leaves an empty frontier; with the same three or more URLs from every search none
  ever does (`LongSearchNeverEmpties`).
- `leases/reconcile.py:146` compares required files with the names of the changed ones, so a file
  required with its directory is never found (`PolicyIff`).
- `forge_explore/critic.ts` can mark a contradicted hypothesis verified, when its confidence began
  below the floor (`ContradictedVerifiedIff`).

## Model

| member | source | states |
|---|---|---|
| Locks.MutualExclusion | kernel/locks.py:38-55 | over every interleaving of acquires, releases and clock steps, whatever the tokens, the intervals [acquire, min(own release, acquire + ttl)) of two acquisitions of one resource share no instant |
| Locks.GrantPersists | kernel/locks.py:38-45 | a granted lock stays in the store, under its token and expiry, until it expires or is released under that token |
| Locks.GrantedIff | kernel/locks.py:38-45 | in any run of a store that begins without the resource, an acquisition with a name and a positive ttl is granted exactly when no earlier grant of the resource still stands, neither expired nor released under its token |
| Locks.StepChanges | kernel/locks.py:38-55 | a grant puts its own entry, to expire after its ttl, a release takes the entry of its token, and neither touches another |
| Locks.StaleReleaseIsHarmless | kernel/locks.py:48-55 | with distinct tokens, a release that comes after the lock expired and was re-acquired leaves the whole store unchanged |
| Locks.SharedTokenBreaksRelease | kernel/locks.py:38-55 | without distinct tokens it does not: a concrete run in which the late release frees another client's live lock |
| Locks.LockStore.AcquireLock | kernel/locks.py:38-45 | SET NX EX with a given or minted token is the acquire step, its error and busy cases included |
| Locks.LockStore.ReleaseLock | kernel/locks.py:48-55 | compare-and-delete succeeds exactly when the token holds the live lock, and never affects another resource |
| Locks.LockStore.Enter | kernel/locks.py:58-70 | polling is a run of ordinary steps, sleeps of no length included; it ends holding the lock, or on an error, or with the lock live elsewhere and the deadline past |
| Leases.LeaseEngine.Find | leases/lease_engine.py:105-117 | the reverse scan of the log finds the record a last-write map would hold |
| Leases.LeaseEngine.Validate | leases/lease_engine.py:57-76 | succeeds exactly when the last record of the id is active, unrevoked, unexpired and covers connector and verbs; each refusal is given exactly in its own case, and a missing verb is the first one missing |
| Leases.LeaseEngine.Activate | leases/lease_engine.py:47-55 | a sealed verdict appends the record, active, to expire after its ttl; any other writes nothing; the log is what the activation event makes of it |
| Leases.LeaseEngine.Revoke | leases/lease_engine.py:78-86 | appends the last record marked revoked, or fails when the id is unknown; the log is what the revocation event makes of it |
| Leases.NoAuthorityAfterRevoke | leases/lease_engine.py:57-86 | after a revoke nothing authorises the id, at any time for any scope, until it is activated again |
| Leases.AuthorityOnlyShrinks | leases/lease_engine.py:57-86 | without an activation of the id, whatever is authorised later was authorised before: expiry is permanent |
| Leases.ActivationGrants | leases/lease_engine.py:47-76 | an activation authorises exactly what its scope covers until at + ttl, unless the record handed in was already marked revoked |
| Leases.LatestAfterAppend | leases/lease_engine.py:101-117 | appending a record changes what the scan finds for its id and for no other |
| Leases.InForceIff | leases/lease_engine.py:57-70 | a record is in force when active, unrevoked and not past its expiry, one without an expiry being past it at 0 |
| Leases.RequestThenActivate | leases/lease_engine.py:31-76 | a lease asked for authorises nothing until activated, and then exactly the verbs and connector asked for until its ttl is over |
| Reconcile.Pipeline.RunPipeline | leases/reconcile.py:253-310 | the stages reported are a prefix of the seven in order, halted_at names the first failure, and all of them pass exactly when every gate does; branches, working tree and receipts afterwards are what the reconciliation event makes of those before, whatever the outcome |
| Reconcile.TruthfulReportIsUnique | leases/reconcile.py:253-310 | those conditions leave one possible report |
| Reconcile.Pipeline.StagePolicy | leases/reconcile.py:111-155 | passes exactly when no banned path, no oversize patch and every required file |
| Reconcile.NameInDirectory | leases/reconcile.py:146 | a file's name is what follows the last slash of its path, in whatever directory |
| Reconcile.NameIgnoresTail | leases/reconcile.py:146 | slashes and a dot at the end of a path change nothing about its name |
| Reconcile.NameIff | leases/reconcile.py:146 | a path that ends in a name bears it exactly when it is that file, or ends in it after a slash |
| Reconcile.PolicyIff | leases/reconcile.py:111-155 | the policy passes exactly when no changed path contains a banned part, the patch is within the limit, if there is one other than 0, and every required file is changed, in whatever directory; a file required with a directory never passes |
| Reconcile.ReceiptIff | leases/reconcile.py:253-310 | a run leaves its receipt exactly when the diff is readable, the lease stands, the fence is open, no scar is in the patch and the merge did not fail; else it leaves the world as it was |
| Reconcile.OtherEvents | leases/reconcile.py:189-224 | a checkout and a lease call change their own part of the world and nothing else |
| Reconcile.Pipeline.StageMerge | leases/reconcile.py:189-224 | a new commit moves HEAD's branch and is checked out; after any failure the branches and the working tree are as before, the conflict's marks taken back, and no merge is left in progress |
| Reconcile.Pipeline.GitMerge | leases/reconcile.py:197-206 | a conflict leaves the marked files in the tree and the merge in progress; only a new commit moves a branch |
| Reconcile.NoMergeAfterRevoke | leases/reconcile.py:97-310 | once a lease is revoked, whatever else happens short of activating it again, a run presenting it changes nothing |
| Reconcile.TargetMovesIff | leases/reconcile.py:189-224 | a run moves its target exactly when every gate passed, the merge made a commit and HEAD was on the target |
| Reconcile.StrayRunPasses | leases/reconcile.py:189-224 | a run that passes every gate, leaves a receipt for main and moves another branch |
| Reconcile.NoReceiptlessConvergence | leases/reconcile.py:227-310 | receipts are append-only, each was left by a run that passed all gates at its moment, and without a new one no branch moved |
| Paradox.RunKeepsInv | paradox-engine/engine.py:114-295 | every run keeps: one paradox per pair, duration at most its age + 1, emerge once, and every event's pair still tracked or older |
| Paradox.EmergencesAreSpaced | paradox-engine/engine.py:256-295 | two emergences of one motif pair are more than maturation_threshold ticks apart |
| Paradox.EmergenceIsEarned | paradox-engine/engine.py:166-226 | an emergence has a tension over 0.2 and comes at least maturation_threshold - 1 ticks after its paradox's birth, which was held at every tick since |
| Paradox.RipeHaveEmerged | paradox-engine/engine.py:256-295 | after a tick every living paradox that is old and tense enough has emerged |
| Paradox.EmergedIffLogged | paradox-engine/engine.py:256-295 | in any run a tracked paradox is marked emerged exactly when the log has an event of its pair since its birth |
| Paradox.CleanKeeps | paradox-engine/engine.py:500-508 | cleaning forgets exactly the paradoxes whose motifs are both dead |
| Paradox.BoostRaisesIff | paradox-engine/engine.py:230-252 | where the first motif dominates, the second strictly rises exactly when the ratio times 0.6 exceeds 1 and it is below its cap, and strictly falls exactly when that is under 1; the dominating motif is left alone |
| Paradox.MirroredBoostRaisesIff | paradox-engine/engine.py:230-252 | the same of the first motif where the second dominates, by the inverse ratio |
| Paradox.PairIdSymmetric | paradox-engine/engine.py:455-457 | the key of a pair does not depend on its order |
| Paradox.DetectTracksIff | paradox-engine/engine.py:168-198 | after detection exactly those keys are tracked that were, and those of the pairs of living motifs the registry opposes and that are both over 0.1 |
| Paradox.DetectAddsClashes | paradox-engine/engine.py:168-198 | whatever detection adds is such a pair, as a paradox just born, under the pair's key |
| Paradox.RunIsOpposed | paradox-engine/engine.py:166-228 | in any run every paradox held is of two motifs the registry opposes, filed under their key |
| Paradox.NewbornsClash | paradox-engine/engine.py:114-198 | a paradox born in a tick is of two motifs passed to it, opposed, each over 0.1 after its decay |
| Paradox.LookupIsLast | paradox-engine/engine.py:202-216 | the copy of a motif is refreshed from the last active motif of its id, if there is one |
| Paradox.UpdateMeans | paradox-engine/engine.py:200-226 | an update renews both copies, from the active motif or by a decay of their own; while both live it adds a tick, computes the tension anew and keeps peak and candidacy, and else leaves these as they were |
| Paradox.EnforceBoosts | paradox-engine/engine.py:230-252 | where one motif dominates, the other becomes the least of 1, 1.5 times itself and 0.6 times the ratio times itself, and the paradox is marked blocked |
| Paradox.EnforceSpares | paradox-engine/engine.py:230-252 | where neither dominates the mark goes and nothing else changes; a dead paradox is left alone |
| Paradox.ScoreOfMore | paradox-engine/engine.py:394-409 | the score is a mean: a dead paradox does not count, a living one adds its tension times its duration up to the threshold |
| Paradox.PairIdOrdered | paradox-engine/engine.py:455-457 | the key is the two ids in order, with the sign between |
| SustainedClash.TensionIs | paradox-engine/engine.py:459-492 | the tension is strength times the product of the intensities times the maturity, capped at 1; the strength is at least 1 for an opposed pair, and 1 less the cosine for another |
| SustainedClash.ClashLasts | paradox-engine/engine.py:114-252 | two motifs opposed and kept up over n ticks are one paradox, born at the first tick and n ticks old, its tension growing from half of w to w, the product of their decayed intensities, and the score is that times min(n, threshold) |
| SustainedClash.ClashEmergesOnce | paradox-engine/engine.py:114-295 | the log of those n ticks is empty when w is at most 0.2, and else has exactly one event, at the threshold m if w(2m - 1) > 0.4m, at m + 1 otherwise, once that tick is reached |
| ParadoxHeap.MotifState.Decay | paradox-engine/models.py:120-122 | takes the decay rate off, down to 0 |
| ParadoxHeap.MotifState.Boost | paradox-engine/models.py:124-126 | multiplies, capped at 1 |
| ParadoxHeap.MotifState.Copy | paradox-engine/models.py:132-140 | a fresh object with equal fields, whatever the decay rate, owned by no paradox |
| ParadoxHeap.ParadoxEngine.DetectEach | paradox-engine/engine.py:168-198 | the pair loops compute detection on values and take only fresh copies into the engine |
| ParadoxHeap.ParadoxEngine.UpdateEach | paradox-engine/engine.py:200-228 | refreshing copies from the active motifs computes the update and leaves the caller's motifs alone |
| ParadoxHeap.ParadoxEngine.EmergeEach | paradox-engine/engine.py:256-295 | marks and logs exactly the emissions, in order |
| ParadoxHeap.ParadoxEngine.CleanDead | paradox-engine/engine.py:500-508 | keeps exactly the paradoxes not fully dead, in order |
| ParadoxHeap.ParadoxEngine.ParadoxScore | paradox-engine/engine.py:394-409 | the loop computes the mean of tension times capped duration over living paradoxes |
| ParadoxHeap.ParadoxEngine.Tick | paradox-engine/engine.py:114-164 | one tick over objects is the tick on values; each caller's motif has decayed once and otherwise kept its intensity, and none became a paradox's copy |
| Somatic.DecayLaw | paradox-engine/api.py:136-152 | over any session that leaves a motif alone its intensity after n ticks is exactly max(0, i0 - n * decay_rate), and it is dropped exactly when that reaches 0, whatever paradoxes are held |
| Somatic.StepKeepsDictionary | paradox-engine/api.py:49-82 | every call keeps one active motif per id |
| Somatic.CallMeans | paradox-engine/api.py:49-152 | what each call makes of the active motifs: activating stores the motif under its id or is refused, setting bounds the intensity to [0, 1] and keeps the rest, deactivating removes, a tick keeps the decayed that live; and none touches another's |
| SomaticApi.SomaticStateAPI.ActivateMotif | paradox-engine/api.py:49-70 | the object returned is a new one and the one stored under the id; for an id the registry does not know, or an intensity outside [0, 1], it raises and changes nothing |
| SomaticApi.SomaticStateAPI.SetIntensity | paradox-engine/api.py:72-78 | clamps the intensity of the active motif of that id and touches no other, nor the engine |
| SomaticApi.SomaticStateAPI.Deactivate | paradox-engine/api.py:80-82 | removes the motif of that id from the dictionary and nothing else |
| SomaticApi.SomaticStateAPI.Tick | paradox-engine/api.py:136-152 | ticks the engine over the very objects it holds and drops the dead |
| Router.ContextNeverLowers | a_think/router.py:144-257 | text placed before and after an input, separated by spaces, never lowers its mode |
| Router.JoinNeverLowers | a_think/router.py:144-257 | joining two texts with a space never lowers the mode of either |
| Router.MatchesJoin | a_think/router.py:144-150 | a joined text matches a keyword exactly when a side does or the match lies across the join, which takes a space in the keyword |
| Router.JoinIsMaxUnlessAcross | a_think/router.py:235-257 | unless a phrase lies across the join, the joined mode is the greater of the two |
| Router.SimpleTaskIffFast | a_think/router.py:421-435 | the reported reason is simple_task exactly when the mode is FAST |
| Router.ModeIff | a_think/router.py:144-257 | GOVERN exactly when the input names a keyword of the external, irreversible or reputation list, THINK exactly when it names none of these but one of analysis or ambiguity, FAST exactly when it names none of the five |
| Router.ReasonIsFirstNamed | a_think/router.py:421-435 | the reason reported is the first of the five lists that the input names |
| Router.MatchesIffAlone | a_think/router.py:144-150 | a keyword that begins and ends with word characters matches exactly when it occurs with no word character before it and none after it |
| Router.DeletingIsGovern | a_think/router.py:174-257 | a request that begins with delete is GOVERN, whatever follows, in any alphabet that agrees with ASCII on small letters |
| Router.StopsFor | a_think/router.py:277-312 | an agent goes on exactly when no stop rule holds, and the reason given is the first rule that does |
| Affordance.HoldIff | a_think/affordance.py:132-173 | a refusal reads as HOLD exactly when the card is missing or incomplete, or the tool name, or the minimum mode cited, spells one of the two markers |
| Affordance.KnownIff | a_think/affordance.py:132-173 | a card is complete exactly when its purpose says something, it reads or writes something, no flag is open and it names a mode |
| Affordance.ReachesIff | a_think/affordance.py:132-173 | which minimum modes a mode reaches; an unknown name is reached by none |
| Affordance.AllowedIff | a_think/affordance.py:132-173 | a check allows exactly a complete card that the mode reaches and that does not destroy without asking |
| Affordance.RefusalsRead | a_think/affordance.py:132-173 | the refusals, word for word, in the order they are tried |
| Affordance.SpaceIff | a_think/affordance.py:132-173 | which characters a purpose may not consist of alone |
| Affordance.AffordanceRegistry.Register | a_think/affordance.py:117-119 | files the card under its name, replacing an earlier one |
| Guard.MCPGuard.GuardedCall | a_think/mcp_guard.py:204-343 | the trace answered and the whole guard state after a call are the functions of the state before, sessions not called being untouched |
| Guard.MCPGuard.EnsureSession | a_think/mcp_guard.py:223-230 | a session is opened by its first call with that call's mode and budget |
| Guard.MCPGuard.CheckPermission | a_think/mcp_guard.py:151-202 | HOLD, DENY or ALLOW as the card says and, where the id is given, not empty and known, the budget of its session |
| Guard.SessionsAccounted | a_think/mcp_guard.py:101-120 | in every history a session holds exactly one trace per call, tools_used is their number, steps_used the number allowed, and every allowed call came before the budget of its own mode and of the session's first call ran out |
| Guard.ToollessStaysToolless | a_think/mcp_guard.py:183-193 | a named session opened by an input whose mode grants no tools never runs one, whatever its later inputs |
| Guard.OnlyLicensedRun | a_think/mcp_guard.py:204-343 | in every history the call behind each answer that ran a tool found, in force at that moment, a complete card whose min_mode is at most the call's mode; a destructive one never in a GOVERN call, and never at all when its min_mode is GOVERN |
| Guard.CardInForce | a_think/affordance.py:117-119 | the card in force is the last one registered under the tool's name |
| Guard.AllowIff | a_think/mcp_guard.py:204-343 | exactly when a call is allowed |
| Guard.StopIff | a_think/mcp_guard.py:232-255 | STOP exactly when the session has used up the steps or tools of the budget of the call's own mode |
| Guard.HoldMeans | a_think/mcp_guard.py:257-308 | HOLD for a human only in a GOVERN call on a card that passed; any other HOLD is for a missing or incomplete card or for a name that spells a marker |
| Guard.RefusedIsHeldIff | a_think/mcp_guard.py:151-202 | a refused card holds the call, rather than denies it, exactly when it is missing or incomplete, or the tool or the mode not reached spells a marker |
| Guard.RunsIffAllowed | a_think/mcp_guard.py:310-335 | a tool runs, for real or dry, exactly on ALLOW, and the outcome says how that went; a call is held exactly when it waits for a human |
| Guard.DestructiveRunsIff | a_think/mcp_guard.py:286-308 | with room, a destructive tool that asks for approval runs exactly when the input is not GOVERN and its min_mode is reached |
| Guard.RiskyRunsNothingDestructive | a_think/mcp_guard.py:286-308 | in any state, a call whose input names an external, irreversible or reputation keyword runs no tool that is destructive or asks for approval |
| Guard.HeldIffRisky | a_think/mcp_guard.py:286-308 | with room and a complete card of a known mode, a tool that asks for approval is held for a human exactly in such a call |
| Guard.SessionBudgetBindsIffNamed | a_think/mcp_guard.py:183-193 | after a first call that granted no tools, a second with room of its own runs exactly when the session id is empty |
| OrTree.ParsePrinted | duties/security-disclosure-watch.py:227-231 | the key printed for plain words is read back completely, as the left-nested OR of them |
| OrTree.TreeMeansAny | duties/security-disclosure-watch.py:227-231 | that OR selects a message exactly when it contains one of the words |
| OrTree.ReadsBackIff | duties/security-disclosure-watch.py:227-231 | for any non-empty list, the printed key is read back completely and selects the messages with one of the words exactly when no word holds a quote, backslash, CR, LF, NUL or 8-bit character |
| OrTree.ParsedIsSpelled | duties/security-disclosure-watch.py:227-231 | whatever the reader of TEXT with a quoted string and of OR accepts is spelled, quote by quote, as what it read |
| OrTree.SpelledIsRead | duties/security-disclosure-watch.py:227-231 | and every key of words without CR, LF, NUL and 8-bit characters, spelled with its escapes, is read back as it was |
| OrTree.PlainIff | duties/security-disclosure-watch.py:227-231 | which words need no escape and may stand in a quoted string |
| Disclosure.SupersessionAcyclic | duties/security-disclosure-watch.py:542-565 | no trail of supersessions returns to its start |
| Disclosure.SomeCopyUnsuperseded | duties/security-disclosure-watch.py:542-565 | among the copies of any message the least by (seen, key) is superseded by none |
| Disclosure.OldestOpenCopy | duties/security-disclosure-watch.py:542-565 | a message with an open copy has a least open one |
| Disclosure.SupersededByMeans | duties/security-disclosure-watch.py:537-565 | what silences a record has its sender, normalised subject and receipt, is older by (seen, key) and came over another lane |
| Disclosure.DifferentIsWatched | duties/security-disclosure-watch.py:697-704 | a record that differs from every other in sender, normalised subject or receipt is watched exactly while it is open |
| Disclosure.DifferentIsRealerted | duties/security-disclosure-watch.py:697-740 | such an open record, received 72 hours ago or more and not re-alerted within 24, is re-alerted by a run in which both witnesses find no reply |
| Disclosure.DifferentIsReported | duties/security-disclosure-watch.py:673-695 | and a new one from a person is reported by every run but the baseline |
| Disclosure.OpenMessageWatchedIff | duties/security-disclosure-watch.py:697-704 | an open message keeps a watched copy exactly when no copy older than its oldest open one is on another lane than that one's; or, where the oldest open one carries no lane, also when some open copy is gws and so is every copy before it |
| Disclosure.LanedMessageWatchedIff | duties/security-disclosure-watch.py:697-704 | where the oldest open copy carries a lane: exactly when every copy before it came over that lane |
| Disclosure.OlderClosedCopySilences | duties/security-disclosure-watch.py:556-565 | an older closed copy on the other lane leaves the only open copy unwatched |
| Disclosure.LanelessCopySilences | duties/security-disclosure-watch.py:556-565 | so does an older closed copy on the same lane, when neither record carries one |
| Disclosure.WatchedOnOneLane | duties/security-disclosure-watch.py:701-704 | one message is never clocked on two lanes at once, a record without one counting as gws |
| Disclosure.AckClock | duties/security-disclosure-watch.py:697-740 | the loop, updating records as it goes in any order, re-alerts and acknowledges exactly the records that judging all against the state before it would |
| Disclosure.Scan | duties/security-disclosure-watch.py:673-695 | the loop adds each unknown message once; it reports exactly the keys new in this run whose record is human and superseded by nothing tracked at its end, and none on the baseline run |
| Disclosure.ScannedAs | duties/security-disclosure-watch.py:673-684 | a message found under an unknown key is tracked as first found: human unless ours or bulk, with 180 characters of its subject, its receipt and this run's time and lane, neither acknowledged nor dismissed |
| Disclosure.ScannedKeys | duties/security-disclosure-watch.py:673-684 | nothing else is added, |
| Disclosure.ScanKeeps | duties/security-disclosure-watch.py:673-676 | and what was tracked stays as it was |
| Disclosure.NoticingKeepsReports | duties/security-disclosure-watch.py:685-695 | a message noticed later in the run supersedes none noticed before it, so comparing with what is tracked so far is enough |
| Disclosure.AlertIff | duties/security-disclosure-watch.py:697-740 | exactly when a record is re-alerted, the reply-unknown rule of the two lanes included |
| Disclosure.AcknowledgedIff | duties/security-disclosure-watch.py:711-731 | exactly when a run marks a record acknowledged |
| Disclosure.AcknowledgedAs | duties/security-disclosure-watch.py:711-740 | what a run may write into a record: its own time as the acknowledgement, marked as given beside the thread when only the conversation had the reply, or as the last re-alert |
| Disclosure.RealertsAreSpaced | duties/security-disclosure-watch.py:708-734 | in every history of runs and operator edits two re-alerts of one record are at least 24 hours apart |
| Disclosure.NoEarlyRealert | duties/security-disclosure-watch.py:705-707 | and none comes within 72 hours of the receipt the record carries from when it is tracked |
| Disclosure.EditSets | duties/security-disclosure-watch.py:697-704 | an operator's edit sets the two marks of one tracked record |
| Timestamps.IsoOrder | duties/autonomic-recovery-agent.py:525-529 | comparing two printed UTC timestamps as strings is comparing the instants, with or without a fraction |
| Timestamps.IsoInjective | duties/autonomic-recovery-agent.py:748-751 | the printed form determines the timestamp |
| Timestamps.IsoReadsBack | duties/autonomic-recovery-agent.py:748-751 | the printed form has its separators, an offset of UTC and six digits of fraction unless it is zero, and reading its fields gives back the timestamp |
| Timestamps.MonthsStart | duties/autonomic-recovery-agent.py:748-750 | the days before each month, a leap day included |
| Timestamps.UnixEpoch | duties/autonomic-recovery-agent.py:748-750 | counted so, the first of January 1970 is day 719163 |
| Timestamps.PlusHalfHourAddsThirtyMinutes | duties/autonomic-recovery-agent.py:748-750 | adding thirty minutes to the fields, over day, month and year ends, adds thirty minutes to the instant |
| Recovery.SelectAction | duties/autonomic-recovery-agent.py:575-619 | the loops select the first action that passes its fitness, then the first observation, then the first action on HOLD |
| Recovery.SelectionPasses | duties/autonomic-recovery-agent.py:575-619 | what is selected passed, whenever anything did, and is an action whenever an action did |
| Recovery.SelectsFirst | duties/autonomic-recovery-agent.py:596-606 | of the actions that pass, the first in the list is selected |
| Recovery.SelectsObservation | duties/autonomic-recovery-agent.py:601-606 | when no action passes, the first observation that does |
| Recovery.SelectsHold | duties/autonomic-recovery-agent.py:607-619 | when nothing passes, the first action offered is put on hold, or else the first option |
| Recovery.DownIs | duties/autonomic-recovery-agent.py:230-303 | the services found down are those not up, and the one acted on is the first of them in the list |
| Recovery.FailedAre | duties/autonomic-recovery-agent.py:44-52 | a cycle is about the five services of the allowlist |
| Recovery.TwoDownIff | duties/autonomic-recovery-agent.py:279-298 | two or more are found down exactly when two places of the list are |
| Recovery.OffersByClass | duties/autonomic-recovery-agent.py:405-504 | what each class of failure is offered |
| Recovery.OffersIff | duties/autonomic-recovery-agent.py:306-504 | what is offered for a service found down: to observe always, a retry and a restart exactly when no failure of it is counted and the quick probe finds fewer than two down, to hold otherwise |
| Recovery.FitIff | duties/autonomic-recovery-agent.py:510-572 | an option passes exactly when it is not forbidden, can be carried out and its target is not cooling down, and, for a restart, none was done in the run, fewer than two services are down and no failure of the target is counted |
| Recovery.StateFile.Update | duties/autonomic-recovery-agent.py:733-775 | counts, cooldown and mutations after each outcome |
| Recovery.StateFile.RunCycle | duties/autonomic-recovery-agent.py:781-922 | the state file and the restart commands of a cycle are the functions of the file before |
| Recovery.AtMostOneRestart | duties/autonomic-recovery-agent.py:853-918 | one cycle gives at most one restart command, whatever the options |
| Recovery.EscalationHolds | duties/autonomic-recovery-agent.py:878-910 | the escalation never restarts the service it is about |
| Recovery.RestartMeans | duties/autonomic-recovery-agent.py:510-572 | a restart found no failure counted and no second service down, and the cooldown over at the clock reading of the very option selected |
| Recovery.RestartsAreSpaced | duties/autonomic-recovery-agent.py:733-757 | over any history and option lists, a successful restart and any later one of the same service are at least 30 minutes apart |
| Recovery.FailedRestartIsTheLast | duties/autonomic-recovery-agent.py:561-565 | after one failed restart a service is never restarted again |
| Recovery.FailedRetryCounts | duties/autonomic-recovery-agent.py:765-767 | a retry that finds the service down, at once or on verification, counts exactly one failure |
| Recovery.QuietCycleKeeps | duties/autonomic-recovery-agent.py:733-775 | a cycle that observes, holds, or retries and finds the service up remembers nothing and restarts nothing |
| Recovery.EscalationIff | duties/autonomic-recovery-agent.py:878-910 | a retry that fails on verification restarts exactly when an escalated restart names another service that is neither cooling down nor counted as failing, nothing else being down |
| Recovery.ForeignTargetIgnoresLimits | duties/autonomic-recovery-agent.py:524-565 | an option filed under another service's name restarts whatever is remembered about the service |
| Recovery.RealCycleRestartsIff | duties/autonomic-recovery-agent.py:405-504 | with the generated options a cycle restarts exactly when a cooldown runs out between the two evaluations |
| Recovery.RealAgentNeverRestarts | duties/autonomic-recovery-agent.py:405-504 | so an agent that begins without cooldowns never restarts anything |
| Kabarkan.Worker.HandleMessage | kabarkan/worker.py:297-329 | the handler up to its first await |
| Kabarkan.Worker.ResumeAccepted | kabarkan/worker.py:321-329 | a raising acknowledgement of an accepted record sends its handler to acknowledge again |
| Kabarkan.Worker.ResumeRejected | kabarkan/worker.py:308-314 | a rejected message counts as failed once acknowledged |
| Kabarkan.Worker.ResumeFailing | kabarkan/worker.py:322-329 | the acknowledgement in an exception branch counts a failure, or raises out of the handler |
| Kabarkan.Worker.WakeTimer | kabarkan/worker.py:336-352 | the whole batch leaves when it is full or its deadline is past |
| Kabarkan.Worker.FinishWrite | kabarkan/worker.py:123-190 | the rows are inserted one by one, an id already there being skipped; a failed write counts every record |
| Kabarkan.EveryPointHolds | kabarkan/worker.py:297-358 | at every await point of every interleaving: received + doubled = processed + failed + batched + in flight + being rejected + dropped + lost; records leave in order; the deadline is the first record's; the table is the written records inserted one by one |
| Kabarkan.CountersCount | kabarkan/worker.py:297-358 | in every interleaving received, processed, failed and flushes, and what was doubled, dropped and lost, are the sums of what each event is worth |
| Kabarkan.StartsIdle | kabarkan/worker.py:64-77 | a worker begins with nothing counted, batched, in flight or waiting |
| Kabarkan.HandlersMove | kabarkan/worker.py:297-329 | which handlers each event sends to wait, where, and which it frees |
| Kabarkan.HealthyBalance | kabarkan/worker.py:297-358 | with a pool and acknowledgements that succeed, received = processed + failed + batched + in flight, but for rejections awaiting acknowledgement |
| Kabarkan.PoollessDropsAll | kabarkan/worker.py:129-130 | without a pool all that is flushed is dropped and none of it counted |
| Kabarkan.FirstWriteWins | kabarkan/worker.py:152 | the row kept per id is the first written |
| Kabarkan.RedeliveryChangesNothing | kabarkan/worker.py:126-127 | writing a record again, anywhere later, changes nothing |
| Kabarkan.DrainedTable | kabarkan/worker.py:123-358 | however steps interleave and batches are cut, a drained worker's table is the delivered records inserted one by one |
| Kabarkan.BatchLeavesIff | kabarkan/worker.py:339-352 | a batch leaves whole or not at all, exactly when it holds 100 records or its first is 500 ms old; with a pool it goes into flight, without one it is dropped |
| Kabarkan.NoRecordOutstays | kabarkan/worker.py:318-350 | a timer that wakes when some record is a window old takes the whole batch |
| ExploreGraph.EvaluateGuardrails | forge_explore/guardrails.ts:213-247 | passes exactly when the depth gates, the contradiction limit and the tool's own rule hold, and lists each failing rule once |
| ExploreGraph.ClearIff | forge_explore/guardrails.ts:71-247 | what lets a call through: a depth under both gates, at most two hypotheses contradicted and unsupported, no visited URL for a follow, some evidence for a synthesis |
| ExploreGraph.NextUrlIsFirstBest | forge_explore/graph.ts:134-141 | the URL taken is the first unvisited one of highest priority |
| ExploreGraph.RankingKeepsNext | forge_explore/graph.ts:232-238 | ranking sorts the frontier, loses and adds nothing, and does not change which URL is next |
| ExploreGraph.RunGraph | forge_explore/graph.ts:420-448 | the loop dispatches by index modulo nine until the first CHECK_STOP with a reason or the last iteration |
| ExploreGraph.EndsForCause | forge_explore/graph.ts:348-375 | a run ends early exactly at a CHECK_STOP that finds the frontier empty or the depth spent |
| ExploreGraph.RunAccounts | forge_explore/graph.ts:128-311 | in any run no URL is fetched or followed twice or when already visited, visited is the initial set and those URLs, depth is its start plus the follows |
| ExploreGraph.DepthBound | forge_explore/guardrails.ts:77-85 | depth never passes min(depth.max, 3), unless it began beyond |
| ExploreGraph.VisitedGrows | forge_explore/graph.ts:189-197 | visited only grows along a run |
| ExploreGraph.TouchedAreGiven | forge_explore/graph.ts:93-183 | every URL fetched or followed came from the caller, a search result or a page's links |
| ExploreGraph.FetchFrontierIff | forge_explore/graph.ts:128-197 | after a fetch that took or refused a URL an entry is in the frontier exactly when it was there with another URL or, the URL being taken, is an unvisited link of its page, at 0.5; without an unvisited URL, or without an adapter, nothing changes |
| ExploreGraph.FollowFrontierIff | forge_explore/graph.ts:278-311 | after a follow exactly the entries of the URL it took or refused are gone |
| ExploreGraph.WithoutSkips | forge_explore/graph.ts:193-196 | taking a URL out leaves the others in their order: what is taken next is what would be, had the URL been visited |
| ExploreGraph.RoundEmptiesIff | forge_explore/graph.ts:93-366 | over pages without links a round whose search gives distinct URLs ends with FRONTIER_EMPTY exactly when these are at most two, none of them visited |
| ExploreGraph.ShortSearchEmpties | forge_explore/graph.ts:420-448 | a run whose search gives one or two new URLs, or none, ends so after nine dispatches |
| ExploreGraph.LongSearchNeverEmpties | forge_explore/graph.ts:420-448 | with three or more distinct URLs from a search its round never does |
| EvidenceGraph.Graph.PutEdge | forge_explore/evidence_graph.ts:154-173 | an edge of the triple gains the weight in place, else a new edge is pushed |
| EvidenceGraph.Graph.AddSourceNode | forge_explore/evidence_graph.ts:60-74 | pushes the source node, labelled by its title or else its URL, and touches no edge |
| EvidenceGraph.Graph.AddClaimNode | forge_explore/evidence_graph.ts:84-107 | pushes the claim node and makes the one reference call from its source |
| EvidenceGraph.Graph.AddHypothesisNode | forge_explore/evidence_graph.ts:117-144 | pushes the hypothesis node and makes one call per supporting and per contradicting reference listed |
| EvidenceGraph.EdgesAreTotals | forge_explore/evidence_graph.ts:154-173 | from any graph with one edge per triple, after any calls there is still one edge per triple that was there or asked for, weighing what it did plus the sum of the calls for it |
| EvidenceGraph.UpdatesCompose | forge_explore/evidence_graph.ts:117-144 | the graph after all updates is the graph of all their calls |
| EvidenceGraph.WeightsAreSaid | forge_explore/evidence_graph.ts:60-173 | after any updates an edge weighs one for each claim drawn from the source, one for each time a hypothesis lists the reference, and what was put directly |
| EvidenceGraph.Graph.BuildContradictionsList | forge_explore/synthesize.ts:95-113 | the loop describes every contradicting edge, in order |
| EvidenceGraph.ReportIsExact | forge_explore/synthesize.ts:177-183 | the report holds exactly one line for a reference and a node exactly when some hypothesis, or a direct edge, says the one contradicts the other |
| EvidenceGraph.EveryLineSaid | forge_explore/synthesize.ts:95-113 | and every line of the report is such a one |
| EvidenceGraph.LineSays | forge_explore/synthesize.ts:95-113 | a line names the reference first and the node second, each by its full claim, its title or else its URL, or the first 80 characters of its statement, with its URL or else its id as its source; a reference that is no node goes by its id |
| Critic.Falsify | forge_explore/critic.ts:121-174 | the loop, its early exits included, is the iterated clamp over all cycles with evidence, at most one without |
| Critic.ClosedForm | forge_explore/critic.ts:121-148 | from a confidence in range, with evidence, the loop returns clamp(c + maxCycles * delta) |
| Critic.GeneralForm | forge_explore/critic.ts:121-148 | from any confidence, the first step clamps and the rest collapse into one |
| Critic.ContradictedVerifiedIff | forge_explore/critic.ts:83-89 | with contradicting evidence a hypothesis is verified exactly when some cycle runs and it began below the floor |
| Critic.SupportedLoweredIff | forge_explore/critic.ts:91-97 | support alone lowers exactly when some cycle runs and it began above ceiling and floor |
| Critic.InRangeEvidenceCounts | forge_explore/critic.ts:121-174 | from a confidence in range contradiction never verifies and nothing else lowers |
| Critic.ContradictedOutcome | forge_explore/critic.ts:74-174 | from a confidence in range each piece of contradicting evidence takes 0.05 a cycle, down to the floor, whatever the support |
| Critic.SupportedOutcome | forge_explore/critic.ts:74-174 | support alone adds 0.02 a cycle for each of at most three pieces, up to the ceiling |
| Critic.UnevidencedOutcome | forge_explore/critic.ts:121-174 | no evidence changes nothing |
| Critic.FloorWins | forge_explore/critic.ts:121-148 | a floor above the ceiling is the answer once a cycle runs |

## Left out

- Bridges, proxies, audio, OAuth, Telegram and voice code; HTTP, subprocess, NATS, Postgres, MinIO and IMAP transport.
- `archive_to_minio` of the worker, its health endpoint and its shutdown; a write that fails after inserting some rows.
- JSON, paths, hashing, printing, telemetry, and the ledger entries of receipts beyond who, what and where.
- Floating-point rounding, vector norms and cosine similarity.
- The snapshot, curve, gate and text-injection calls of the paradox engine's interface, and the descriptions its events carry.
- The route's escalation, clarity gate and trace; risk labels, the fields of a budget the guard never reads, session hygiene, and tools that call the guard again while they run.
- The skill tracker of `affordance.py`, and loading cards and budgets from YAML.
- Lane probing, Gmail and IMAP searches and subject normalisation of the disclosure watch; alerts sent for a lost lane.
- Hypotheses, confidence, interventions and receipts of the recovery agent; a state file lost or edited between cycles.
- `getGraphStats`, `getNeighbors`, findings, open questions and the summary text of a synthesis: filters and counts.
- Edges that enter the evidence graph without a weight. The report is that of a graph begun empty.
- The interoceptive gate and other stubs of the exploration graph's nodes; adapters whose search raises.
- Locks.LockStore.Enter: the sleeps pass the deadline after finitely many, since a clock that never does would poll for ever.
- ParadoxHeap.MotifState.Copy: a motif whose intensity was set outside [0, 1] by hand, which the copy's constructor refuses.
- Recovery.RestartsAreSpaced: options are about the service their cycle is about, as all generated ones are; `ForeignTargetIgnoresLimits` shows what fails otherwise.
