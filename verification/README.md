# Verified models of the mailbox, the governance guards, the simulator and the web shell

This project models four stateful parts of the repository in Dafny and proves what they are for.

- **The runner mailbox.** `MailboxMachine` states the protocol as one step function over what an
  installation retains (records, tombstones, the high-water mark of time). `VolatileRepository` is
  the class that does the same work in place, with three running byte totals and loops.
  `PersistentRepository` loads one authenticated frame, takes one step, re-encodes and commits;
  `PersistentCodec` is its wire form as a tree of typed values. `MailboxEffects` says for every
  operation what it answers and what it leaves, field by field. `MailboxInvariant`, `MailboxFates`,
  `MailboxAuthority`, `MailboxRuns`, `MailboxDelivery` and `PersistentRuns` hold the guarantees: of every
  step, of every run of the machine, and of every history of any number of handles on one database.
  `MailboxCrypto` has the framings and the retained-material check, `ResultSeals` the service's
  path to a commit, `OverlongResults` what happens to a result that is too long.
- **The governance guards.** `DependencyGraph` is the depth-first cycle search with its
  visiting/visited sets and the closure checks. `RevisionHistory` and `LedgerHistory` are the checks
  of one revision against its base; `RevisionChains` is what they guarantee over whole chains, and
  `RevisionRows` the same, and the exact condition of acceptance, read off the rows of the documents.
- **The simulator.** `SimulatorEngine`, `SimulatorMail` and `SimulatorWeb` are the reservations, the
  joint commit with a failure possible at every point, and one delivery. `SimulatorInterleaving` runs
  any number of calls, interleaved at their locked sections.
- **The synthetic web shell.** `WebShell` has the two insertion-ordered stores with first-in
  first-out eviction; `WebShellRuns` interleaves logins, views and logouts, `WebShellOrder` has the
  order in which entries leave and the reasons for it, and `WebShellAlone` leads an uninterrupted call
  back to the shell's own methods.

Cryptography is an ideal box: `MailboxCrypto.Sound` and `PersistentRepository.VaultSound` say that
opening what was sealed under the same nonce and associated data returns the plaintext, that the tag
costs 16 bytes, and that serialized text can be read back. Hashes and MACs are functions about which
nothing is assumed. Clock readings, nonces, crash points, database outcomes, answers of the auth
service and places where an exception surfaces are parameters, so every theorem holds for all of them.

Where the code falls short of a property one might expect, the model keeps the code and states
exactly when the property holds:

- The repository does not check the bounds that `ClaimedAction`, `CommittedBundle` and the decoder
  put on its material. A collection faults exactly when the committed text is longer than the result
  bound (`MailboxRuns.CollectDelivers`). A frame loads again exactly when every record is within the
  decoder's bounds (`PersistentRepository.LoadWrittenExactly`), and a step leaves it unloadable exactly
  when it is an offer or a commit that passes its guard with material outside them
  (`PersistentRepository.StepKeepsFitExactly`). `OverlongResults` reaches both failures by five calls.
  Only direct callers of the repository can: the service bounds the text it receives, and every field
  of a result is bounded (packages/mycogni-connector-sdk/src/connector_protocol/result.py:126-218), so
  the canonical text it commits stays far below the bound; the proofs do not cover that last step.
- Entry-wise unique references do not mean distinct objects (`ResultSeals.UniqueEntriesAreNotDistinctObjects`);
  they do once the seals match (`ResultSeals.SealsAreABijection`).
- Evidence entries can be rebound between governance revisions exactly when the base is not of schema
  version 2 (`RevisionChains.EvidenceFrozenExactly`).
- A script whose first step has a delay can never begin (`SimulatorEngine.DelayedStartNeverBegins`).
- A delivery leaves its reservations behind exactly when an exception outside `Exception` strikes
  between reserving and rendering (`SimulatorWeb.DeliveryReleasesExactly`). Then the session is
  blocked for good (`SimulatorInterleaving.KilledBlocksItsSession`), and so is the place of its mail
  (`SimulatorInterleaving.KilledKeepsItsMail`).
- Installing a session loses a credential exactly when its handle is already in use
  (`WebShell.InstallConservesExactly`).

`dafny verify dfyconfig.toml` checks the whole project.

## Model

| member | source | states |
|---|---|---|
| Identifiers.SumRemove | services/runner_mailbox/persistent.py:1003-1075 | A sum over the records does not depend on the order in which they are visited. |
| MailboxCrypto.BindingFrameInjective | services/runner_mailbox/volatile.py:949-969 | The length-prefixed binding frame is uniquely decodable: equal frames mean equal bindings in every field. |
| MailboxCrypto.ManifestFrameInjective | services/runner_mailbox/volatile.py:868-894 | Equal committed-manifest frames agree on binding digest, result digest and the set of object identifiers, whatever order evidence was staged in. |
| MailboxCrypto.UnwrapWrap | services/runner_mailbox/volatile.py:745-816 | Freshly wrapped evidence unwraps to itself in its own mailbox and slot, and is 64 bytes longer than its payload. |
| MailboxCrypto.UnwrapWrapResult | services/runner_mailbox/volatile.py:971-1011 | A wrapped result unwraps to itself exactly when it is not empty, and is 80 bytes longer. |
| MailboxCrypto.UnwrapExactly | services/runner_mailbox/volatile.py:762-816 | Evidence opens to an upload exactly if its digest and MAC are right and the box, opened for this mailbox, object, slot, kind and length, holds the identifier, the payload digest and the payload. |
| MailboxCrypto.UnwrapResultExactly | services/runner_mailbox/volatile.py:971-1011 | A result opens exactly if digest and MAC are right and the box, opened for this binding and length, holds the binding digest, the digest of the text and the text, which is not empty. |
| MailboxCrypto.EvidenceAadInjective | services/runner_mailbox/volatile.py:745-760 | Equal associated data of evidence mean the same mailbox, object, slot, kind and length. |
| MailboxCrypto.ResultAadInjective | services/runner_mailbox/volatile.py:942-948 | Equal associated data of results mean the same binding digest and length. |
| MailboxCrypto.AadsNeverMeet | services/runner_mailbox/volatile.py:745-948 | Evidence and results never share associated data. |
| MailboxCrypto.ManifestBinds | services/runner_mailbox/volatile.py:868-916 | A manifest fits one binding, one stored result and one set of objects only, or two texts with the same hash are at hand. |
| MailboxMachine.OldestIsOldest | services/runner_mailbox/volatile.py:571-598 | The chosen set is a prefix of the due records in (terminal time, identifier) order, of size min(due, room). |
| MailboxMachine.OldestUnique | services/runner_mailbox/volatile.py:571-598 | Such a prefix is determined by its size, so the order of the dictionary cannot matter. |
| MailboxInvariant.StepKeepsInv | services/runner_mailbox/persistent.py:977-1123 | Every operation, on success, denial, fault or injected crash, keeps the whole repository invariant: lifecycle shape, ordered times, globally distinct credential digests, quotas over recomputed sums, tombstone spans, authentic retained material. |
| MailboxInvariant.DecisionAllowed | services/runner_mailbox/volatile.py:166-616 | Whatever an operation changes has passed every check (state, deadline, quota, credential reuse, digest) that makes the change safe. |
| MailboxFates.StepFate | services/runner_mailbox/volatile.py:166-616 | Across any step each mailbox is untouched, created, moved by one allowed move, buried, or forgotten after its tombstone expired. |
| MailboxFates.DenialsAreAtomic | services/runner_mailbox/volatile.py:166-616 | A denial other than EXPIRED changes nothing; an EXPIRED denial changes nothing on creation and otherwise exactly expires the addressed, due mailbox. |
| MailboxFates.CrashesAreAtomic | services/runner_mailbox/volatile.py:288-507 | An injected crash leaves the state before the call or the complete state the same call would have left. |
| MailboxFates.StepNeverContends | services/runner_mailbox/volatile.py:166-616 | No operation of the machine is ever answered CONTENDED or OVERSIZE: those two denials are the durable adapter's own. |
| MailboxFates.CollectionIsExact | services/runner_mailbox/volatile.py:555-599 | A collection of garbage buries precisely the oldest due mailboxes, as many as there are free tombstone slots, answers them in order, and changes nothing else but the time marks. |
| MailboxFates.ExpireIsExact | services/runner_mailbox/volatile.py:536-553 | The sweep answers, in order, exactly the mailboxes it turned to EXPIRED, and only observes those that are not due. |
| MailboxAuthority.NothingWithoutCredentials | services/runner_mailbox/volatile.py:618-663 | A caller who does not present the operation's credentials for that very binding gets a denial other than EXPIRED and changes nothing, not even an expiry. |
| MailboxAuthority.OneCredentialOneUse | services/runner_mailbox/volatile.py:626-641 | In every reachable state a credential digest serves one role only and, outside maintenance, one mailbox only. |
| MailboxAuthority.OthersAreUntouched | services/runner_mailbox/volatile.py:166-534 | An operation on one mailbox never touches another record or any tombstone. |
| MailboxAuthority.CreateSucceedsExactly | services/runner_mailbox/volatile.py:166-223 | Creation succeeds exactly for a free identifier, room, three new and distinct credentials, and a claim deadline ahead. |
| MailboxAuthority.OfferSucceedsExactly | services/runner_mailbox/volatile.py:225-286 | An offer is accepted and takes effect exactly when authorized, the mailbox is empty and before its claim deadline, the result credential is unused anywhere, and the active quota holds. |
| MailboxAuthority.ClaimSucceedsExactly | services/runner_mailbox/volatile.py:288-322 | A claim delivers exactly when authorized, offered, strictly before the claim deadline, and within the action's bounds. |
| MailboxAuthority.StageSucceedsExactly | services/runner_mailbox/volatile.py:324-378 | Evidence is accepted exactly when authorized, in time, new, within items, response and installation bounds, and its digest is right; what is kept of it is `MailboxEffects.StageExactly`. |
| MailboxAuthority.CommitSucceedsExactly | services/runner_mailbox/volatile.py:380-450 | A commit takes effect exactly when authorized, in time, its seals name and match the staged evidence, both byte bounds hold and the text agrees, unless it crashes before; it is answered exactly when it does not crash either. |
| MailboxEffects.CreateExactly | services/runner_mailbox/volatile.py:166-223 | The answer of a creation is the first condition it fails, in order and without effect, or the snapshot of the new empty record, given field by field. |
| MailboxEffects.OfferExactly | services/runner_mailbox/volatile.py:225-286 | The same of an offer; accepted, the record is OFFERED and holds exactly the offered envelope, key, result credential and its digest, and nothing else changed. |
| MailboxEffects.ClaimExactly | services/runner_mailbox/volatile.py:288-322 | The same of a claim; taken, the record is CLAIMED_ONCE without any of the three pieces, which are exactly what the reply hands out, unless it faults or crashes. |
| MailboxEffects.StageExactly | services/runner_mailbox/volatile.py:324-378 | The same of staging; accepted, the record also holds the upload, which opens to itself, its evidence bytes grow by the payload, and nothing else changed. |
| MailboxEffects.CommitExactly | services/runner_mailbox/volatile.py:380-450 | The same of a commit; taken, the record is RESULT_COMMITTED and READY without its result credential, and authenticates to exactly the text and all evidence staged before. |
| MailboxEffects.CollectExactly | services/runner_mailbox/volatile.py:452-478 | A collection of a committed, unacknowledged result marks it DELIVERING and returns what it authenticates to, or faults for a text that is too long; any other call is refused without effect. |
| MailboxEffects.AcknowledgeExactly | services/runner_mailbox/volatile.py:480-507 | An acknowledgement of a DELIVERING result leaves it ACKNOWLEDGED and terminal now, without result, manifest and evidence, whether it is answered or crashes after; acknowledged again it is only observed; any other is refused without effect. |
| MailboxEffects.AbandonExactly | services/runner_mailbox/volatile.py:509-534 | An open mailbox in time becomes ABANDONED and loses everything it holds; a late one lapses and is refused as EXPIRED; a committed or abandoned one is refused without effect. |
| MailboxEffects.InspectExactly | services/runner_mailbox/volatile.py:601-616 | An inspection with the right credential and a usable clock always shows the record as it then is, lapsed first if it is late. |
| MailboxEffects.ExpireExactly | services/runner_mailbox/volatile.py:536-553 | A sweep goes ahead exactly with the maintenance credential and a usable clock; then every late record lapses, the others are only observed, and the newly lapsed are answered in order. |
| MailboxEffects.CollectionExactly | services/runner_mailbox/volatile.py:555-599 | A collection of garbage goes ahead exactly with the maintenance credential, a usable clock and a tombstone span that fits; it buries all mailboxes terminal for the whole retention, or the oldest of them and the tombstones are then full, and forgets expired tombstones. |
| MailboxEffects.AgreesExactly | services/runner_mailbox/volatile.py:918-940 | The reference check holds exactly if the text parses to a result of this action and attempt whose seals name each staged object once, no other, and describe it. |
| MailboxDelivery.AcknowledgedForGood | services/runner_mailbox/volatile.py:480-507 | Over any run, once an acknowledgement was answered or crashed after taking effect, the record holds nothing, is terminal, and no collection in that incarnation returns data. |
| MailboxDelivery.StagedComesBack | services/runner_mailbox/volatile.py:324-478 | Over any run, evidence accepted earlier in the incarnation is in every bundle delivered later, with its kind, digest and payload. |
| MailboxDelivery.ClaimedIsOffered | services/runner_mailbox/volatile.py:225-322 | Over any run, a claim hands out exactly the envelope, key and result credential that were offered in that incarnation. |
| MailboxDelivery.BundleAgrees | services/runner_mailbox/volatile.py:452-478 | A delivered bundle agrees with its own text: action, attempt, and one describing seal for each piece of evidence in it. |
| VolatileRepository.Repository.constructor | services/runner_mailbox/volatile.py:137-164 | A new repository is empty with zero totals. |
| VolatileRepository.Repository.Create | services/runner_mailbox/volatile.py:166-223 | In-place creation equals the machine's decision; the running totals stay the sums. |
| VolatileRepository.Repository.Offer | services/runner_mailbox/volatile.py:225-286 | In-place offer equals the machine's decision, quota on the running total included. |
| VolatileRepository.Repository.Claim | services/runner_mailbox/volatile.py:288-322 | In-place claim equals the machine's decision, with both crash points. |
| VolatileRepository.Repository.StageEvidence | services/runner_mailbox/volatile.py:324-378 | In-place staging equals the machine's decision, with both crash points. |
| VolatileRepository.Repository.CommitResult | services/runner_mailbox/volatile.py:380-450 | In-place commit equals the machine's decision: set checks, the seal loop, quota, reference check, both crash points. |
| VolatileRepository.Repository.Collect | services/runner_mailbox/volatile.py:452-478 | In-place collection equals the machine's decision. |
| VolatileRepository.Repository.AcknowledgeCollection | services/runner_mailbox/volatile.py:480-507 | In-place acknowledgement equals the machine's decision, with both crash points; what that is, field by field, is `MailboxEffects.AcknowledgeExactly`. |
| VolatileRepository.Repository.AbandonMailbox | services/runner_mailbox/volatile.py:509-534 | In-place abandonment equals the machine's decision. |
| VolatileRepository.Repository.InspectMailbox | services/runner_mailbox/volatile.py:601-616 | In-place snapshot equals the machine's decision, expiry included. |
| VolatileRepository.Repository.ExpireIfDue | services/runner_mailbox/volatile.py:685-703 | Expires exactly a due record, releasing its bytes from the totals. |
| VolatileRepository.Repository.ExpireAll | services/runner_mailbox/volatile.py:536-553 | The sweep loop equals expiring all due records at once and answers the newly expired in order. |
| VolatileRepository.Repository.GarbageCollectAll | services/runner_mailbox/volatile.py:555-599 | The sorted loop with its slot limit equals the machine's order-free selection. |
| VolatileRepository.Repository.Perform | services/runner_mailbox/volatile.py:134-616 | Any operation on the class with incremental totals equals one step of the machine and keeps the repository consistent. |
| VolatileRepository.SortRecords | services/runner_mailbox/volatile.py:571-579 | Lists every record once, terminal time first, identifier second. |
| VolatileRepository.ValidateAllMaterial | services/runner_mailbox/persistent.py:453-456 | True exactly when every record's retained material authenticates. |
| VolatileRepository.CredentialInUse | services/runner_mailbox/volatile.py:626-641 | True exactly when another record holds the digest. |
| MailboxRuns.RunKeepsInv | services/runner_mailbox/persistent.py:977-1123 | The invariant holds in every state of every run, lost and refused replies included. |
| MailboxRuns.TimeNeverGoesBack | services/runner_mailbox/volatile.py:665-683 | Over any run the high-water mark never decreases. |
| MailboxRuns.LifecycleNeverGoesBack | services/runner_mailbox/volatile.py:685-733 | Within one incarnation ranks never decrease, a final state is kept, and a terminal record only has its last-seen time change. |
| MailboxRuns.CrossingsAreFarApart | services/runner_mailbox/volatile.py:576-598 | Before a mailbox identifier passes the same lifecycle rank again its record has left the installation, and the record that passes it then was created at least both retention periods after the first passing. |
| MailboxRuns.ClaimsAreFarApart | services/runner_mailbox/volatile.py:288-322 | At most one claim is delivered per incarnation, over any run with crashes and lost replies: between two claims the record is gone, and the second one's record was created both retention periods after the first claim. |
| MailboxRuns.CommitsAreFarApart | services/runner_mailbox/volatile.py:380-450 | At most one result is committed per incarnation, and none after it expired or was abandoned: before such a commit the record is gone and was created anew both retention periods later. |
| MailboxRuns.CreationsAreRefusedUntilForgotten | services/runner_mailbox/volatile.py:176-179 | Once an identifier is known, every creation under it is denied and changes nothing until a collection of garbage at or after its tombstone's expiry has forgotten it. |
| MailboxRuns.CrossedIsRefusedForBothRetentions | services/runner_mailbox/volatile.py:576-598 | After a lifecycle rank was passed that collection is at least both retention periods later. |
| MailboxRuns.CreationsAreApart | services/runner_mailbox/volatile.py:166-223 | Two creations of one identifier take effect only with such a collection between them. |
| MailboxRuns.ResultStaysDeliverable | services/runner_mailbox/volatile.py:829-866 | From commit until acknowledgement nothing takes the result or its evidence away: not time, abandonment, a sweep or a crash. |
| MailboxRuns.BundleFitsExactly | services/runner_mailbox/domain.py:292-311 | What authenticates meets the bundle's own bounds exactly when the result is within the result bound. |
| MailboxRuns.CollectDelivers | services/runner_mailbox/volatile.py:452-478 | A collection with the right credential and a usable clock returns exactly the committed bytes and evidence, or faults exactly when the text exceeds the result bound. |
| MailboxRuns.CommittedThenCollected | services/runner_mailbox/volatile.py:380-478 | Over any run, a collection after a commit and before acknowledgement returns the committed bytes and the evidence staged at commit. |
| MailboxRuns.NothingAfterAcknowledgement | services/runner_mailbox/volatile.py:480-507 | From any state where the record is ACKNOWLEDGED, no data is returned in that incarnation and none is retained; `MailboxDelivery.AcknowledgedForGood` starts from the answered call. |
| ResultSeals.SealsAreABijection | services/runner_mailbox/service.py:257-276 | Once the set checks and the match loop pass, entry-wise uniqueness, distinct objects and equal counts are the same thing, and each staged object has exactly one seal. |
| ResultSeals.UniqueEntriesAreNotDistinctObjects | packages/mycogni-connector-sdk/src/connector_protocol/result.py:198-203 | Entry-wise uniqueness alone allows two references to one object. |
| ResultSeals.ChecksImplyReferences | services/runner_mailbox/volatile.py:917-939 | The repository's checks on the seals imply its later check on the re-encoded result. |
| ResultSeals.ServiceCommitUncertainExactly | services/runner_mailbox/service.py:248-276 | A commit handed over by the service is answered INTERNAL_UNCERTAINTY exactly when the call is not even admitted. |
| ResultSeals.ServiceCommitUncertainInReach | services/runner_mailbox/service.py:248-276 | In a reachable state that is exactly an authorized commit to a claimed mailbox under an unusable clock. |
| ResultSeals.ServiceCommitSucceedsExactly | services/runner_mailbox/service.py:248-276 | A result that the service hands over is committed exactly when authorized and in time, its own seals name and describe exactly the staged evidence, and the canonical text fits both byte bounds. |
| PersistentCodec.RecordRoundTrip | services/runner_mailbox/persistent.py:633-727 | A record decodes to itself when it is within the byte bounds, and otherwise not at all. |
| PersistentCodec.StateRoundTripExactly | services/runner_mailbox/persistent.py:544-631 | A state decodes to itself and its totals exactly when every record is within the byte bounds, and otherwise is refused. |
| PersistentCodec.StateInjective | services/runner_mailbox/persistent.py:544-567 | Different states have different encodings, so comparing encodings detects every change. |
| PersistentCodec.IndexItems | services/runner_mailbox/persistent.py:590-610 | The decode loop refuses duplicate and reserved identifiers and yields the specified dictionary. |
| PersistentRepository.LoadedInv | services/runner_mailbox/persistent.py:426-462 | Every frame a load accepts, whoever wrote it, holds a state with the whole invariant and exact totals. |
| PersistentRepository.WriteRefusedOnlyForSize | services/runner_mailbox/persistent.py:464-481 | From a reachable state a write is never refused on semantic grounds: only for the generation limit or the frame size. |
| PersistentRepository.LoadWrittenExactly | services/runner_mailbox/persistent.py:426-481 | What a write produced loads back to the same state, totals and generation exactly when all records are within the decoder's bounds. |
| PersistentRepository.TransitionRefines | services/runner_mailbox/persistent.py:329-392 | Safety of one transition, whatever the database does: it refuses and leaves the frame, or takes exactly one machine step, with that step's reply or INTERNAL_UNCERTAINTY, and the new state one generation later, or the same frame if nothing changed. When it must answer is `PersistentRepository.HealthyTransitionAnswers`. |
| PersistentRepository.HealthyTransitionAnswers | services/runner_mailbox/persistent.py:329-392 | On a free database, with an unpoisoned handle and a durable commit, a step that gives a result and whose state can be saved is answered with its own reply, the frame holds its state one generation later if it changed, and the handle is poisoned only if that reply is INTERNAL_UNCERTAINTY. |
| PersistentRepository.ObstructedTransitionAnswers | services/runner_mailbox/persistent.py:337-392 | Each obstacle has its own answer: CONTENDED for a busy database, OVERSIZE for a frame that is too large, INTERNAL_UNCERTAINTY for a broken start, a fault, the generation limit or a lost commit; only a lost commit can leave the new frame. |
| PersistentRepository.LoadedIsAuthentic | services/runner_mailbox/persistent.py:426-462 | What loads comes from an intact row of this version, opened under its own generation and lineage to exactly the canonical text of the state it yields. |
| PersistentRepository.FrameAadInjective | services/runner_mailbox/persistent.py:493-502 | The data a frame is bound to determines its generation and the lineage of its vault. |
| PersistentRepository.OpenRefines | services/runner_mailbox/persistent.py:155-175 | Opening never changes an existing frame; over an absent one it writes the empty installation at generation zero. |
| PersistentRepository.HealthyOpeningSucceeds | services/runner_mailbox/persistent.py:155-175 | On a free database opening gives a handle: over an absent row exactly when the empty installation can be saved, over a row whenever it loads. |
| PersistentRepository.PoisonedExactlyWhenUncertain | services/runner_mailbox/persistent.py:374-392 | A transition poisons its handle exactly when it answers INTERNAL_UNCERTAINTY, and a poisoned handle never changes the frame. |
| PersistentRepository.RefusalsKeepTheFrame | services/runner_mailbox/persistent.py:337-392 | A CONTENDED or OVERSIZE answer and the generation limit leave the frame; a frame changes only by an unpoisoned handle with a started transaction, and by one generation, below the limit. |
| PersistentRepository.StepKeepsFitExactly | services/runner_mailbox/persistent.py:787-876 | A step leaves a loadable state unloadable exactly when it is an offer or a commit that passes its guard and carries material outside the byte bounds. |
| PersistentRepository.ChangedFrameLoadsExactly | services/runner_mailbox/persistent.py:365-372 | A frame that a transition changed loads again exactly unless the call was such an offer or commit. |
| OverlongResults.CommitThenCollect | services/runner_mailbox/volatile.py:380-478 | After a commit that passes its guard, a collection delivers the bundle or faults by the length of the text alone. |
| OverlongResults.FiveCalls | services/runner_mailbox/volatile.py:166-478 | For any text the parser accepts, five calls from an empty installation commit and collect it: the collection faults exactly when the text is over the result bound, and the state can be loaded again exactly when it is within the decoder's. |
| OverlongResults.OverlongResultsAreReachable | services/runner_mailbox/domain.py:292-311 | A concrete installation reaches a committed result whose collection faults and whose state no longer loads. |
| PersistentRepository.ValidateRecords | services/runner_mailbox/persistent.py:977-1064 | One pass with an observed-digest set and three accumulators decides per-record checks and distinctness, and yields the sums. |
| PersistentRepository.ValidateSemantics | services/runner_mailbox/persistent.py:977-1123 | The accumulator loops decide the global predicate. |
| PersistentRepository.Handle.Open | services/runner_mailbox/persistent.py:155-175 | Opening equals its specification, for every database outcome. |
| PersistentRepository.Handle.Run | services/runner_mailbox/persistent.py:329-392 | Lock, load, one operation on a restored repository, re-encode, commit and poison equal the transition's specification, whose answers are the subject of `HealthyTransitionAnswers` and `ObstructedTransitionAnswers`. |
| PersistentRuns.HistoryRefinesRun | services/runner_mailbox/persistent.py:105-392 | Any history of any handles is a run of the mailbox machine with the very replies the callers saw. |
| PersistentRuns.HealthyCallsAreAnswered | services/runner_mailbox/persistent.py:329-392 | In any history a healthy call is answered with the reply of its step on the state the row stood for, the row then stands for the state after it, and the handle stays usable unless that reply is INTERNAL_UNCERTAINTY. |
| PersistentRuns.DurableClaimsFarApart | services/runner_mailbox/persistent.py:253-258 | With handles racing, failing and restarting, at most one claim is delivered per incarnation: in between the rows stand for a state without the record, and the second one's record was created both retention periods later. |
| PersistentRuns.ReadingIsRun | services/runner_mailbox/persistent.py:426-481 | A row stands for one state only, and whatever the rows of a history stand for is a run of the machine. |
| PersistentRuns.DurableCommitsFarApart | services/runner_mailbox/persistent.py:273-285 | At most one result is committed per incarnation, whatever its callers were told, lost replies included. |
| PersistentRuns.AnsweredCommitsFarApart | services/runner_mailbox/persistent.py:273-285 | In particular two commits that were answered, or crashed right after, are in two incarnations. |
| PersistentRuns.DurableCreationsAreRefused | services/runner_mailbox/persistent.py:211-227 | Once a row knows an identifier, a creation under it takes effect only after some handle collected garbage at or after its tombstone's expiry. |
| PersistentRuns.CommitReplyIsACommit | services/runner_mailbox/volatile.py:380-450 | An answered commit, or one that crashed right after, moved its mailbox strictly before the result deadline. |
| PersistentRuns.DurableAcknowledgedForGood | services/runner_mailbox/persistent.py:294-301 | Across handles, failures and restarts, once an acknowledgement was answered no call returns that record's data again and none is retained. |
| PersistentRuns.DurableStagedComesBack | services/runner_mailbox/persistent.py:260-292 | Across handles, failures and restarts, evidence whose staging was answered is in every bundle delivered later while the record stands. |
| PersistentRuns.GenerationCountsChanges | services/runner_mailbox/persistent.py:365-372 | The generation counts the changes of the row, whoever made them. |
| PersistentRuns.PoisonedForGood | services/runner_mailbox/persistent.py:374-392 | A poisoned handle answers INTERNAL_UNCERTAINTY to every call and leaves the row alone until it is closed. |
| PersistentRuns.StoreStaysLoadable | services/runner_mailbox/persistent.py:426-481 | While callers keep to the byte bounds, the row always loads, to the state it stands for. |
| DependencyGraph.CycleSearch.Visit | scripts/ci/governance_guard.py:159-171 | The recursive visit terminates, keeps the path, and finishes names after their dependencies as long as nothing is reported. |
| DependencyGraph.CycleSearch.Search | scripts/ci/governance_guard.py:156-174 | A cycle is reported exactly when the graph has one; every reported chain is a walk whose last name repeats. |
| DependencyGraph.CheckDependencies | scripts/ci/governance_guard.py:153-176 | Exactly the unknown dependencies, cycles if and only if there are any, and when nothing is wrong an order of all packages with dependencies first. |
| DependencyGraph.ScheduleMeansNoCycle | scripts/ci/governance_guard.py:159-174 | Names listed after their dependencies cannot lie on a closed walk. |
| DependencyGraph.DirectCheckIsExact | scripts/ci/governance_guard.py:781-789 | Checking direct dependencies is equivalent to closure over all transitive ones. |
| DependencyGraph.CheckPrerequisites | scripts/ci/governance_guard.py:776-789 | Names exactly the COMPLETE or VERIFIED packages with a direct dependency that is neither, and those dependencies; names none exactly when every dependency of a finished package, at any distance, is finished. |
| DependencyGraph.CheckMilestone | scripts/ci/governance_guard.py:996-1002 | Error-free exactly when the milestone's package set is closed over transitive dependencies. |
| RevisionHistory.ValidateAgainstBase | scripts/ci/governance_guard.py:1163-1327 | Exactly the reported findings: version, content, disappearance, rebinding, approval and promotion. What no finding means, read off the rows, is `RevisionRows.AcceptsExactly`. |
| RevisionHistory.CheckVersions | scripts/ci/governance_guard.py:1172-1187 | Exactly the version regressions and unversioned changes. |
| RevisionHistory.CheckPromotions | scripts/ci/governance_guard.py:1304-1326 | Exactly the reported promotions; which those are, by the statuses themselves, is `RevisionRows.PromotionReportedExactly`. |
| RevisionRows.AcceptsExactly | scripts/ci/governance_guard.py:1163-1327 | A revision is accepted exactly when every version is at least the base's and rises with every change, every row of the base that counts is still there and as it was where that is demanded, and every new attestation, milestone and promotion has its approvals. |
| RevisionRows.PromotionReportedExactly | scripts/ci/governance_guard.py:1304-1326 | A promotion is reported exactly when a package newly turns COMPLETE or VERIFIED, or VERIFIED from COMPLETE, and its trace record names no approved attestation; for VERIFIED also exactly when not one approved milestone alone covers it. |
| RevisionRows.FinishingWasAttested | scripts/ci/governance_guard.py:1304-1318 | Over any chain, a package that is COMPLETE or VERIFIED and was neither before became so at a step whose trace record names an attestation approved for that step. |
| RevisionRows.VerificationWasSponsored | scripts/ci/governance_guard.py:1304-1326 | Over any chain, a package that is VERIFIED and was not, COMPLETE or less, became so at a step with an approved attestation and with one approved milestone alone covering it. |
| RevisionRows.VersionsOnlyRise | scripts/ci/governance_guard.py:1157-1186 | Over any chain the version numbers of all four documents only rise, major number first. |
| RevisionRows.DocumentsFollowVersions | scripts/ci/governance_guard.py:1172-1187 | Over any distance each of the four documents changed exactly if its version did. |
| RevisionRows.RecordsStay | scripts/ci/governance_guard.py:1207-1222 | Over any chain the row that counts for a trace record stays, with its package, mappings, criteria and evidence. |
| RevisionRows.EvidenceStays | scripts/ci/governance_guard.py:1224-1232 | Over any chain evidence stays listed, and stays as it is while every revision on the way has schema version 2. |
| RevisionRows.AttestationsStay | scripts/ci/governance_guard.py:1250-1280 | Over any chain the rows that count for attestations of packages and milestones stay as they are. |
| RevisionRows.ScopeStays | scripts/ci/governance_guard.py:1240-1249 | Over any chain whose planning tables are available, work packages stay as they are and rows of the completion matrix stay. |
| RevisionRows.SelectionMeans | scripts/ci/governance_guard.py:593-601 | A selection can be hashed exactly if its identifiers are distinct and known, and hashes its entries in ascending order of identifiers. |
| RevisionRows.AttestationEntered | scripts/ci/governance_guard.py:1250-1272 | An attestation entered at one step, as it is now, under an adequate approval that names it, its reviewer, and the hashes of itself, its criteria and its evidence. |
| RevisionRows.MilestoneEntered | scripts/ci/governance_guard.py:1274-1302 | The same of a milestone, with the hashes of its definition and of the evidence of the definition's gates. |
| RevisionChains.VersionsNeverRegress | scripts/ci/governance_guard.py:1157-1186 | Over any accepted chain versions never decrease, in the numeric precedence of section 11 of Semantic Versioning 2.0.0. |
| RevisionChains.EqualVersionsEqualContent | scripts/ci/governance_guard.py:1172-1187 | Over any distance in a chain, equal versions and equal content are the same thing. |
| RevisionChains.EntriesNeverDisappear | scripts/ci/governance_guard.py:1196-1253 | Nothing ever accepted disappears from a chain. |
| RevisionChains.EntriesNeverRebound | scripts/ci/governance_guard.py:1207-1280 | Nothing ever accepted is rebound or mutated, evidence as long as every base on the way is of schema version 2. |
| RevisionChains.EvidenceFrozenExactly | scripts/ci/governance_guard.py:1224-1232 | An evidence entry can be rebound without approval exactly when the base's schema version is not 2. |
| RevisionChains.AttestationWasApproved | scripts/ci/governance_guard.py:1250-1272 | An attestation entered the chain at one step, already in its present form, with an approval for exactly it. |
| RevisionChains.MilestoneWasApproved | scripts/ci/governance_guard.py:1274-1302 | The same for milestone attestations. |
| RevisionChains.SelectionIsStable | scripts/ci/governance_guard.py:593-601 | A selection that could be hashed keeps its hash while its entries are kept. |
| RevisionChains.AttestationApprovalLasts | scripts/ci/governance_guard.py:604-622 | An approval still authorizes its attestation against the criteria and evidence of any later revision, while evidence is frozen. |
| RevisionChains.MilestoneApprovalLasts | scripts/ci/governance_guard.py:604-622 | The same for milestone attestations and their definitions. |
| RevisionChains.AttestationsStayCovered | scripts/ci/governance_guard.py:1250-1272 | Every attestation added since the start is covered by an approval that still fits the current revision, when its selections were valid. |
| LedgerHistory.ValidateHistory | scripts/ci/threat_catalog_guard.py:443-478 | Exactly the faults of a ledger against its baseline; a malformed baseline hides all others. |
| LedgerHistory.PassesExactly | scripts/ci/threat_catalog_guard.py:443-478 | A ledger passes exactly when its base is of schema version 1 with exact rows and every allocation that counts there still counts, with its kind, identity and introduction, RETIRED if it was. |
| LedgerHistory.AllocationsAreForever | scripts/ci/threat_catalog_guard.py:443-478 | Over any accepted chain identifiers stay allocated, keep kind, identity and introduction, and RETIRED is absorbing. |
| SimulatorProtocol.AcceptsDefinition | simulator/protocol.py:163-177 | The construction loop accepts exactly the chained scripts of 1 to 8 steps. |
| SimulatorProtocol.ControllableClock.Advance | simulator/clock.py:27-32 | The clock moves by exactly the accepted seconds and never back. |
| SimulatorEngine.ScenarioEngine.Reserve | simulator/engine.py:335-405 | The in-place reservation equals its specification, refusals in the order of the checks; what it hands out and refuses is the subject of `ReservationFollowsScript` and `RefusalMeans`. |
| SimulatorEngine.ReservationFollowsScript | simulator/engine.py:335-405 | A reservation is of the script's own step at the session's index: its result carries that step's state, status, body, evidence and mail and the time, its next session is the end of that step, and nothing else changes. |
| SimulatorEngine.RefusalMeans | simulator/engine.py:343-383 | In a reachable state, which refusal an ask gets, in the order of the checks, and that it is reserved otherwise. |
| SimulatorEngine.ScenarioEngine.Commit | simulator/engine.py:440-449 | Commits a live plan, refuses a stale one untouched. |
| SimulatorEngine.PrepareKeepsInv | simulator/engine.py:335-405 | Reserving keeps one reservation per session, the cap of 64 with new sessions counted, and scripts and pacing. |
| SimulatorEngine.CommitKeepsInv | simulator/engine.py:421-438 | A commit replaces exactly the session its reservation was computed from, by that session's next scripted step. |
| SimulatorEngine.RequestCapNeverBlocks | simulator/engine.py:372-376 | The request cap never blocks a step that the script still declares. |
| SimulatorEngine.ReadyExactly | simulator/engine.py:345-383 | A running session takes its next step exactly when asked under its own script and state, not reserved, with a step left whose delay has passed. |
| SimulatorEngine.BeginsExactly | simulator/engine.py:345-383 | A session begins exactly when there is room, it is asked for START, and its script starts without a delay. |
| SimulatorEngine.DelayedStartNeverBegins | simulator/engine.py:359-383 | A script whose first step has a delay can never begin. |
| SimulatorMail.InMemoryMailCapture.Reserve | simulator/mail.py:30-37 | Reserves exactly when messages and reservations leave room. |
| SimulatorMail.MailCommitKeepsInv | simulator/mail.py:50-62 | A message takes the place of its reservation, so messages and reservations together stay the same number. |
| SimulatorWeb.LocalWebSimulator.CommitInternal | simulator/web.py:186-217 | With an exception at any of nine points: both stores move together, or both keep their contents and only the reservations go. |
| SimulatorWeb.LocalWebSimulator.DeliverResponse | simulator/web.py:219-243 | A whole delivery equals its specification for every combination of failures. |
| SimulatorWeb.DeliveryIsAllOrNothing | simulator/web.py:110-243 | A delivery commits exactly under the stated conditions; then the reserved session and the plan's mail move together before the writer runs, otherwise neither changes. What they are in terms of the script is `SimulatorWeb.DeliveryFollowsScript`. |
| SimulatorWeb.DeliveryFollowsScript | simulator/web.py:110-243 | A delivery whose step can be reserved commits exactly when it renders, goes on the wire, its mail finds room and nothing fails; then the session is at the end of the catalog's step, exactly that step's mail is appended, and its status is answered unless the writer raises. |
| SimulatorWeb.UncommittedAnswers | simulator/web.py:127-243 | What a delivery that does not commit answers: 400, 409, 429 or 500 by its cause, or the exception. |
| SimulatorWeb.DeliveryReleasesExactly | simulator/web.py:127-184 | Nothing stays reserved after a delivery, exactly unless its transition was reserved and an uncaught exception struck before the mail reservation, or after everything the step needs was reserved. |
| SimulatorWeb.StalePlanWouldSteal | simulator/engine.py:436-438 | A stale plan in the joint commit would take another plan's session reservation away. |
| SimulatorInterleaving.TurnKeepsInv | simulator/web.py:110-243 | Whatever section of whatever call comes next keeps every reservation with exactly one running call, and all caps, scripts and delays. |
| SimulatorInterleaving.ExecutionsKeepInv | simulator/engine.py:335-454 | The same over every interleaving. |
| SimulatorInterleaving.ReachableWorlds | simulator/mail.py:30-78 | At any moment: at most 64 sessions with new reservations, at most 16 messages with reservations, one reservation per session made for the session as it stands, and every transition of a session no sooner after the one before than the delay of its step. |
| SimulatorInterleaving.JointCommitIsNeverStale | simulator/web.py:186-217 | In every interleaving the joint commit fails only if something fails inside it. |
| SimulatorInterleaving.SessionsFollowTheirScripts | simulator/engine.py:421-423 | No turn of any call loses a session, skips a step, or replaces a transition it did not see. |
| SimulatorInterleaving.MailMovesWithItsSession | simulator/web.py:186-217 | In every interleaving the joint commit of a delivery moves its session to the end of the script's next step and appends exactly that step's mail in one turn, or moves neither. |
| SimulatorInterleaving.IdleMeansReleased | simulator/web.py:174-184 | When every call has ended nothing is left reserved. |
| SimulatorInterleaving.KilledBlocksItsSession | simulator/web.py:127-161 | A call killed between reserving and rendering blocks its session for good. |
| SimulatorInterleaving.KilledKeepsItsMail | simulator/mail.py:80-88 | A delivery or a capture killed with a mail reservation keeps that slot for good, and messages can no longer be cleared. |
| SimulatorInterleaving.AloneIsDeliver | simulator/web.py:219-243 | A call that nobody interrupts does to the stores exactly what a whole delivery does. |
| WebShell.SyntheticWebShell.PurgeExpired | src/mycogni/application/web_shell.py:227-244 | Keeps the unexpired entries and answers the credentials of the expired sessions, as `WebShell.PurgeMeans` and `WebShell.PurgeDecidesEach` spell out. |
| WebShell.PurgeMeans | src/mycogni/application/web_shell.py:227-244 | After a purge at `now` exactly the challenges and sessions with a later expiry are left, and exactly the credentials of the other sessions are answered. |
| WebShell.PurgeDecidesEach | src/mycogni/application/web_shell.py:227-244 | A purge decides session by session and keeps the order: each stays between what is left of its neighbours, or its credential is answered there. |
| WebShell.SyntheticWebShell.InstallSession | src/mycogni/application/web_shell.py:211-225 | The eviction loop removes the oldest sessions needed and revokes their credentials in order; with a free handle the result is `WebShell.InstallAppends`. |
| WebShell.InstallAppends | src/mycogni/application/web_shell.py:211-225 | With a free handle the new session goes last, after the fifteen newest of sixteen, or after all if there were fewer, and exactly the others are evicted, in order. |
| WebShell.InsertAppends | src/mycogni/application/web_shell.py:134-137 | With a fresh identifier a new challenge goes last, after the thirty-one newest of thirty-two, or after all if there were fewer. |
| WebShell.SyntheticWebShell.AuthenticateLogin | src/mycogni/application/web_shell.py:140-165 | The challenge is gone whatever happens; a session is installed exactly for an unexpired, matching challenge and a successful exchange. |
| WebShell.SyntheticWebShell.View | src/mycogni/application/web_shell.py:167-190 | Shows exactly an unexpired, accepted session; otherwise removes and revokes it. |
| WebShell.SyntheticWebShell.Logout | src/mycogni/application/web_shell.py:192-203 | Removes and revokes exactly a session whose form token is presented. |
| WebShell.InstallConservesExactly | src/mycogni/application/web_shell.py:211-225 | Installing loses no credential, exactly unless a surviving session is filed under the same handle. |
| WebShell.RefreshedAccepts | src/mycogni/application/web_shell.py:184-190 | After a view its form token is accepted next to the latest three before it, and other sessions are unchanged. |
| WebShellRuns.TurnKeepsInv | src/mycogni/application/web_shell.py:123-248 | Every section keeps every credential and every challenge in exactly one place, and the caps. |
| WebShellRuns.ExecutionsKeepInv | src/mycogni/application/web_shell.py:123-248 | The same over every interleaving with fresh handles. |
| WebShellRuns.CredentialsAreAccountedFor | src/mycogni/application/web_shell.py:123-254 | Every credential ever issued is active, revoked, or held by a call; at most 16 sessions, 32 challenges and 4 form tokens. |
| WebShellRuns.ChallengesAreOneUse | src/mycogni/application/web_shell.py:140-165 | Each challenge reaches at most one exchange. |
| WebShellRuns.NothingLeavesUnrevoked | src/mycogni/application/web_shell.py:205-248 | Once every call has ended, a credential is revoked exactly when it is not active. |
| WebShellOrder.ExecutionsKeepOrder | src/mycogni/application/web_shell.py:123-248 | In any interleaving sessions are listed in the order of their installations and challenges in that of their insertions, each at most once. |
| WebShellOrder.SessionsLeaveFirstInFirstOut | src/mycogni/application/web_shell.py:211-225 | In any interleaving an installation evicts only from sixteen sessions on, just enough of them, all installed before any that stays, and the call goes on to revoke exactly those. |
| WebShellOrder.ChallengesLeaveFirstInFirstOut | src/mycogni/application/web_shell.py:134-137 | The same of challenges, of which thirty-two are kept. |
| WebShellOrder.SessionsLeaveForAReason | src/mycogni/application/web_shell.py:167-244 | A session stops being listed only if it has expired, is evicted at the cap, is dropped by a view of its handle, or is logged out with one of its own form tokens. |
| WebShellOrder.DropsOnlyExpiredOrDenied | src/mycogni/application/web_shell.py:167-182 | A view drops a session only after it saw it expired or the auth service denied it. |
| WebShellOrder.ExchangeNeedsMatchingChallenge | src/mycogni/application/web_shell.py:140-165 | The auth service is asked, and a credential issued, only for a challenge whose own form token was presented before it expired. |
| WebShellOrder.SubmittedChallengeIsTaken | src/mycogni/application/web_shell.py:140-153 | A call checks only a challenge that was listed under the submitted identifier, and takes it out of the store. |
| WebShellAlone.LoginAlone | src/mycogni/application/web_shell.py:140-165 | A submitted login that nobody interrupts leaves exactly the stores and revocations of the method. |
| WebShellAlone.ViewAlone | src/mycogni/application/web_shell.py:167-190 | The same of a view. |
| WebShellAlone.LogoutAlone | src/mycogni/application/web_shell.py:192-203 | The same of a logout. |
| WebShellAlone.BeginAlone | src/mycogni/application/web_shell.py:123-138 | The same of the beginning of a login. |

## Left out

- The real cryptography (AES-GCM, HMAC, HKDF, SHA-256), random nonces and tokens, and wiping of buffers: parameters with the stated hypotheses.
- Character-level JSON, base64 (section 4 of RFC 4648), UUID and date-time text, and the regular expressions on text fields: the wire form is a tree of typed values with their byte counts.
- Identifiers are their 128-bit values; names of packages, records and scenarios are compared only by equality and order.
- The order in which a bundle lists its evidence: staging order in memory, identifier order after a reload; evidence is a map.
- Records are values in a map that methods replace; two references to one record object, and clearing of the caller's buffers, do not exist in the model.
- SQLite itself: pragmas, WAL files, ownership and path checks, fork checks, contention after the lock is taken, a failing ROLLBACK. What is left is a busy or broken start, atomic commit, and a lost commit with the old or the new frame.
- The configuration fingerprint and key derivation: one lineage value and one key per vault.
- Action parsing and envelope binding in the service: only the path of a result is modelled, with its parser as a parameter.
- The text of governance documents and of error messages, and the order of findings of different kinds: findings are values, compared as a set; `ValidateAgainstBase` reports them in the guard's groups.
- Rows that are not objects or have no text identifier are dropped before `RevisionHistory`'s documents are built.
- The other governance checks (schemas, artifact hashes, reviewed commits, report rendering), `_static_value`, and loading from Git.
- HTTP envelopes, routes and rendering in the simulator: what they decide is a parameter of a delivery.
- The catalog's aggregate byte cap and the mail fixture's address rules.
- The auth service behind the web shell: its answers are parameters, and fresh handles and challenge identifiers are a stated condition of every execution.
- HandCommit: takes the table of results and next steps that a capability permits as one predicate, because result codes are not part of the modelled envelope.
- CheckMilestone: states the dependency closure only; sorting, gates and attestations of a milestone are not modelled.
- AcceptsDefinition: covers step count and chaining; status codes, body sizes and JSON text of a step are not modelled.
- Key catalogs, the network guard, the source and site guards, containers, migrations, the command line and the site: not modelled.
