# Verified model of the control-plane services

This project models the state machines of the backend's service layer and proves what they keep, over every input
and every serial run. The database is a value: tables are maps or sequences, and every service call is one transaction
that commits or restores its snapshot (only the audit log's identity counter survives a rollback). Code that computes a
value is a function; code that updates rows in place is a class whose methods are proved equal to a step function, and
the theorems are about runs of those steps.

**The hash-chained audit log.** Canonical JSON is written out character by character (`Json`), an independent reader is
written beside it (`JsonParse`), and the round trip gives injectivity and prefix-freedom of the hash payload; key order
at insertion is proved irrelevant. The round trip holds exactly for text without a high surrogate directly followed by a
low one: `json.dumps` writes that pair like the one character it encodes, and `SplitPairCollides` is the concrete
collision; `Spelling.PrintCollides` says exactly which trees are written alike. On top of this come root commitment,
truncation, exact tamper localization and the honesty of every run. The only cryptographic hypotheses are that the digest
does not collide on the texts actually hashed, and that a signature made with the key verifies.

**The HSM key life cycle.** `complete_ceremony` never looks at the key's status. `HsmInvariant` states what makes it
safe nevertheless: a key with an open ceremony was never activated, the ceremony's predecessor label names a key that
was, labels are unique and each activation is accounted for. RETIRED is terminal, no key is activated twice, the
superseded-by graph is a union of finite chains, and each activated key descends from a custodian quorum.
DISABLED is not terminal: `DisabledCanBeActivated` says exactly when a disabled key becomes ACTIVE, and
`DisabledThenActive` is a run in which one does. `HsmAudit` adds the entries the service writes and folds them back: the
log alone tells every key and its status, although a completion's entry does not name the key it retires.

**Configuration.** Staged parameters with the audit entries that apply writes, versioned documents, and the masked diff.

**Anomalies.** The status column against the history rebuilt from the log.

**Tokens and compliance scoring.** Counting properties over runs, rounding and regrouping.

**What each operation does.** Invariants alone would hold of operations that do nothing. `HsmOutcomes`, `HsmEntries`,
`ConfigValues`, `ConfigDocOutcomes`, `AnomalyOutcomes` and `TokenOutcomes` say of each operation exactly when it is
accepted, what it stores and logs, and that it leaves everything else alone; on top of that come run laws such as exact
token lifetimes and the time of the last resolution.

**All services over one log.** `Backend` interleaves them: the log verifies and rebuilds anomalies, parameters and keys
at every point, whatever the other services write. `RootState` concludes that two installations whose logs report the
same root hash hold the same anomaly statuses, key statuses and parameter values.

Places where the code differs from what its documentation says or a reader expects; the model follows the code.

- `verify_chain`'s docstring (app/services/audit_service.py:159-164) says an altered row also breaks every later row.
  The walk goes on with the *stored* hash (line 202), so it fails at exactly the altered rows: `TamperEvident`.
- `get_anomaly_history` (app/services/anomaly_service.py:380-384) relies on the log holding only the service's own
  transitions, but `POST /audit-log/entries` (app/api/v1/endpoints/audit_log.py:88-99) appends any entry a client sends.
  Rows and histories agree if and only if each accepted entry about an existing anomaly restates its status and no
  anomaly is created under an id the log already speaks of: `EventSourcing`. Entries about unknown ids do no harm to that
  agreement (the endpoint answers 404 for them); that there are none is the separate property `NoStrays`, which is what
  lets the log tell which anomalies exist. Folded parameter values, chained parameter updates and folded key statuses
  have their own exact conditions: `ValuesReplay`, `ChainedReplay`, `StatusesReplay`. For keys the condition has two
  parts, since an entry that initiates a ceremony changes no status when it is posted but decides whom a later completion
  is read to retire. Each failure has a concrete run, the three `ForgedRun` lemmas; without clients' own entries none of
  this happens: `ServicesAlone`.
- The difference of two versions compares with Python's `==`, for which `1`, `1.0` and `True` are one value, so applying
  it may keep a value of another type: `DiffPatchesExactly`, `OneIsTrue`.
- An astral character and its two surrogates are distinct Python strings with the same canonical bytes, as above.

## Model

| member | source | states |
|---|---|---|
| `JsonRoundTrip.StringRoundTrip` | app/services/audit_service.py:56-73 | reading back any quoted string gives its scalar-value reading, with nothing of the following text consumed |
| `JsonRoundTrip.QuoteRoundTrip` | app/services/audit_service.py:56-73 | a string is read back unchanged if and only if it holds no split surrogate pair |
| `JsonRoundTrip.SplitPairCollides` | app/services/audit_service.py:56-73 | two different strings with the same canonical text |
| `JsonRoundTrip.RoundTrip` | app/services/audit_service.py:56-73 | parsing the canonical text of a tree followed by any rest that does not continue a number returns the tree and the rest |
| `Canonical.ReadsWellFormed` | app/services/audit_service.py:56-73 | the reader only ever returns trees of well-formed text |
| `Canonical.RoundTripExactly` | app/services/audit_service.py:56-73 | the round trip of a tree succeeds if and only if its text is well formed |
| `Canonical.PrintInjective` | app/services/audit_service.py:56-73 | trees of well-formed text with equal canonical texts are equal, and no encoding is a prefix of another |
| `Canonical.QuoteCollides` | app/services/audit_service.py:56-73 | any two strings are written alike if and only if joining their split surrogate pairs makes them equal |
| `Spelling.PrintCollides` | app/services/audit_service.py:56-73 | any two trees are written alike if and only if they spell the same: member by member along the sorted keys, with every split surrogate pair joined in keys and values |
| `InsertionOrder.DumpsIsPrint` | app/services/audit_service.py:56-73 | serialization with sorted keys depends on a value's meaning only, not on the order its keys were inserted in, at any depth |
| `Clock.IsoFormatInjective` | app/services/audit_service.py:44-77 | distinct UTC instants have distinct ISO texts, with and without a fraction |
| `Payload.PayloadInjective` | app/services/audit_service.py:44-77 | two hash payloads are the same text if and only if the previous hash and every hashed field are the same |
| `Sanitize.SanitizeKernel` | app/services/audit_service.py:80-90 | two trees sanitize alike if and only if they differ at most beneath sensitive keys |
| `Sanitize.SanitizedIsClean` | app/services/audit_service.py:80-90 | after sanitizing, every sensitive key at every depth holds the marker |
| `Sanitize.CleanIsFixed` | app/services/audit_service.py:80-90 | sanitizing leaves a tree alone if and only if it has nothing to hide |
| `Sanitize.SanitizeLaws` | app/services/audit_service.py:80-90 | sanitizing is idempotent and keeps everything outside the secrets |
| `Sanitize.NoSecretOnAnyPath` | app/services/audit_service.py:80-90 | every path through a clean tree that ends in a sensitive key ends at the marker |
| `Sanitize.RedactorAgrees` | app/schemas/anomaly.py:26-36 | the response redactor equals the audit sanitizer on every tree |
| `Audit.VerifyChain` | app/services/audit_service.py:155-213 | valid if and only if every row's recomputed hash, link to the row before and signature hold; otherwise the number of rows where one does not and the sequence of the first; the last stored hash as root |
| `Audit.AuditTable.AppendEntry` | app/services/audit_service.py:100-144 | appending in place equals the append step: linked to the tail, sanitized, hashed, signed, refused by the unique constraints |
| `Chain.HashesDistinct` | app/services/audit_service.py:175-202 | no two entries of an intact log share a hash |
| `Chain.RootDetermines` | app/services/audit_service.py:155-213 | for any committing entry hash, intact logs with one root agree entry by entry |
| `Chain.Truncation` | app/services/audit_service.py:175-202 | a selection of rows of an intact log is intact if and only if it is a prefix |
| `Chain.TamperLocalized` | app/services/audit_service.py:170-213 | the walk over an altered log fails at the rows with other content, another stored link or a signature that does not verify, and nowhere else |
| `Chain.ForgedSignatures` | app/services/audit_service.py:189-196 | replacing signatures makes exactly the rows fail whose signature does not verify, with no hypothesis on hashes |
| `Chain.ForgedHashes` | app/services/audit_service.py:175-202 | replacing stored hashes makes exactly those rows and the ones right after them fail, with no hypothesis on hashes |
| `Chain.TailIsLast` | app/services/audit_service.py:93-97 | with increasing sequence numbers the greatest-sequence query returns the last row |
| `Chain.AppendHonest` | app/services/audit_service.py:100-144 | an append keeps every entry checking and the sequence increasing, gaps or not |
| `Chain.RowAppended` | app/services/audit_service.py:100-144 | the stored row field by field (the draft's own texts, the sanitized metadata, link, hash, signature, key id), and that an append is refused exactly on a taken id or hash |
| `Chain.TransactionOutcome` | app/services/audit_service.py:147-152 | a committed transaction stores all of its entries in order, any other none |
| `Chain.RunVerifies` | app/services/audit_service.py:93-152 | every run of committed and rolled-back transactions of any number of appends leaves a log without failures, extending the old one, whose root is the tail's hash |
| `Chain.ReachableVerifies` | app/services/audit_service.py:155-213 | the report on any log reached from an empty one: valid, every row verified, no break, rooted at the tail |
| `Chain.UniqueHashNeverFires` | app/models/audit.py:28-77 | without collisions the unique constraint on entry hashes never refuses an append |
| `AuditTheorems.DigestCommits` | app/services/audit_service.py:76-77 | a digest without collisions on the hashed texts makes entry hashes commit to the previous hash and all hashed fields |
| `AuditTheorems.RootCommitment` | app/services/audit_service.py:155-213 | two logs that verify and report the same root have the same length and agree on every hashed field of every entry |
| `AuditTheorems.TruncationOnly` | app/services/audit_service.py:175-202 | an order-preserving subsequence of a verified log verifies if and only if it is a prefix |
| `AuditTheorems.TamperEvident` | app/services/audit_service.py:170-213 | altering any set of rows in content, stored link or signature makes verification fail on exactly those it breaks |
| `AuditTheorems.TamperReport` | app/services/audit_service.py:204-213 | the report on such a log: failed and verified counts, root unchanged, first break at the first broken position, which in sequence order is the lowest broken sequence number |
| `AuditTheorems.ForgedSignaturesReport` | app/services/audit_service.py:189-213 | the report on a log with forged signatures, whatever the digest does |
| `AuditTheorems.SecretsDoNotReachTheHash` | app/services/audit_service.py:100-120 | drafts that differ only beneath sensitive keys produce the same entry, hash and signature |
| `HsmInvariant.CreateKeyKeeps` | app/services/hsm_service.py:575-628 | key creation keeps the invariant and undoes nothing |
| `HsmInvariant.CreateCeremonyKeeps` | app/services/hsm_service.py:238-313 | opening a ceremony keeps the invariant: pending key, activated predecessor, one open ceremony per key |
| `HsmInvariant.ApproveKeeps` | app/services/hsm_service.py:316-363 | approving keeps the invariant, one row per custodian included |
| `HsmInvariant.FinishKeysKnown` | app/services/hsm_service.py:384-413 | although completion checks no key status, the key it activates was never active and the predecessor it retires was |
| `HsmInvariant.FinishKeeps` | app/services/hsm_service.py:366-445 | completion keeps the invariant and undoes nothing |
| `HsmInvariant.RotateKeeps` | app/services/hsm_service.py:631-699 | rotation keeps the invariant and undoes nothing |
| `HsmInvariant.DisableKeeps` | app/services/hsm_service.py:702-739 | disabling keeps the invariant and undoes nothing |
| `HsmTheorems.RunKeeps` | app/services/hsm_service.py:238-739 | every run keeps the invariant, and activations, completed ceremonies and the operations history persist |
| `HsmTheorems.KeyEvolves` | app/services/hsm_service.py:384-413 | the only status changes any command can make to any key, and no activation time is ever overwritten |
| `HsmTheorems.RetiredIsTerminal` | app/services/hsm_service.py:238-739 | over every run a RETIRED key stays RETIRED and an activation time stays what it was |
| `HsmTheorems.QuorumAlwaysCompletes` | app/services/hsm_service.py:366-445 | in every reachable state an open ceremony with its quorum completes and activates its key |
| `HsmTheorems.DisabledCanBeActivated` | app/services/hsm_service.py:384-399 | a disabled key becomes ACTIVE exactly when its open ceremony is completed with a quorum |
| `HsmTheorems.DisabledThenActive` | app/services/hsm_service.py:384-399 | a run from an empty store that disables a key and then activates it |
| `HsmTheorems.NoMultipleResults` | app/services/hsm_service.py:269-281 | no command in a reachable state meets two rows where the query expects at most one |
| `HsmTheorems.PathIncreases` | app/services/hsm_service.py:401-410 | walks along superseded_by strictly increase in activation order, so there is no cycle |
| `HsmTheorems.PathToNewest` | app/services/hsm_service.py:401-410 | from every key the walk ends at a key that is not RETIRED |
| `HsmTheorems.SupersededChains` | app/services/hsm_service.py:401-410 | in every state reachable from an empty store: RETIRED if and only if superseded, no two keys with one successor, walks strictly increasing in activation order, and a finite walk from every key to one that is not RETIRED |
| `HsmTheorems.CountIsApprovers` | app/models/hsm.py:115-121 | the approval count is the number of distinct approving custodians |
| `HsmTheorems.QuorumLineage` | app/services/hsm_service.py:384-399 | every activated key traces back through rotations to a key whose completed ceremony has its quorum of distinct custodians |
| `HsmTheorems.LineagePersists` | app/services/hsm_service.py:631-668 | a lineage and its quorum stay true in all later states |
| `HsmTheorems.ReachableKeys` | app/services/hsm_service.py:238-739 | from an empty store no key is activated twice and every activated key has a quorum lineage |
| `HsmOutcomes.CreateKeyOutcome` | app/services/hsm_service.py:575-628 | when registration is accepted, the pending key it stores, and that nothing else changes |
| `HsmOutcomes.DisableOutcome` | app/services/hsm_service.py:702-739 | when disabling is accepted, what it sets, and that nothing else changes |
| `HsmOutcomes.CreateCeremonyOutcome` | app/services/hsm_service.py:238-313 | a ceremony opens exactly for a PENDING key without another open one and a predecessor in use; what it stores; nothing else changes |
| `HsmOutcomes.ApproveOutcome` | app/services/hsm_service.py:327-343 | an approval is accepted exactly while the ceremony is open, adds the custodian's vote at its first time, and leaves every other vote, ceremony and key alone |
| `HsmOutcomes.EnoughApproversComplete` | app/services/hsm_service.py:327-399 | after any votes, completion is accepted exactly when enough distinct custodians have approved, and then activates the key |
| `HsmOutcomes.FinishAccepted` | app/services/hsm_service.py:378-388 | completion is accepted exactly for an open ceremony with its quorum |
| `HsmOutcomes.FinishOutcome` | app/services/hsm_service.py:390-413 | the key becomes ACTIVE with its expiry rotation_policy_days later, the predecessor RETIRED in its favour, the ceremony COMPLETE, and nothing else changes |
| `HsmOutcomes.RotateOutcome` | app/services/hsm_service.py:636-668 | when rotation is accepted, what the successor takes over and when it expires, and that only the two keys change |
| `HsmOutcomes.VersionCounts` | app/services/hsm_service.py:529-534 | a label ending in -v and a number is followed by the same with the next number |
| `HsmOutcomes.UnversionedGains` | app/services/hsm_service.py:529-534 | any other label gains -v2 |
| `HsmTables.Tables.LabelTaken` | app/services/hsm_service.py:547-553 | the scan finds a key exactly when one carries the label |
| `HsmTables.Tables.CreateKey` | app/services/hsm_service.py:575-628 | the in-place code equals the step, refusals change nothing, and the invariant and everything already activated or completed are kept |
| `HsmTables.Tables.CreateCeremony` | app/services/hsm_service.py:238-313 | the in-place code equals the step, refusals change nothing, and the invariant and everything already activated or completed are kept |
| `HsmTables.Tables.ApproveCeremony` | app/services/hsm_service.py:316-363 | the in-place code equals the step, refusals change nothing, and the invariant and everything already activated or completed are kept; a repeated vote is no second vote |
| `HsmTables.Tables.ActivateAndRetire` | app/services/hsm_service.py:390-410 | the order of field assignments yields the key activated and the predecessor retired in its favour |
| `HsmTables.Tables.CompleteCeremony` | app/services/hsm_service.py:366-445 | the in-place code equals the step, refusals change nothing, and the invariant and everything already activated or completed are kept |
| `HsmTables.Tables.RotateKey` | app/services/hsm_service.py:631-699 | the in-place code equals the step, refusals change nothing, and the invariant and everything already activated or completed are kept |
| `HsmTables.Tables.DisableKey` | app/services/hsm_service.py:702-739 | the in-place code equals the step, refusals change nothing, and the invariant and everything already activated or completed are kept |
| `HsmAudit.WrittenIsNoted` | app/services/hsm_service.py:290-306 | every entry the key service writes, once sanitized and stored, reads back as what the command did |
| `HsmEntries.RegisteredSays` | app/services/hsm_service.py:610-626 | the entry of a registration, field by field |
| `HsmEntries.InitiatedSays` | app/services/hsm_service.py:290-306 | the entry of an opened ceremony, field by field |
| `HsmEntries.ApprovedSays` | app/services/hsm_service.py:344-359 | the entry of an approval, with the count after it, in the custodian's name |
| `HsmEntries.CompletedSays` | app/services/hsm_service.py:424-441 | the entry of a completion, field by field |
| `HsmEntries.RotatedSays` | app/services/hsm_service.py:681-697 | the entry of a rotation, field by field |
| `HsmEntries.DisabledSays` | app/services/hsm_service.py:723-737 | the entry of a disabled key, a warning with the status before |
| `HsmAuditTheorems.PredecessorTold` | app/services/hsm_service.py:401-410 | where the log names the ceremonies right, the predecessor it holds for a completion is the one the completion retires, although the completion entry does not name it |
| `HsmAuditTheorems.FinishTells` | app/services/hsm_service.py:384-441 | a completion and its entry keep the folded statuses right if and only if the predecessor the log holds for the ceremony is the one retired, or what they differ in is RETIRED already |
| `HsmAuditTheorems.StepTells` | app/services/hsm_service.py:238-739 | every other committed command and its entry keep the folded statuses right |
| `HsmAuditTheorems.NoteKeepsStatuses` | app/api/v1/endpoints/audit_log.py:88-99 | what a client's own entry says keeps the folded statuses right if and only if it changes none; an initiation never does, a completion is judged by the predecessor the log holds |
| `HsmAuditTheorems.NoteKeepsCeremonies` | app/api/v1/endpoints/audit_log.py:88-99 | it keeps the ceremonies and predecessors named right if and only if it initiates none but as it was initiated |
| `HsmAuditTheorems.StatusesReplay` | app/services/hsm_service.py:238-739 | over every run the folded key entries give exactly the keys and their statuses at every point, if and only if clients' own entries change no status and each committed completion finds the right predecessor in the log |
| `HsmAuditTheorems.CeremoniesReplay` | app/services/hsm_service.py:238-313 | over every run the log names exactly the ceremonies and their predecessors at every point, if and only if clients' own entries initiate none but as it was initiated |
| `HsmAuditTheorems.ServiceAlone` | app/services/hsm_service.py:238-739 | from an empty store, runs of the service alone keep the folded statuses right without condition |
| `HsmAuditTheorems.ForgedRun` | app/api/v1/endpoints/audit_log.py:88-99 | a run in which an accepted entry makes the log call a pending key disabled |
| `ConfigParams.Session.StageChange` | app/services/config_service.py:63-89 | the in-place code equals the step: validation, clearing on an equal value, one PENDING change otherwise |
| `ConfigParams.Session.RevertChange` | app/services/config_service.py:92-110 | the loop reverts exactly the parameter's PENDING changes |
| `ConfigParams.Session.ApplyPending` | app/services/config_service.py:113-174 | all or nothing: a failure at any loop position or in the final commit leaves parameters, changes and log rows as they were, otherwise every turn takes effect |
| `ConfigValues.StripTrims` | app/services/config_service.py:266-283 | stripping removes exactly the outer white space |
| `ConfigValues.SplitJoins` | app/services/config_service.py:43-60 | splitting at commas is undone by joining, and no piece holds a comma |
| `ConfigValues.ValidIsAdmissible` | app/services/config_service.py:43-60 | exactly which values each type admits: a listed value up to outer space, signs then digits, true or false in any case |
| `ConfigValues.StageOutcome` | app/services/config_service.py:63-89 | staging is refused exactly for unknown parameters and inadmissible values; otherwise what it stores, and that nothing else changes |
| `ConfigValues.RevertOutcome` | app/services/config_service.py:92-110 | reverting clears the staged value, turns exactly the parameter's PENDING changes to REVERTED, and changes nothing else |
| `ConfigParamTheorems.StageKeeps` | app/services/config_service.py:63-89 | staging keeps every staged value different from the active one and carried by a PENDING change |
| `ConfigParamTheorems.RevertKeeps` | app/services/config_service.py:92-110 | reverting keeps that, and leaves no PENDING change of the parameter |
| `ConfigParamTheorems.ApplyConserves` | app/services/config_service.py:113-174 | an apply promotes every staged value, leaves none, and turns exactly one change per parameter from PENDING to APPLIED |
| `ConfigParamTheorems.ApplyPicks` | app/services/config_service.py:139-142 | the change each turn picks was PENDING and is APPLIED at that time, otherwise unchanged |
| `ConfigParamTheorems.TierSummary` | app/services/config_service.py:187-193 | the loop counts parameters and visible changes per tier |
| `ConfigParamTheorems.DashboardMatchesOverview` | app/services/dashboard_service.py:48-54 | the dashboard's pending count equals the sum of the overview's per-tier counts |
| `ConfigParamTheorems.LoggedUpdate` | app/services/config_service.py:144-165 | an applied parameter's entry is found by its key alone and records both values as shown |
| `ConfigParamTheorems.UpdateSays` | app/services/config_service.py:144-165 | the entry of an applied parameter, field by field, sensitive values redacted |
| `ConfigParamTheorems.ChainFolds` | app/services/config_service.py:113-174 | where the updates chain, folding them over the initial values gives every non-sensitive active value |
| `ConfigParamTheorems.ApplyKeepsChain` | app/services/config_service.py:113-174 | an apply keeps the updates of each non-sensitive parameter chained from its initial to its active value |
| `ConfigParamTheorems.DirectKeepsChain` | app/api/v1/endpoints/audit_log.py:88-99 | a client's own entry keeps the updates chained if and only if it leads from the active value to itself |
| `ConfigParamTheorems.DirectKeepsFold` | app/api/v1/endpoints/audit_log.py:88-99 | it keeps the folded value right if and only if it names no new value or the active one |
| `ConfigParamTheorems.ChainedReplay` | app/services/config_service.py:63-174 | over every run each update starts where the one before ended and the last ends at the active value, at every point, if and only if clients' own entries lead from the active value to itself |
| `ConfigParamTheorems.ValuesReplay` | app/services/config_service.py:63-174 | over every run folding the log gives the active values at every point, if and only if clients' own entries name no new value or the active one |
| `ConfigParamTheorems.ForgedUpdate` | app/api/v1/endpoints/audit_log.py:88-99 | for every non-sensitive parameter and other value there is an entry that, once accepted, makes the folded value wrong |
| `ConfigParamTheorems.ForgedRun` | app/api/v1/endpoints/audit_log.py:88-99 | a run that stages and applies a value, after which such an entry is accepted and value and replay differ |
| `ConfigParamTheorems.RunKeepsStaging` | app/services/config_service.py:63-174 | the staging invariant holds over every run |
| `ConfigDocTheorems.NextVersionFresh` | app/services/config_service.py:295-301 | the next version is unused and every smaller one exists, soft-deleted rows included |
| `ConfigDocTheorems.ActiveRowDetermined` | app/services/config_service.py:304-315 | the active-row query has exactly one answer |
| `ConfigDocTheorems.SwitchKeeps` | app/services/config_service.py:482-488 | switching keeps one ACTIVE row per name, archived_at exactly on ARCHIVED rows, and rewrites nothing else |
| `ConfigDocTheorems.StepKeeps` | app/services/config_service.py:354-557 | every operation keeps the invariant and never rewrites a version's name, number, payload or checksum |
| `ConfigDocTheorems.RunKeeps` | app/services/config_service.py:354-680 | over every run versions are 1..n, at most one row is ACTIVE and not deleted, checksums match, sensitive keys lie in the payload, and no version is lost or rewritten |
| `ConfigDocTheorems.ReachableDocs` | app/services/config_service.py:354-680 | all of this holds of everything reachable from an empty table, and later operations never disturb the versions there |
| `ConfigDocTheorems.ImportAccepted` | app/services/config_service.py:641-680 | an import with new identifiers is never refused, names repeated within the batch included |
| `ConfigDocTheorems.VersionConstraintNeverFires` | app/models/config.py:122-124 | no operation is refused by the unique constraint on name and version |
| `ConfigDocOutcomes.PayloadRules` | app/services/config_service.py:266-283 | a payload is valid exactly with 1 to 200 keys, none blank or with outer space, and every sensitive key among them |
| `ConfigDocOutcomes.CreateOutcome` | app/services/config_service.py:354-385 | a document is created exactly for a new name and a valid payload, as draft version 1 |
| `ConfigDocOutcomes.SuccessorOutcome` | app/services/config_service.py:420-447 | a successor is accepted exactly for a visible base and a valid payload; what it takes from the base; nothing else changes |
| `ConfigDocOutcomes.ActivateOutcome` | app/services/config_service.py:473-499 | activation is accepted exactly for a visible version that is not active; the target becomes the one active row, the former one is ARCHIVED at that time, and every other row is unchanged |
| `ConfigDocOutcomes.RollbackOutcome` | app/services/config_service.py:518-557 | rollback is accepted exactly for a visible base; a new version with the base's payload, sensitive keys and checksum becomes the one active row, and every other row is unchanged |
| `ConfigDocOutcomes.ArchiveOutcome` | app/services/config_service.py:502-515 | when archiving is accepted, what it sets, and that nothing else changes |
| `ConfigDocOutcomes.DeleteOutcome` | app/services/config_service.py:450-458 | when deletion is accepted, what it sets, and that nothing else changes |
| `ConfigDocOutcomes.ImportOutcome` | app/services/config_service.py:641-680 | an import adds exactly the valid items, each as a draft with its own payload and checksum, and changes nothing else |
| `ConfigTable.Table.FindActive` | app/services/config_service.py:304-315 | the query returns a live row of the greatest version, or none when there is none |
| `ConfigTable.Table.CreateConfiguration` | app/services/config_service.py:354-385 | the in-place code equals the step, refusals change nothing, the invariant holds and no version is lost or rewritten |
| `ConfigTable.Table.CreateSuccessor` | app/services/config_service.py:420-447 | the in-place code equals the step, refusals change nothing, the invariant holds and no version is lost or rewritten |
| `ConfigTable.Table.DeleteConfiguration` | app/services/config_service.py:450-458 | the in-place code equals the step, refusals change nothing, the invariant holds and no version is lost or rewritten |
| `ConfigTable.Table.ActivateConfiguration` | app/services/config_service.py:473-499 | the in-place code equals the step for the row its query finds, the invariant holds and no version is lost or rewritten |
| `ConfigTable.Table.ArchiveConfiguration` | app/services/config_service.py:502-515 | the in-place code equals the step, refusals change nothing, the invariant holds and no version is lost or rewritten |
| `ConfigTable.Table.RollbackConfiguration` | app/services/config_service.py:518-557 | the in-place code equals the step (a new version with the old payload, activated), the invariant holds and no version is lost or rewritten |
| `ConfigTable.Table.ImportConfigurations` | app/services/config_service.py:641-680 | the loop equals the import step; imported and skipped add up, each row names the version its item got, the invariant holds and no version is lost or rewritten |
| `ConfigDiff.SameSymmetric` | app/services/config_service.py:587-593 | Python's equality on decoded JSON (numbers by value whatever their type, containers member by member) is symmetric |
| `ConfigDiff.SameTransitive` | app/services/config_service.py:587-593 | Python's equality on decoded JSON is transitive |
| `ConfigDiff.Compare` | app/services/config_service.py:578-603 | the loops compute the difference by key sets |
| `ConfigDiff.DiffCounts` | app/services/config_service.py:578-603 | each version's size is removed (or added) plus changed plus unchanged |
| `ConfigDiff.DiffSwaps` | app/services/config_service.py:578-603 | swapping the versions swaps the difference |
| `ConfigDiff.DiffShows` | app/services/config_service.py:578-603 | which keys are added, removed and changed, and that what is shown is the value, or the mask where that side calls the key sensitive |
| `ConfigDiff.DiffPatches` | app/services/config_service.py:578-603 | with nothing masked, applying the difference to the base gives the other version's keys, each with an equal value |
| `ConfigDiff.DiffPatchesExactly` | app/services/config_service.py:578-603 | it gives exactly the other version if and only if every value counted as unchanged is identical |
| `ConfigDiff.OneIsTrue` | app/services/config_service.py:578-603 | it does not always: rewriting the number 1 as true is no difference |
| `ConfigDiff.DiffHidesSecrets` | app/services/config_service.py:241-243 | the difference depends on masked values only through which of them are equal |
| `ConfigDiff.EqualChecksumsNoDiff` | app/services/config_service.py:236-238 | equal checksums mean an empty difference |
| `Anomaly.BulkReport` | app/services/anomaly_service.py:450-461 | every distinct requested id is reported once, as updated or as not found |
| `AnomalyOutcomes.BulkReportOrdered` | app/services/anomaly_service.py:450-461 | both lists are in the order of first request, and the requested count is that of distinct ids |
| `Anomaly.Session.CreateEvent` | app/services/anomaly_service.py:82-118 | the in-place code equals the step, and a refused audit entry restores the snapshot |
| `Anomaly.Session.UpdateStatus` | app/services/anomaly_service.py:288-324 | the in-place code equals the step, and a refused audit entry restores the snapshot |
| `Anomaly.Session.BulkUpdate` | app/services/anomaly_service.py:412-461 | one transaction equal to one single update per distinct found id, or no change at all |
| `AnomalyTheorems.LoggedEntry` | app/services/anomaly_service.py:44-79 | an anomaly's entry survives sanitization: found by its id alone, with both statuses |
| `AnomalyTheorems.UpdateHistory` | app/services/anomaly_service.py:288-324 | a committed update adds one transition, from the old status to the new, to this history and to no other |
| `AnomalyTheorems.BulkRowsEffect` | app/services/anomaly_service.py:412-449 | a bulk update changes exactly the selected rows, in whatever order they came |
| `AnomalyTheorems.BulkHistoryEffect` | app/services/anomaly_service.py:412-449 | a bulk update adds one transition to each selected history and none to any other |
| `AnomalyTheorems.CreateKeepsRows` | app/services/anomaly_service.py:82-118 | a creation keeps rows and histories in agreement if and only if it is refused or its id has no history yet |
| `AnomalyTheorems.DirectKeepsRows` | app/api/v1/endpoints/audit_log.py:88-99 | a client's own entry keeps rows and histories in agreement if and only if, where it is about an existing anomaly, it restates its status |
| `AnomalyTheorems.ForgedResolution` | app/api/v1/endpoints/audit_log.py:88-99 | the entry the service would write on resolving an open anomaly, posted by a client and accepted, always breaks the agreement |
| `AnomalyTheorems.ForgedRun` | app/api/v1/endpoints/audit_log.py:88-99 | a run that creates an anomaly, after which such an entry is accepted and row and history differ |
| `AnomalyTheorems.EventSourcing` | app/services/anomaly_service.py:377-409 | over every run each row's history starts at open, links each transition to the one before and ends at its status, if and only if clients' own entries about existing anomalies restate their status and no anomaly is created under an id the log speaks of |
| `AnomalyTheorems.ServiceAlone` | app/services/anomaly_service.py:377-409 | from an empty database, runs of the service alone keep that agreement without condition |
| `AnomalyTheorems.NextKeepsNoStrays` | app/api/v1/endpoints/audit_log.py:88-99 | the stronger property that the log speaks of existing anomalies only is kept if and only if clients' own entries are about existing anomalies |
| `AnomalyTheorems.RunKeepsTimes` | app/services/anomaly_service.py:288-324 | over every run RESOLVED rows carry a resolution time and OPEN rows none |
| `AnomalyOutcomes.CreateOutcome` | app/services/anomaly_service.py:82-118 | a creation stores what was reported, open and unresolved; a refused one changes nothing |
| `AnomalyOutcomes.NextRestates` | app/services/anomaly_service.py:288-324 | an input changes exactly the rows it sets: resolving stamps the time, reopening clears it, anything else leaves it |
| `AnomalyOutcomes.ResolvedWhenLast` | app/services/anomaly_service.py:302-306 | over every run the resolution time is that of the last resolution not followed by reopening |
| `AnomalyOutcomes.EntrySays` | app/services/anomaly_service.py:44-79 | an anomaly's entry, field by field |
| `AnomalyOutcomes.ActorIsFirstNamed` | app/services/anomaly_service.py:40-41 | the actor is the first one named, otherwise the system |
| `AnomalyOutcomes.UpdateLine` | app/services/anomaly_service.py:398-409 | the history line of an update: its sequence number, time, actor, subtype and both statuses |
| `Tokens.RedeemedAtMostOnce` | app/services/auth_service.py:53-74 | over every run each refresh token is redeemed at most once |
| `Tokens.OldTokensDie` | app/services/auth_service.py:87-112 | after a password change or reset no earlier token of the user is ever redeemable |
| `Tokens.SessionsBounded` | app/services/auth_service.py:38-99 | a user's unrevoked tokens never exceed the logins since the last password change or reset |
| `Tokens.ListedSessionsBounded` | app/services/auth_service.py:159-173 | the sessions listed obey the same bound, and each is redeemable |
| `TokenOutcomes.TokenLives` | app/services/auth_service.py:53-99 | over every run a refresh token is accepted exactly until it expires, unless it was revoked or a request redeemed it, logged it out or set its owner's password |
| `TokenOutcomes.NextIssues` | app/services/auth_service.py:38-50 | new refresh tokens come from logins and refreshes only, for the right user and the configured time |
| `TokenOutcomes.RefreshRotates` | app/api/v1/endpoints/auth.py:55-73 | after a refresh the presented token is dead and its replacement serves the same user until it expires |
| `TokenOutcomes.ChangeNeedsCurrent` | app/services/auth_service.py:102-112 | a password is changed exactly with the current one |
| `TokenOutcomes.LoginAfterChange` | app/services/auth_service.py:28-35 | after a change or reset, exactly whoever has the new password can log in, while active |
| `TokenOutcomes.PasswordLasts` | app/services/auth_service.py:102-156 | a password stays over every run that does not set it |
| `TokenOutcomes.ResetAtMostOnce` | app/services/auth_service.py:147-153 | over every run each reset token sets a password at most once |
| `TokenOutcomes.ResetWindow` | app/services/auth_service.py:115-153 | a reset token just issued works exactly until it expires, and not after use |
| `TokenOutcomes.NextOffers` | app/services/auth_service.py:115-134 | reset tokens are issued exactly to active users, for the configured time |
| `Tokens.Service.RedeemRefreshToken` | app/services/auth_service.py:53-74 | the in-place code equals the step; an accepted token is revoked even when its user is inactive |
| `Tokens.Service.RefreshSession` | app/api/v1/endpoints/auth.py:55-73 | redeem and reissue equal one refresh step |
| `Tokens.Service.RevokeRefreshToken` | app/services/auth_service.py:77-84 | the in-place code equals the logout step |
| `Tokens.Service.RevokeAllUserTokens` | app/services/auth_service.py:87-99 | the loop revokes exactly the user's unrevoked tokens |
| `Tokens.Service.ResetPassword` | app/services/auth_service.py:137-156 | the in-place code equals the step, and returns whether it took effect |
| `Tokens.Service.ChangePassword` | app/services/auth_service.py:102-112 | the in-place code equals the step, or the 400 error |
| `Compliance.RoundMonotone` | app/services/compliance_service.py:443-443 | rounding half to even never reverses an order |
| `Compliance.RoundTies` | app/services/compliance_service.py:443-443 | an exact half rounds to the even neighbour |
| `Compliance.ScoreInRange` | app/services/compliance_service.py:434-443 | the score lies in 0..100 |
| `Compliance.ScoreExact` | app/services/compliance_service.py:434-443 | the score is the share of mapped and half the partial controls among the applicable, to half a tenth of a percent |
| `Compliance.UniformScore` | app/services/compliance_service.py:434-443 | all mapped scores 100, all partial 50, all gaps 0 |
| `Compliance.NotApplicableIgnored` | app/services/compliance_service.py:434-443 | adding a NOT_APPLICABLE control anywhere leaves the score alone |
| `Compliance.ScoreMonotone` | app/services/compliance_service.py:434-443 | moving a control from GAP to PARTIAL to MAPPED never lowers the rounded score |
| `Compliance.Assessment.Complete` | app/services/compliance_service.py:427-452 | the loop fills the counts and the score once; a second completion changes nothing |
| `Compliance.BuildCoverage` | app/services/compliance_service.py:90-97 | the nested loops fill the dictionary by domain and framework |
| `Compliance.CellIs` | app/services/compliance_service.py:90-97 | every framework's mapping is found under its domain and the framework's code |
| `Compliance.CoverageRow` | app/services/compliance_service.py:101-109 | a row's counts are sums over its dictionary, in any order |
| `Compliance.PercentExact` | app/services/compliance_service.py:101-109 | a row's percentage is the share of mapped and half the partial frameworks among the applicable, to half a percent |
| `Compliance.BuildControlCoverage` | app/services/compliance_service.py:90-125 | one row per domain, in ascending order |
| `Compliance.RegroupingConserves` | app/services/compliance_service.py:90-97 | any total summed by domain equals the total summed by framework |
| `Compliance.RowsAddUp` | app/services/compliance_service.py:99-125 | applicable controls and weights of the rows add up to those of the frameworks |
| `Backend.AnomaliesGrow` | app/services/anomaly_service.py:58-79 | the anomaly service writes nothing parameter values or key statuses are rebuilt from |
| `Backend.ParametersGrow` | app/services/config_service.py:144-165 | the parameter operations write nothing anomaly histories or key statuses are rebuilt from |
| `Backend.KeysGrow` | app/services/hsm_service.py:290-306 | the key service writes nothing anomaly histories or parameter values are rebuilt from |
| `Backend.NextSound` | app/api/v1/endpoints/audit_log.py:88-99 | one transaction of any service keeps the log intact, the anomaly histories chained to the rows' statuses and the folded values and key statuses right, if and only if it is harmless |
| `Backend.RunSound` | app/services/audit_service.py:93-152 | the same over every interleaving of the services' transactions, at every point |
| `Backend.RunNoStrays` | app/api/v1/endpoints/audit_log.py:88-99 | in such a run the log speaks of existing anomalies only if and only if clients' own entries do |
| `Backend.ServicesAlone` | app/services/audit_service.py:93-152 | without clients' own entries, every interleaving from a fresh installation keeps all of it without condition |
| `BackendText.RunText` | app/services/audit_service.py:100-144 | if what clients send holds no split surrogate pair, no entry of the resulting log does |
| `RootState.RootPinsState` | app/services/audit_service.py:155-213 | two sound installations with one root hash agree on the statuses of anomalies both hold, on all keys and their statuses and on non-sensitive values; if neither log speaks of unknown anomalies they hold the same ones |
| `RootState.RunsWithOneRootAgree` | app/services/audit_service.py:155-213 | installations seeded alike and run differently on well-formed requests: a common root hash means the same anomalies, keys, statuses and values |

## Left out

- Concurrent transactions: the tail query takes no lock, so runs are serial interleavings of whole transactions.
- SHA-256, ECDSA, bcrypt and JWT: abstract functions. The only laws used are named in the lemmas that need them.
- Floating point: JSON floats are their `repr` text and NaN and the infinities have none; scores are exact rationals in tenths of a percent, coverage in whole percent.
- Python's `==` on floats: the number a float text stands for is a parameter, so that its binary rounding need not be modelled.
- AuditTheorems.RootCommitment: asks for well-formed text in the hashed fields, which every value read back from the database has (UTF-8 columns refuse surrogates, and a JSON column reads a split pair back as one character) and without which `SplitPairCollides` applies; `BackendText.RunText` derives it from the requests.
- AuditTheorems.TruncationOnly: asks for the same.
- AuditTheorems.TamperEvident: asks for the same, of both logs.
- Anomaly.Session.BulkUpdate: the order in which the unordered query returns rows is a parameter, so the result holds for every order.
- ConfigParams.Session.ApplyPending: that order, and which PENDING row `scalars().first()` picks, are parameters, so the result holds for every order and pick; `failAt` stands for an exception from anywhere else.
- ConfigParamTheorems.DashboardMatchesOverview: speaks of any listing of parameters of a database in which the staging invariant holds.
- Non-ASCII digits in `str.isdigit` and `\d`, a trailing newline before `$` in the label pattern.
- Time zones: instants are already in UTC, and other timestamps are integers.
- `metadata_json ->> 'anomaly_id'` is modelled as equality with a JSON string, which is what it means for an id in UUID form.
- The texts of validation errors and of the PARAMETER_UPDATED description; the latter is a parameter.
- Audit drafts of the configuration-document service and of attestation: in `Backend` they are arbitrary transactions of the event types those services write. Archiving and deleting a document write no entry, so the log does not tell document statuses.
- BackendText.RunText: `repr`, which quotes both values in the PARAMETER_UPDATED description, is a parameter assumed to escape surrogates.
- Severity from score, HSM throughput, attestation, effective key status, provider and certificate health.
- A coverage row's description and copied mapping fields; the list, export, trend and overview endpoints.
- Tenancy, RBAC, notifications, the engine and operations services, seeding and migrations: simple CRUD and aggregation.
- Deactivating or reactivating a user is an environment step of the token runs.
