# Verified model of the audit and accounting core

This project models the integrity core of the ERP accounting engine in Dafny and proves what that
core is for:

- **Audit integrity** (`audit/`): the hash chain that is built, verified, repaired and replayed; the
  two streams of the event writer; the Merkle root of the audit events and the attestation lifecycle
  above it; the gap and duplicate scanners; the rate-limited tamper alarm.
- **Accounting axioms** (`axioms/`): the journal registry with its lifecycle and numbering, the
  value-conservation checker, the causal graph.
- **Migration replay** (`orm_migration_sync_checker.py`): the fold of schema operations and the
  comparison of two schemas.

Objects that the program updates in place are classes (`ChainBuilder.Builder` and `Record`,
`Attestations.Signer` and `Attestation`, `TamperAlarm.Alarm`, `DoubleEntry.Registry`,
`Causality.Graph`, `EventWriter.Writer`); loops are methods with invariants. Each method is proved
against a function on values, and the theorems are about those functions and about whole runs of them.

| file | contents |
|---|---|
| `Basics.dfy` | options, results, filtered lists, the digest function and its collision hypothesis |
| `HashChain.dfy`, `ChainBuilder.dfy`, `ChainTheorems.dfy` | records, the builder service, what building, verifying and repairing promise |
| `Forensics.dfy`, `TamperAlarm.dfy` | replay flags, alarm cooldown and stream checks |
| `Merkle.dfy`, `Attestation.dfy` | the audit root, the attestation lifecycle |
| `EventWriter.dfy` | writing as a protocol of two steps |
| `Numbering.dfy`, `DoubleEntry.dfy`, `Conservation.dfy` | journal numbers, the registry, the two balance checkers |
| `Causality.dfy` | the causal graph and its indexes |
| `Migration.dfy`, `Gaps.dfy`, `Duplicates.dfy` | schema replay, sequence gaps, duplicate groups |

## Assumptions

- SHA-256 (section 6.2 of FIPS 180-4) and JSON serialisation are unknown functions, passed as
  parameters. Serialisation is assumed to be injective where a theorem says so (`Faithful`).
  Collision resistance is assumed only on the finite set of texts that the theorem's own lists hash
  (`CollisionFreeOn`). The genesis hashes are the digests of their seed texts, so that no record and
  no stored event hashes to one is proved and not assumed, given that no serialised object reads like
  a seed.
- Leaves of the audit root and digests of hashed texts have 64 characters (`Merkle.AllDigests`,
  `Merkle.Sound`); without that the leaves `ab`, `c` and `a`, `bc` share a root
  (`Merkle.MovedBorderKeepsRoot`). Similarity ratios are not negative (`Duplicates.RatiosOk`). The
  signer accepts the signatures it makes (`Attestations.SignaturesFit`).
- A record's payload stands for the canonical JSON text of its remaining keys.
- Decimals are exact reals; the 28-digit context is ignored.
- The event store is an append-only sequence per stream, and an append is one step.
- Fresh UUIDs are new, and the records of one list are distinct objects.
- Clock readings and randomised signatures are parameters. No theorem needs the clock to go forward.

## What the proofs found out about the code

Where a promise fails, the model keeps the code as it is and the theorem gives the exact condition.

- Equal Merkle roots do not fix the number of events: repeating the last of an odd number of hashes
  keeps the root, and so does replacing all hashes by any inner level (`Merkle.RootsAgreeIff`).
- Verifying a prefix under a stream's name rewinds the cache, and the next batch then breaks the
  chain (`ChainTheorems.VerifyingAPrefixRewinds`).
- A failed replay writes its flag into the events, and the flag is part of what the next
  verification hashes: sound events no longer pass (`ForensicReplay.ReplayTaintsItsEvents`).
- Verification starts from genesis whatever the first event read is, so a replay from a later
  sequence number always reports a break (`ForensicReplay.SuffixPassesIff`).
- With automatic repair a tampered list of events passes the next check
  (`TamperAlarm.AutoRepairErasesEvidence`).
- The store starts its own chain from another genesis hash than the audit verifier, so the verifier
  finds every stream of stored events broken at the first one
  (`EventWriter.WrittenStreamsNeverVerify`). The writer's records are no chain of their own either,
  since each names the store's hash of the event before it (`EventWriter.RecordsNeverChain`).
- Two writes that overlap on one stream always break it (`EventWriter.OverlapAlwaysForks`).
- A signer with an empty cache reads the oldest event of an attestation among the first thousand: it
  signs again what was signed or revoked, can revoke nothing, and does not find what lies further on
  (`Attestations.RestartSignsAgain`, `Attestations.RestartNeverRevokes`).
- No attestation is ever found valid: verification compares the content hash with the digest of
  another dictionary than the one hashed at creation (`Attestations.VerificationNeverPasses`).
- Every event that the repository's own store returns carries a `datetime` as its timestamp
  (`append` and `read_stream` of `infrastructure/event_store/append_only_store.py`), which
  `datetime.fromisoformat` rejects with a `TypeError`; the scan skips such events and so reports no
  duplicate at all (`Duplicates.UnreadableStampsHideAll`). The other theorems on duplicates are about
  events whose timestamps are texts.
- A journal's stored hash is that of the draft and goes stale with the first move
  (`DoubleEntry.HashIsStaleAfterMoves`); numbers repeat after a reset
  (`Numbering.ResetRepeatsNumbers`), and a supplied number may equal a drawn one
  (`DoubleEntry.RegistryNumbersDistinctIff`).
- The balance test adds amounts of different currencies; the conservation checker rejects such a
  journal (`Conservation.CheckersAgree`).

## Model

| member | source | states |
|---|---|---|
| HashChain.LongestAcceptedPrefix | audit/hash_chain_builder.py:168-224 | the index of the first bad record is the length of the longest prefix that is itself accepted: a prefix is accepted if and only if it is no longer |
| HashChain.AcceptedMeansUnbroken | audit/hash_chain_builder.py:226-251 | a list is accepted if and only if no record is bad |
| HashChain.TextBinds | audit/hash_chain_builder.py:102-106 | the hashed text is that of exactly this payload, flag and link and this previous hash; the record's own hash is no part of it |
| HashChain.SameDigestSameRecord | audit/hash_chain_builder.py:90-107 | two checked records with one stored hash agree in payload, flag and predecessor hash |
| HashChain.OnlyFirstNamesGenesis | audit/hash_chain_builder.py:184-193 | in an accepted list the first record, and no other, names the genesis hash |
| HashChain.TamperEvidence | audit/hash_chain_builder.py:168-224 | accepted lists of any lengths that end in the same hash are the same list, field by field |
| ChainBuilder.BuiltAt | audit/hash_chain_builder.py:151-160 | every built record is linked to the hash of the built record before it, the first to the starting hash |
| ChainBuilder.Builder.StampRecord | audit/hash_chain_builder.py:152-157 | one round sets the link and computes the hash only where none is present |
| ChainBuilder.Builder.StampAll | audit/hash_chain_builder.py:149-160 | the loop turns the records into the built list and ends with its last hash |
| ChainBuilder.Builder.BuildChain | audit/hash_chain_builder.py:129-166 | the records become the list built from the cached hash or genesis; the cache of a named stream becomes the last record's hash, and every other key keeps its presence and value; an empty or unnamed batch leaves the cache alone |
| ChainBuilder.Builder.VerifyChain | audit/hash_chain_builder.py:168-224 | valid if and only if the list is accepted; otherwise the first bad index and which of link and hash is wrong; only success on a non-empty list of a named stream changes the cache, to the last record's hash, and every other key keeps its presence and value |
| ChainBuilder.Builder.FindBrokenLink | audit/hash_chain_builder.py:226-251 | the same index as verification on every list, none if accepted |
| ChainBuilder.Builder.RestampRecord | audit/hash_chain_builder.py:277-280 | one round rewrites link and hash, whatever was there |
| ChainBuilder.Builder.RestampAll | audit/hash_chain_builder.py:269-281 | the loop turns the records into the repaired list |
| ChainBuilder.Builder.RepairChain | audit/hash_chain_builder.py:253-285 | the records become the repaired list; a start out of range changes nothing |
| ChainTheorems.BuiltAcceptedIff | audit/hash_chain_builder.py:151-160 | a list built from genesis is accepted if and only if every hash the build kept is the right one |
| ChainTheorems.ExtendAccepted | audit/hash_chain_builder.py:145-164 | a built batch extends an accepted log to an accepted log, under the same condition |
| ChainTheorems.BuiltAppend | audit/hash_chain_builder.py:145-164 | building a concatenation is building the parts, the second from the first's last hash |
| ChainTheorems.BuildKeepsContents | audit/hash_chain_builder.py:151-157 | building changes no payload and no flag, keeps a hash that is a non-empty text and computes any other |
| ChainTheorems.WhereBatchesStart | audit/hash_chain_builder.py:146-149 | an unnamed batch starts from genesis, a named one from its stream's cached hash, if there is one |
| ChainTheorems.OtherCallsTouchNothing | audit/hash_chain_builder.py:162-164 | a build or verification on another stream, or on none, changes neither a stream's entry nor where its next batch starts |
| ChainTheorems.RewindIff | audit/hash_chain_builder.py:219-220 | a verification leaves where a stream's next batch starts if and only if it is no success, under the stream's name, on a list that ends in another hash |
| ChainTheorems.OthersNeverRewind | audit/hash_chain_builder.py:219-220 | verifications under other names, of whatever outcome, never rewind a stream |
| ChainTheorems.BatchIndependence | audit/hash_chain_builder.py:129-224 | for every run of builds and verifications on any streams that does not rewind the stream, its records are those of a single build on its concatenated batches, and its starting hash for the next is their last hash |
| ChainTheorems.FreshStreamIsOneChain | audit/hash_chain_builder.py:129-224 | on a stream new to the cache and not rewound, unhashed batches give one accepted chain from genesis, and the cache holds its last hash |
| ChainTheorems.VerifyingAPrefixRewinds | audit/hash_chain_builder.py:184-220 | after verifying a prefix under the stream's name, the next batch keeps the log accepted if and only if the prefix was the whole log |
| ChainTheorems.AcceptedIsDetermined | audit/hash_chain_builder.py:168-224 | at most one accepted list has given payloads and flags |
| ChainTheorems.RepairTouchesOnlyTail | audit/hash_chain_builder.py:276-281 | a repair changes nothing before its start and no payload or flag after it |
| ChainTheorems.RepairStartsAt | audit/hash_chain_builder.py:269-277 | the first repaired record links to genesis or to the hash before it, a missing hash being read as genesis |
| ChainTheorems.RepairWorksIff | audit/hash_chain_builder.py:253-285 | the result of a repair is accepted if and only if the list was, or the start is not past the first bad record |
| ChainTheorems.RepairOfAcceptedIsIdle | audit/hash_chain_builder.py:253-285 | a repair of an accepted list changes nothing |
| ChainTheorems.RepairAtTheBreak | audit/hash_chain_builder.py:226-285 | repairing at the index find_broken_link returns gives the only accepted list with these contents and changes that record |
| ForensicReplay.FlagEvents | audit/forensic_replayer.py:180-181 | every event gets the flag that its index lies before the break, index 0 included |
| ForensicReplay.ReplayStream | audit/forensic_replayer.py:158-183 | the events come back flagged if and only if verification failed, otherwise as they were; the cache changes only if it succeeded, and only for this stream |
| ForensicReplay.FlagsAreExact | audit/forensic_replayer.py:166-181 | a failed replay flags an event intact if and only if the chain up to and including it is accepted, and changes nothing else |
| ForensicReplay.FlaggedEventPassesIff | audit/hash_chain_builder.py:102-107 | a sound event passes again after a failed replay if and only if it already carried a true flag |
| ForensicReplay.ReplayTaintsItsEvents | audit/forensic_replayer.py:166-183 | a second replay reaches as far as the first if and only if all events before the break carried true flags; never-flagged events are then broken from the first on |
| ForensicReplay.SuffixPassesIff | audit/forensic_replayer.py:139-168 | of all suffixes of an accepted stream only the whole stream passes verification; any other is found broken at its first event |
| TamperAlarm.ClockShowsLastAlert | audit/tamper_alert_trigger.py:187-195 | the remembered time of a stream is that of its last alert |
| TamperAlarm.AlertsAreSpaced | audit/tamper_alert_trigger.py:187-195 | any two alerts of a stream are at least a cooldown apart |
| TamperAlarm.AlertRateBound | audit/tamper_alert_trigger.py:183-195 | a window of length W holds at most W/cooldown + 1 alerts of a stream, whatever the clock does |
| TamperAlarm.SilencedIff | audit/tamper_alert_trigger.py:183-195 | a failing check raises an alert if and only if no earlier alert of its stream is less than a cooldown old |
| TamperAlarm.StreamsDoNotInterfere | audit/tamper_alert_trigger.py:188-195 | the alerts of a stream depend on that stream's failures alone |
| TamperAlarm.Alarm.SendAlert | audit/tamper_alert_trigger.py:183-195 | the failing check is recorded, the alerts of its stream grow by its time if and only if one is sent, and the remembered times are those of the last alerts |
| TamperAlarm.Alarm.OnTampering | audit/tamper_alert_trigger.py:163-173 | tampering sends an alert if one is due and repairs the events if configured |
| TamperAlarm.Alarm.CheckStream | audit/tamper_alert_trigger.py:129-181 | the report names the stream, gives the verification's verdict and counts the records; exactly tampering counts as a failing check, at this time, and can alert or repair; a failing store is invalid without an alert; the chain cache changes only on success, and only for this stream |
| TamperAlarm.Alarm.CheckOne | audit/tamper_alert_trigger.py:269-271 | one round reports on what the records of its answer hold now, and leaves all records as that one check and its repair do |
| TamperAlarm.Alarm.CheckAllStreams | audit/tamper_alert_trigger.py:261-279 | the reports and failing checks are those on the streams in order, all of them or up to and including the first failure, as configured; each check sees the repairs of those before it where answers share record objects |
| TamperAlarm.WithoutRepairNothingChanges | audit/tamper_alert_trigger.py:156-173 | without automatic repair no check changes what a later one sees |
| TamperAlarm.SecondLookPasses | audit/tamper_alert_trigger.py:171-173 | with it, whatever the records hold, a second look at the same records finds no tampering |
| TamperAlarm.AutoRepairErasesEvidence | audit/tamper_alert_trigger.py:171-173 | after an automatic repair the next check of the same events is valid |
| Merkle.RoundsIsCeilLog2 | audit/regulatory_attestation_signer.py:290-298 | the number of rounds on n hashes is the base-two logarithm of n rounded up |
| Merkle.LevelIsOneStorey | audit/regulatory_attestation_signer.py:291-298 | a round of the loop takes one storey off the top-down tree that repeats the left part for a missing right one |
| Merkle.NextLevel | audit/regulatory_attestation_signer.py:291-298 | the inner loop pairs neighbours and an odd last hash with itself |
| Merkle.CollectLeaves | audit/regulatory_attestation_signer.py:285-285 | the leaves are the events' non-empty hashes read off at increasing positions, none left out |
| Merkle.ComputeAuditRootHash | audit/regulatory_attestation_signer.py:285-300 | the loop returns the root of the top-down tree, in exactly that many rounds: of the hashes themselves when every event has one, and the digest of a fixed text when none has |
| Merkle.LeavesAreReadOff | audit/regulatory_attestation_signer.py:285-285 | leaf k is the hash of the event at position k of an increasing sequence that holds every event with a hash |
| Merkle.LeavesOfAllHashed | audit/regulatory_attestation_signer.py:285-285 | when every event has a hash the leaves are these, position by position |
| Merkle.SmallRoots | audit/regulatory_attestation_signer.py:290-300 | the roots of one, two and three leaves written out |
| Merkle.LevelKeepsRoot | audit/regulatory_attestation_signer.py:290-298 | a round of the loop on more than one hash keeps the root of the top-down tree |
| Merkle.TreeRootBinds | audit/regulatory_attestation_signer.py:289-300 | trees of one height have the same root if and only if they have the same leaves with the repeated ones written out |
| Merkle.RootBindsFullLeaves | audit/regulatory_attestation_signer.py:289-300 | lists that take equally many rounds have the same root if and only if they have the same leaves with the repeated ones written out |
| Merkle.RootBindsLeaves | audit/regulatory_attestation_signer.py:285-300 | lists of one length with the same root are equal, element by element |
| Merkle.RootBindsEvents | audit/regulatory_attestation_signer.py:285-300 | two equally long lists of hashed events with one audit root are equal, position by position |
| Merkle.RootsAgreeIff | audit/regulatory_attestation_signer.py:289-300 | lists of any lengths have the same root if and only if the longer loop reaches, after its extra rounds, a list with the same full leaves |
| Merkle.MovedBorderKeepsRoot | audit/regulatory_attestation_signer.py:293-297 | two pairs of leaves have the same root if and only if they have the same concatenation, wherever the border lies |
| Merkle.RepeatedLastLeafKeepsRoot | audit/regulatory_attestation_signer.py:293-296 | repeating the last leaf of an odd list longer than one keeps the root |
| Attestations.Attestation.MarkSigned | audit/regulatory_attestation_signer.py:386-392 | signing sets signature, time, status and signer, and nothing else |
| Attestations.Attestation.MarkRevoked | audit/regulatory_attestation_signer.py:515-518 | revoking sets the status and three metadata keys, and nothing else |
| Attestations.Signer.Store | audit/regulatory_attestation_signer.py:551-559 | storing appends the snapshot and caches the object |
| Attestations.Signer.CreateAttestation | audit/regulatory_attestation_signer.py:302-353 | the new draft has the id, framework, period, entity, root and metadata of its request, one year to run, no signature and the content hash of its creation dictionary; it is stored and cached, and nothing else changes |
| Attestations.Signer.GetAttestation | audit/regulatory_attestation_signer.py:536-549 | the cached object, or else the first stored event among the first thousand, cached from then on |
| Attestations.Signer.SignAttestation | audit/regulatory_attestation_signer.py:355-410 | exactly a draft is signed, and the stored event carries signature, time and signer; otherwise the error and no event |
| Attestations.Signer.RevokeAttestation | audit/regulatory_attestation_signer.py:504-534 | exactly a signed attestation is revoked, and the stored event says when, why and by whom; otherwise the error and no event |
| Attestations.Signer.VerifyAttestation | audit/regulatory_attestation_signer.py:412-502 | each of the five checks says what it is for, on the attestation as read; none for an unknown id, and no change but to the cache |
| Attestations.ApplyKeepsInv | audit/regulatory_attestation_signer.py:302-410 | every operation keeps each stored history to the lifecycle and equal at its end to the cache, only appends to the stream, and changes nothing when it fails |
| Attestations.LifecycleHolds | audit/regulatory_attestation_signer.py:302-559 | after any run of one signer from an empty stream, each id's events are draft, signed, revoked in this order, as far as they go, with unchanged terms and one signature, and the cache holds the last |
| Attestations.OutcomesFollowHistory | audit/regulatory_attestation_signer.py:361-366 | signing succeeds exactly after one stored event, revoking exactly after two, and the error names the present status |
| Attestations.SealBinds | audit/regulatory_attestation_signer.py:368-379 | the text that is signed is that of exactly this attestation's sealed dictionary, field by field |
| Attestations.CreationBinds | audit/regulatory_attestation_signer.py:332-344 | the text hashed at creation is that of exactly this creation dictionary, field by field |
| Attestations.HistoryStays | audit/regulatory_attestation_signer.py:551-559 | what a run has stored for an attestation stays at the head of its history |
| Attestations.CreationIsKept | audit/regulatory_attestation_signer.py:302-353 | after any run the cached object and every stored event of a created attestation have the terms of its request, and the draft its metadata |
| Attestations.SigningIsKept | audit/regulatory_attestation_signer.py:381-397 | a successful signature is the attestation's second event ever after, and signature, time and signer are on all that follow |
| Attestations.RevocationIsKept | audit/regulatory_attestation_signer.py:515-521 | a successful revocation is the third event ever after, with time, reason and revoker, and the draft's other metadata |
| Attestations.RestartReadsTheDraft | audit/regulatory_attestation_signer.py:541-549 | a signer with an empty cache reads the draft of every attestation that has an event among the first thousand and finds no other; this is the present attestation if and only if it is in reach and nothing followed the draft |
| Attestations.RestartSignsAgain | audit/regulatory_attestation_signer.py:355-410 | such a signer signs every attestation in reach, and the history keeps to the lifecycle if and only if it is out of reach or was still a draft |
| Attestations.RestartNeverRevokes | audit/regulatory_attestation_signer.py:504-516 | such a signer never revokes: it takes what is in reach for a draft, and does not find the rest |
| Attestations.ContentHashIsOfCreation | audit/regulatory_attestation_signer.py:332-345 | after any run an attestation's content hash is the digest of its creation dictionary, with the metadata of the draft |
| Attestations.VerificationNeverPasses | audit/regulatory_attestation_signer.py:449-500 | after any run no attestation, draft, signed or revoked, passes the content-hash check, so none is ever found valid, short of a collision |
| Attestations.SignatureCheckIsExact | audit/regulatory_attestation_signer.py:472-484 | after any run the signature check passes if and only if the attestation was signed, revoked or not |
| EventWriter.AppendLinksIff | audit/event_writer_immutable.py:181-198 | an append keeps its stream chained if and only if the hash the write read is still the last one |
| EventWriter.SecurityTypes | audit/event_writer_immutable.py:113-120 | an event goes to the security stream if and only if its type begins with one of three prefixes |
| EventWriter.RecordHashBinds | audit/event_writer_immutable.py:155-168 | two records have one hash if and only if they agree in type, payload and previous hash, short of a collision |
| EventWriter.ReadRemembers | audit/event_writer_immutable.py:181-182 | a read changes no stream and remembers the last hash of the stream of its type |
| EventWriter.AppendStores | audit/event_writer_immutable.py:183-198 | an append adds one event, with the type and payload of its write, to the stream of its type, and counts it |
| EventWriter.StepKeepsInv | audit/event_writer_immutable.py:170-204 | every step of exclusive writes keeps both streams chained, routed, counted and append-only |
| EventWriter.StreamsStayChained | audit/event_writer_immutable.py:170-204 | in every reachable state of writes that interleave, one at most under way per stream, both streams are linked from genesis and the write count is their total length |
| EventWriter.OverlapForks | audit/event_writer_immutable.py:182-197 | two writes that overlap on one stream leave it chained if and only if the first one's stored hash equals the hash both had read |
| EventWriter.HashesAreDistinct | infrastructure/event_store/append_only_store.py:409-419 | a linked stream never repeats a stored hash |
| EventWriter.OverlapAlwaysForks | audit/event_writer_immutable.py:182-197 | so two writes that overlap on one stream always break it |
| EventWriter.RecordsNeverChain | audit/event_writer_immutable.py:97-102 | after the first event no record names the hash that the record before it carries: the store hands back its own hash |
| EventWriter.WriterTamperEvidence | infrastructure/event_store/append_only_store.py:409-419 | streams of any lengths that end in the same stored hash are the same stream |
| EventWriter.WrittenStreamsNeverVerify | infrastructure/event_store/append_only_store.py:34-34 | a written stream, read by the audit verifier, is found broken at its first event |
| EventWriter.Writer.GetLastHash | audit/event_writer_immutable.py:97-102 | the hash of the stream's last event, or the audit genesis hash |
| EventWriter.Writer.WriteEvent | audit/event_writer_immutable.py:170-204 | a valid event is added to its stream with its type, payload and the hash that was last, and counted, and the other stream is left alone; an invalid one changes nothing |
| Numbering.ValueOfPadded | axioms/double_entry.py:889-889 | a padded numeral reads back as its number, past the padding width as well |
| Numbering.NumberReadsBack | axioms/double_entry.py:881-889 | splitting a journal number at its last two dashes recovers prefix, month and counter |
| Numbering.NumberInjective | axioms/double_entry.py:889-889 | journal numbers are equal if and only if prefix, year, month and counter are |
| Numbering.CounterCountsCalls | axioms/double_entry.py:883-886 | a prefix's counter is the number of calls made with it |
| Numbering.IssuedNumbersAreDistinct | axioms/double_entry.py:881-889 | no number is issued twice, across prefixes, dates and call orders |
| Numbering.ResetRepeatsNumbers | axioms/double_entry.py:1073-1078 | after a reset a number repeats if and only if the call and its place among the prefix's calls repeat |
| DoubleEntry.Registry.GenerateJournalNumber | axioms/double_entry.py:881-889 | the prefix's counter goes up by one and is what is printed |
| DoubleEntry.Registry.ChooseNumber | axioms/double_entry.py:905-905 | a supplied number that is not empty is taken and draws none; otherwise the next of the default prefix is drawn |
| DoubleEntry.Registry.CopyLines | axioms/double_entry.py:907-923 | every line is rebuilt as it was under the journal's id, side and amount included; an error if and only if some line has no positive amount, no account or no currency code |
| DoubleEntry.Registry.CreateJournal | axioms/double_entry.py:891-941 | a draft with the lines, totals and all else of its request and a supplied or drawn number is registered; no lines is an error at once, a bad line one after the number was drawn |
| DoubleEntry.Registry.SubmitJournal | axioms/double_entry.py:943-950 | exactly a registered draft is submitted, one version on |
| DoubleEntry.Registry.ApproveJournal | axioms/double_entry.py:952-962 | exactly a submitted journal is approved, one version on and with this approver appended |
| DoubleEntry.Registry.Enforce | axioms/double_entry.py:964-1032 | the verdict names the journal, its totals and their difference and balances within the tolerance used; it is recorded, among the violations if and only if unbalanced, before a grave one raises, if raising is on |
| DoubleEntry.CreateKeepsInv | axioms/double_entry.py:354-361 | a creation leaves every journal with lines, all under its own id, version 1 and the hash of its draft |
| DoubleEntry.MovesKeepInv | axioms/double_entry.py:403-417 | submitting and approving keep every journal well formed, its version one more than its moves |
| DoubleEntry.JournalsOnlyMoveOn | axioms/double_entry.py:891-962 | over any run a journal keeps id, number, lines and hash, moves only draft, submitted, approved, one version for each successful call on it, and gains one approver exactly on approval |
| DoubleEntry.StepDescends | axioms/double_entry.py:943-962 | an operation changes a journal only by moving it on, and an approval appends the approver it names |
| DoubleEntry.CountersFollowDraws | axioms/double_entry.py:891-905 | the counters after a run are those of its drawn numbers alone |
| DoubleEntry.NumberOfCreation | axioms/double_entry.py:905-905 | a creation without a number gets the one issued for its draw |
| DoubleEntry.DrawnNumbersAreDistinct | axioms/double_entry.py:881-905 | no two creations of a run draw the same journal number |
| DoubleEntry.CreationOf | axioms/double_entry.py:891-941 | every journal of the registry was put there by a successful creation and has the number this gave it and the lines, the difference and all else that this asked for |
| DoubleEntry.CreationStays | axioms/double_entry.py:891-941 | every successful creation is in the registry ever after, under its number and as it was asked for |
| DoubleEntry.RegistryNumbersDistinctIff | axioms/double_entry.py:905-905 | the numbers in the registry are distinct if and only if no supplied one equals that of another successful creation |
| DoubleEntry.OwnPrefixIsSafe | axioms/double_entry.py:905-905 | they are distinct if the supplied numbers are and none begins with the default prefix |
| DoubleEntry.HashIsStaleAfterMoves | axioms/double_entry.py:600-620 | the stored hash matches the journal if and only if it is still a draft |
| DoubleEntry.EnforceRaisesIff | axioms/double_entry.py:1019-1055 | enforcement raises if and only if the difference exceeds the tolerance and 1% of the larger side |
| DoubleEntry.SeverityBands | axioms/double_entry.py:1034-1055 | each severity is a band of the difference as a share of the larger side, both ends exact |
| DoubleEntry.TotalSnoc | axioms/double_entry.py:577-586 | a line adds its amount to the total of its own side and not to the other |
| DoubleEntry.HashBinds | axioms/double_entry.py:600-620 | the journal's hash binds id, number, kind, date, totals, status, version and line ids, short of a collision |
| Conservation.CollectNodes | axioms/conservation_of_value.py:925-956 | the loop gives the source and destination nodes, or the error of a bad node |
| Conservation.ValidateTransaction | axioms/conservation_of_value.py:915-985 | the verdict on the flow of the lines, or the error that construction raises |
| Conservation.NodesOfEntries | axioms/conservation_of_value.py:925-956 | the sources are the lines with a debit and the destinations those with a credit, with amount, currency and account |
| Conservation.RejectedIff | axioms/conservation_of_value.py:344-355 | exactly what is rejected, and with which error: a bad node before a negative fee before several currencies |
| Conservation.FlowVerdict | axioms/conservation_of_value.py:793-815 | the verdict's totals and difference, the tolerance used, and that it is conserved if and only if within it |
| Conservation.TotalsAgree | axioms/conservation_of_value.py:397-403 | sources and destinations of a journal add up to its debits and credits |
| Conservation.OneCurrencyIff | axioms/conservation_of_value.py:347-354 | a journal's flow counts at most one currency if and only if its lines and the fee are in one |
| Conservation.CheckersAgree | axioms/conservation_of_value.py:793-802 | without a fee the checker answers if and only if the journal is in one currency, and its answer is the balance test's for every tolerance, none and zero included |
| Conservation.FeeShiftsTheBalance | axioms/conservation_of_value.py:405-411 | with a fee a one-currency journal is conserved if and only if debits less credits less fee is within tolerance |
| Causality.Graph.RegisterCausality | axioms/causality_chain.py:837-870 | a link with a weight from 0 to 1, with this id, cause, effect, kind, description and weight and the strength of its kind, enters the table, the effects of its cause and the causes of its effect; any other changes nothing |
| Causality.Graph.MarkComplete | axioms/causality_chain.py:903-910 | exactly a known record is completed by this verifier, a version on and with its links unchanged |
| Causality.RegisteringAt | axioms/causality_chain.py:858-869 | what registering does to each transaction, the two ends being the same or not |
| Causality.IndexesAgree | axioms/causality_chain.py:483-517 | after any run the effects and causes of each transaction are exactly the registered links that leave and enter it, in order, its version is 1 + causes + effects + completions, and it is verified by the last that completed it |
| Causality.LogFollowsOps | axioms/causality_chain.py:837-870 | the registered links are, in order, those that the accepted registrations asked for, field by field |
| Causality.IndexesFollowOps | axioms/causality_chain.py:858-869 | after any run the effects of a transaction are, in order, the links of the accepted registrations that name it as cause, its causes those of the registrations that name it as effect, and it has a record if and only if some names it |
| Causality.TableHoldsTheLog | axioms/causality_chain.py:859-859 | the keys of the link table are exactly the ids of the registered links, each under its own, as many as were registered and in registration order |
| Causality.LinksAreConserved | axioms/causality_chain.py:837-870 | the effects of all records, and the causes of all records, add up to the number of registered links, which with fresh ids is the size of the link table |
| Migration.MergeColumns | orm_migration_sync_checker.py:234-235 | the columns of an operation are added to a table and overwrite columns of the same name |
| Migration.ApplyOp | orm_migration_sync_checker.py:225-257 | one operation does to the schema what the fold's step says |
| Migration.BuildTargetSchema | orm_migration_sync_checker.py:219-258 | the nested loops compute the fold of all operations in file order |
| Migration.FlattenAt | orm_migration_sync_checker.py:219-224 | the operations are replayed file after file, and within a file in its order |
| Migration.FlattenKeepsAll | orm_migration_sync_checker.py:219-224 | each operation of each file is replayed once |
| Migration.OneMoreOp | orm_migration_sync_checker.py:225-257 | what one operation does to one column of one table |
| Migration.LastWriterWins | orm_migration_sync_checker.py:219-258 | a column present at the end has a last definition, and its type and nullability are those of the last later alteration that gives one, or else that definition's own |
| Migration.PresentIff | orm_migration_sync_checker.py:219-258 | a column is present at the end if and only if its last create, add or drop is not a drop |
| Migration.TablePresentIff | orm_migration_sync_checker.py:226-242 | a table is present if and only if some operation created it or added to it |
| Migration.FindMismatches | orm_migration_sync_checker.py:272-279 | the mismatches are the common columns whose types differ |
| Migration.CompareSchemas | orm_migration_sync_checker.py:261-289 | there is exactly one entry for each table with a difference, and no other entry; it tells the columns the ORM lacks from those the migrations lack and gives the ORM's type first |
| Migration.DiffIsSymmetric | orm_migration_sync_checker.py:266-279 | swapping the schemas swaps the missing columns and turns every mismatch round |
| Migration.NoDifferencesIff | orm_migration_sync_checker.py:261-289 | nothing is reported if and only if both schemas have the same columns with the same types; a table without columns counts as absent |
| Migration.CleanCheckIff | orm_migration_sync_checker.py:219-289 | the check of an ORM schema against the replayed operations is clean if and only if every column is declared as its last writers left it |
| Gaps.DetectSequenceGaps | audit/gap_detector.py:124-150 | a gap is reported exactly where a number is not its predecessor's successor, with its position, event id, both numbers and their distance |
| Gaps.GapIsAt | audit/gap_detector.py:133-146 | a reported gap stands at its position with that event's id and number and the predecessor's successor; an event without a number has its place |
| Gaps.GapsAreInOrder | audit/gap_detector.py:133-146 | gaps are in stream order, one at most at each event |
| Gaps.NoGapIsMissed | audit/gap_detector.py:133-146 | wherever a number is not its predecessor's successor this gap is reported |
| Gaps.SizesTelescope | audit/gap_detector.py:128-150 | on every stream the sizes add up to last - first - (n - 1) |
| Gaps.NoGapsIff | audit/gap_detector.py:128-150 | no gap is reported if and only if the numbers are consecutive |
| Gaps.GapsAreDisjoint | audit/gap_detector.py:133-146 | on an increasing stream the gaps are non-empty intervals, each wholly above the one before |
| Gaps.MissingIff | audit/gap_detector.py:128-150 | on an increasing stream a number lies in a reported interval if and only if it is between the ends and missing |
| Duplicates.GroupByHash | audit/duplicate_detector_fuzzy.py:178-181 | the dictionary holds each content hash once, in order of first occurrence, with its events in stream order |
| Duplicates.SameHashIff | audit/duplicate_detector_fuzzy.py:120-135 | two events have one content hash if and only if they agree in type, data and metadata, short of a collision |
| Duplicates.KeysAreInOrder | audit/duplicate_detector_fuzzy.py:178-181 | the hashes are in the order of the first events that have them |
| Duplicates.KeepRecent | audit/duplicate_detector_fuzzy.py:193-200 | the loop keeps the events whose timestamp parses and lies in the window |
| Duplicates.ReportGroup | audit/duplicate_detector_fuzzy.py:202-216 | a group gives one entry, with its events and their ids and the score of the first event similar enough to its first, or none if it has fewer than two or no event is |
| Duplicates.DetectDuplicates | audit/duplicate_detector_fuzzy.py:160-218 | the result is one possible entry for each content hash, in order |
| Duplicates.SortedKeepsEvents | audit/duplicate_detector_fuzzy.py:189-189 | sorting keeps every event as often as it occurs |
| Duplicates.SortedIsOrdered | audit/duplicate_detector_fuzzy.py:189-189 | sorting puts the events in time order |
| Duplicates.SortedIsStable | audit/duplicate_detector_fuzzy.py:189-189 | sorting leaves events with one key in stream order |
| Duplicates.GroupIsExact | audit/duplicate_detector_fuzzy.py:184-200 | a group holds precisely the recent events of its content hash, each as often as the stream does |
| Duplicates.SameHashIsSimilar | audit/duplicate_detector_fuzzy.py:137-158 | within a content hash the similarity is one, so the test passes if and only if the threshold is at most one |
| Duplicates.OtherHashSimilarity | audit/duplicate_detector_fuzzy.py:141-158 | events with different content hashes are at most half similar: a fifth for one type and three tenths of the data's ratio |
| Duplicates.EveryRepeatIsReported | audit/duplicate_detector_fuzzy.py:184-216 | with a threshold of at most one, every content hash with at least two recent events has an entry with all of them |
| Duplicates.OnlyRepeatsAreReported | audit/duplicate_detector_fuzzy.py:184-216 | every entry is the full entry of its events' common content hash, with at least two events, their ids and score one |
| Duplicates.EntriesAreDisjoint | audit/duplicate_detector_fuzzy.py:184-216 | no event is in two entries, so each content hash has at most one |
| Duplicates.NothingPassesAboveOne | audit/duplicate_detector_fuzzy.py:204-207 | with a threshold above one nothing is reported |
| Duplicates.UnreadableStampsHideAll | audit/duplicate_detector_fuzzy.py:193-200 | where no timestamp can be read nothing is reported |

## Left out

- Start-up wiring, HTTP routes, dependency injection, scripts, PDF rendering, metrics, logging, file
  export, threads, locks and periodic loops: no logic that the modelled core depends on.
- The internals of SHA-256, JSON, RSA-PSS signing and `SequenceMatcher`: unknown functions with the
  hypotheses named above.
- Error texts: a breach is modelled by its kind and index, not by the message with its cut-off hashes.
- `compute_batch_hash`, `get_last_hash`, `get_chain_stats` and `clear_cache` of the chain builder: one-line uses
  of what is modelled.
- The chain builder of the event store (`infrastructure/event_store/hash_chain_builder.py`), the
  store's read cache, which holds the last hundred events of a stream, and its database: the store
  appears only as a sequence of events with the hash it computes for each.
- EventWriter.StreamsStayChained: takes the store's append as one step, although the store itself
  reads its last hash and sequence number before it inserts.
- EventWriter.WriterTamperEvidence: says nothing of a stored event's row id, sequence number and type,
  which the store does not hash.
- Attestations.LifecycleHolds: stored events are snapshots; the store's in-memory cache, which shares
  the metadata dictionary with the attestation object, is not modelled.
- Attestations.Signer.VerifyAttestation: takes the audit root as computed now as a parameter, and
  answers with the five checks without their texts; an unknown id, for which the source raises, is `None`.
- `list_attestations` and `export_attestation`: reading and file output.
- DoubleEntry.JournalsOnlyMoveOn: is about runs of create, submit and approve; `save_journal` and
  `delete_journal` store and remove journals without any check and are not steps of a run, and no
  other entity method (`activate`, `deactivate`, `delete`, `restore`, `touch`) is called by the service.
- The entities' class-level snapshots and audit trails, and the hashes of lines, flows and verification
  records: bookkeeping that no decision reads.
- `_determine_severity` of the conservation checker and its notification of the supreme law: neither
  changes a verdict.
- `CausalityChainAxiom.enforce`, `get_causality_chain` and `get_full_chain_graph` are stubs in the
  source; `save_link`, `delete_link` and the record repository methods bypass the indexes.
- Parsing migration files and importing ORM models: the model starts from the operations of the files
  in sorted order. The sharing of column objects between an operation and the schema is not modelled,
  since operations are not used again.
- Timestamp gaps, scans over all streams of the store, and alerts of the two scanners.
- A comparison of timestamps of mixed types, which makes the source's sort raise, is not modelled:
  every event has a sort key.
