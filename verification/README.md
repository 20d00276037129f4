# Verified models of the AA8 evidence tools

This project models four stateful parts of the `tools/` directory and three small refinement pieces, and proves what
they promise over all inputs and whole runs. Nothing here reads pixels: what an image reader returns is an arbitrary,
possibly missing, value in each frame.

**Annotations and exposures** (`SourceIdentity`, `Chains`, `Annotations`, `Revisions`, `Exposures`,
`AnnotationStores`, `ExposureRecords`, `ExposureWitnesses`). An append-only store of label revisions with optimistic concurrency, a full
validator of the revision graph, a fold to the current heads, and a re-derivation of what an exposure event is bound
to, merged over several stores. The central counting argument is that one root, one head and no cycle force every
group into a single line (`Chains`); from it follow the safety of every interleaving of appends and the absence of
conflicts under every read filter.

**Causal money ledgers** (`StateAdapter`, `AdapterRuns`, `AdapterCash`, `AdapterWitness`, `StreetBaseline`,
`LiveWagers`, `WagerRuns`, `HandLedger`, `HandRuns`, `HandAccounts`, `HandTransition`). Frame-by-frame machines: the
adapter pairs action glyphs with cash decreases, the baseline needs two agreeing frames, the wager ledger adds each
debit once and publishes only while the display agrees, the hand ledger carries an absorbing taint. Each is a class
whose methods are proved equal to a step function; the run theorems are about that function.

**Glyph de-duplication** (`Glyphs`). Both machines, and the simulation that makes the second one's events a
subsequence of the first one's for every recording.

**Producers, checkers and audits** (`CaptureReceipt`, `ReceiptAgreement`, `ActorEpisodes`, `EpisodePartition`,
`ActorAudit`, `ActorBinding`, `Acceptance`, `AcceptanceSoundness`). A producer and an independent validator of capture
receipts, a segmentation with its closing partition check and greedy binding, and an acceptance gate whose aggregate
counters are shown to imply facts about every frame.

**Small refinements** (`ActionLine`, `ShortCall`). Index slicing against a one-pass automaton, and a four-frame short
call against the reviewed inference.

**The rules, written out** (the modules named `...Rules`, and `StoredRequests`). Beside the run theorems stand lemmas
that say, in both directions and over indices, sets and fields of the inputs alone, what each operation decides: which
request is stored and read back, why an event does not bind, which glyph is paired with which decrease, when an epoch,
a street, a baseline, a wager ledger or a new hand is announced, when a manifest or a receipt is accepted and what is
reported of one that is not. The deciding conditions are written in predicates of their own, not in those of the
code-shaped functions they are about, so a wrong branch in one of those contradicts them.

Where code and documentation or promise differ, the model follows the code:

- The receipt validator does not accept everything the producer builds. The producer judges the frame density only
  when the clock is readable and counts a missing frame number as zero; the validator judges it only when there is a
  frame number. Empty or pre-epoch segment files are hashed by the producer and refused by the validator.
  `ReceiptAgreement.ProducerAndValidatorAgree` gives the exact condition, and `ReceiptAgreement.RefusedReceipts` four
  concrete recordings whose finalization succeeds and whose receipt is refused, two of them called clean.
- A table whose seats are all absent makes `partition_evidence` raise outside its own error handling, because the
  maximum of no wager is taken: `StreetBaseline.AllAbsentRaises` says exactly when, and
  `StreetBaseline.EmptyTableRaises` shows such a table.
- The docstring of `record_exposure` says that an unbound event is refused before anything is written; the code also
  stores events whose binding fails, as unresolved policy violations. `ExposureRecords.RecordedBoundIff` says exactly
  which recorded events are bound; `ExposureWitnesses.ParentRevisionRecorded` and
  `ExposureWitnesses.IncompleteReleaseRecorded` show two that are recorded and not bound.
- A usable source reference without a core identity makes `get_annotations` filter by no source at all, where one
  would expect nothing to be shown: exactly those references do (`ExposureWitnesses.CorelessQueryShowsAll`), and there
  are some (`ExposureWitnesses.CorelessReference`).

The subsequence relation of the two glyph machines needs every unsupported frame to blank every seat of the layout,
which both pipelines do; `Glyphs.MissingSeatBreaksIt` shows that the relation needs this hypothesis.

Amounts are exact rationals (`real`), fingerprints are injective constructors over the fingerprinted content, epochs
are named by the first frame of their deal, and an exception is a `Raised` result that leaves the object as the code
leaves it.

## Model

| member | source | states |
|---|---|---|
| SourceIdentity.StoredReferenceKeepsIdentity | tools/aa_annotation_records.py:541-672 | canonicalising the stored normalised reference again yields the same identity with the same four keys, strict or not |
| SourceIdentity.CaseInsensitiveIdentity | tools/aa_annotation_records.py:348-372 | references that differ only in the case of their digests have one identity |
| SourceIdentity.RootIgnoresProvenance | tools/aa_annotation_records.py:505-515 | two references share the long-term exposure root iff media digest, frame digest and frame index agree, whatever their audit or layout |
| IdentityRules.GapsExactly | tools/aa_annotation_records.py:518-640 | each gap is found exactly when the reference has it: blank texts, digests that are none, the frame number, the eight slots mapped one to one, and the parent's own gaps; the case of digests plays no part |
| IdentityRules.RefusedExactly | tools/aa_annotation_records.py:541-672 | the first thing wrong with a refused reference, and the gaps named when it is not complete |
| IdentityRules.IdentityExactly | tools/aa_annotation_records.py:541-672 | the class, gaps, four keys and stored form of every reference that is not refused |
| IdentityRules.SourceKeysAgree | tools/aa_annotation_records.py:348-372 | two cores have one evidence key iff they agree in everything up to the letter case of their digests |
| Chains.WalkBack | tools/aa_annotation_records.py:855-862 | the cycle walk terminates and reports a cycle exactly when following the pointers never reaches a root |
| Chains.AcceptedIffChain | tools/aa_annotation_records.py:855-888 | one root, one head and no cycle hold exactly for the graphs that are a single line from root to head |
| Annotations.IndexRows | tools/aa_annotation_records.py:773-782 | succeeds iff revision ids are present and distinct; every error it raises is a true fact of the rows |
| Annotations.CheckRows | tools/aa_annotation_records.py:784-830 | no error iff every row re-derives its source key and group key and carries a valid field, label and seat |
| Annotations.CheckLinks | tools/aa_annotation_records.py:832-853 | no error iff every supersedes pointer stays in its group, exists, and equals the expected revision |
| Annotations.CheckGroups | tools/aa_annotation_records.py:864-888 | no error iff each group has exactly one root and one head |
| Annotations.Validate | tools/aa_annotation_records.py:765-888 | accepts exactly the valid stores; a raised error names a condition the rows really violate |
| Annotations.GroupIsChain | tools/aa_annotation_records.py:855-888 | in an accepted graph every group is one linear chain ending in its unique head |
| Annotations.ValidIffChains | tools/aa_annotation_records.py:784-888 | the graph checks accept exactly when each group's revisions form one line |
| Revisions.OneLiveRow | tools/aa_annotation_records.py:891-906 | in an accepted store each group that has rows has exactly one live row, the head of its line |
| Revisions.AppendExtendsLine | tools/aa_annotation_records.py:984-1084 | an accepted append supersedes exactly the head of its group at that moment, lengthens the line by itself and keeps the store valid |
| Revisions.AcceptedExactlyAtHead | tools/aa_annotation_records.py:1027-1043 | a prepared append is accepted iff it expects the head of its group's line, or nothing where there is no line; otherwise the exact error |
| Revisions.ReachableStoresValid | tools/aa_annotation_records.py:984-1084 | from the empty store, after any interleaving of appends with fresh ids, the validator accepts the whole store |
| Revisions.StaleForever | tools/aa_annotation_records.py:1038-1043 | an expected revision that is not the head never becomes the head again, whatever is appended |
| Revisions.OnlyOneWins | tools/aa_annotation_records.py:1027-1043 | of two appends that expect the same head only the first succeeds, with any number of other appends between them |
| StoredRequests.PreparedExactly | tools/aa_annotation_records.py:984-1026 | what an append checks before it looks at the store: a supported field, a label that fits it, a usable reference, a mapped seat |
| StoredRequests.RowExactly | tools/aa_annotation_records.py:784-830 | a stored row passes iff its keys are those of its reference and its field, label and seat fit |
| StoredRequests.AppendStoresRequest | tools/aa_annotation_records.py:1044-1084 | the row of an accepted append holds the submitted label, field, seat, actor, amount role and expectation, and the reference in canonical spelling |
| StoredRequests.AppendReadsBack | tools/aa_annotation_records.py:932-1084 | after an accepted append with a fresh id the only live row of its group holds the submitted label |
| StoredRequests.ValueStaysReadable | tools/aa_annotation_records.py:932-1084 | and it stays the only live row through any further appends to other groups |
| Revisions.FoldAnnotations | tools/aa_annotation_records.py:891-906 | groups hold their rows in append order and heads exactly the rows nobody in the group supersedes |
| Revisions.NoConflictUnderAnyFilter | tools/aa_annotation_records.py:946-970 | filtering an accepted store by source, field or seat never changes a group's single live row |
| ReadRules.HistoryExactly | tools/aa_annotation_records.py:941-951 | the history shown lists in append order exactly the rows that fit every filter given |
| ReadRules.LiveExactly | tools/aa_annotation_records.py:891-906 | the live rows of a group are in append order exactly those no row of the group supersedes |
| Exposures.IndexedLookup | tools/aa_annotation_records.py:1244-1297 | the index keeps every distinct lineage of every id once, and nothing else |
| Exposures.BuildRevisionIndex | tools/aa_annotation_records.py:1300-1328 | merged over all readable stores, lookups are the union of the stores' lineages and conflicts are the ids with more than one |
| Exposures.EvaluateExposureBinding | tools/aa_annotation_records.py:1373-1490 | returns exactly the binding reasons and contamination keys of the event, and is bound iff there is no reason |
| BindingRules.ReasonExactly | tools/aa_annotation_records.py:1331-1490 | each of the fifteen reasons is given exactly when it holds of the event, of a named revision's lineage, or of a target nothing covers |
| BindingRules.MarksExactly | tools/aa_annotation_records.py:1087-1135 | the keys an event contaminates are exactly its own four and those of every lineage its revisions have |
| AnnotationStores.BoundMeans | tools/aa_annotation_records.py:1331-1490 | bound iff the event is complete, its consumer and run are identified, each named revision has one lineage that proves it (own root, same parent, KNOWN when consumed), and these cover exactly the consumer's targets |
| AnnotationStores.ClaimIgnored | tools/aa_annotation_records.py:1373-1380 | the stored claim never influences reasons or contamination |
| AnnotationStores.OrderIndependent | tools/aa_annotation_records.py:1300-1490 | reading the same stores in any order and with repetitions gives the same binding, reasons and contamination |
| AnnotationStores.RecordedStatusStable | tools/aa_annotation_records.py:1574-1660 | the status written when recording equals what any later reading of the grown store re-derives |
| ExposureRecords.RecordedBoundIff | tools/aa_annotation_records.py:1574-1666 | an accepted recording is bound iff its own identity is complete and every named revision is complete and lies on its own root or source under the same parent; otherwise it is stored as a policy violation |
| ExposureRecords.ForeignRevisionIsUnbound | tools/aa_annotation_records.py:1564-1590 | an accepted recording that names a revision of another lineage, such as the parent's, is always stored unbound and as a policy violation |
| ExposureRecords.ReparentedIsUnbound | tools/aa_annotation_records.py:1331-1355 | an accepted recording that names a row whose parent root and parent source both differ from the identity's is stored unbound and as a violation |
| ExposureRecords.ReauditedStaysBound | tools/aa_annotation_records.py:1331-1355 | a complete recording whose rows share its source or root and its parent root is bound although the parent was audited again |
| ExposureRules.ScreenedExactly | tools/aa_annotation_records.py:1146-1197 | a request passes the checks before the store is read iff purpose, kind, role, run, consumer, targets and reference are all named and supported |
| ExposureRules.RecordedExactly | tools/aa_annotation_records.py:1564-1616 | a screened request is recorded iff the store is accepted, every named row is there, lies on the source and root of the identity or of its parent, is targeted and KNOWN when consumed, and every target is met |
| ExposureRules.SeenExactly | tools/aa_annotation_records.py:1102-1143 | a source sees an event iff one of its keys is a key of the event or of a lineage of a revision the event names |
| ExposureRules.StateExactly | tools/aa_annotation_records.py:1669-1685 | the state of a source by the kinds of the events it sees: consumption, then possible use, then anything else, releases included, then declared coverage |
| ExposureWitnesses.ParentRevisionRecorded | tools/aa_annotation_records.py:1518-1530 | a concrete store and a training use of a crop that names its whole frame's annotation: recorded although not bound |
| ExposureWitnesses.ReparentedCropRecorded | tools/aa_annotation_records.py:1331-1355 | a concrete crop annotated under one frame and re-parented onto another: its use is recorded and not bound |
| ExposureWitnesses.ReauditedCropRecorded | tools/aa_annotation_records.py:1331-1355 | a concrete crop whose parent frame was audited again: its use is recorded and bound |
| ExposureWitnesses.IncompleteReleaseRecorded | tools/aa_annotation_records.py:1518-1530 | a concrete release under an incomplete identity, recorded on the empty store although not bound |
| ExposureWitnesses.CorelessQueryShowsAll | tools/aa_annotation_records.py:941-947 | a query by a usable source reference leaves every valid store unfiltered iff the reference has no core identity |
| ExposureWitnesses.CorelessReference | tools/aa_annotation_records.py:941-947 | a concrete accepted reference without a core identity, which selects every row of every valid store |
| AnnotationStores.CheckConsumption | tools/aa_annotation_records.py:1574-1616 | the first unfit revision decides the error, and otherwise a target that none of them covers |
| AnnotationStores.SeenFromBothSides | tools/aa_annotation_records.py:1102-1143 | an event is visible from every source sharing a key with its claimed lineage or with any candidate lineage of a named revision |
| AnnotationStores.StateGrows | tools/aa_annotation_records.py:1300-1685 | a longer accepted store, read beside the same other stores through validated indexes, shows at least as much exposure for every set of keys, under either coverage |
| AnnotationStores.ExposureOnlyGrows | tools/aa_annotation_records.py:1506-1685 | over any run of appends with fresh ids and of recordings, releases included, the store stays accepted and no source's exposure state decreases, read through validated indexes |
| AnnotationStores.AnnotationStore.AppendAnnotation | tools/aa_annotation_records.py:984-1084 | the object appends exactly the accepted row, and writes nothing when it raises |
| AnnotationStores.AnnotationStore.GetAnnotations | tools/aa_annotation_records.py:932-981 | on a valid store the read reports no conflict under any filter and shows each group's only live row |
| AnnotationStores.AnnotationStore.RecordExposure | tools/aa_annotation_records.py:1506-1666 | the object appends exactly the sealed event, and writes nothing when it raises |
| Glyphs.GlyphTransitions.Observe | tools/aa8_action_reader.py:130-146 | one frame of the first machine: its new state, its events, and the rejection of backwards frames |
| Glyphs.GlyphTransitionsV2.Observe | tools/aa8_glyph_transitions_v2.py:26-65 | one frame of the second machine, suspended frames included |
| Glyphs.GlyphTransitionsV2.Create | tools/aa8_glyph_transitions_v2.py:7-20 | the constructor accepts exactly the settings with positive stability, no shorter clear and no shorter guard |
| Glyphs.CoupledStep | tools/aa8_glyph_transitions_v2.py:43-64 | the coupling of the two cells survives any reading, and V2 reports only what V1 reports |
| Glyphs.V2RemovesOnly | tools/aa8_glyph_transitions_v2.py:26-65 | for every recording the V2 events are a subsequence of the V1 events, suspended frames included |
| Glyphs.MissingSeatBreaksIt | tools/aa8_glyph_transitions_v2.py:26-65 | the hypothesis of V2RemovesOnly is needed: fed an unsupported frame that omits a seat, which no pipeline does, the machines' events are not a subsequence |
| Glyphs.V2EventsSpaced | tools/aa8_glyph_transitions_v2.py:48-61 | two V2 events of a seat are more than the guard apart, or far enough apart for a stable clear and a re-confirmation |
| GlyphRules.SeatsExactly | tools/aa8_glyph_transitions_v2.py:37-65 | within a frame each seat is advanced once from its own memory, and the events are exactly those of the reported readings |
| GlyphRules.ChangeIsReported | tools/aa8_glyph_transitions_v2.py:43-61 | on every recording a glyph that starts to show and stays is reported at its `stable`-th frame and at no other, iff the seat has neither confirmed it, nor rejected it since its last clear, nor confirmed anything within the guard |
| GlyphRules.ClearedIsReported | tools/aa8_glyph_transitions_v2.py:43-61 | on every recording a glyph that stays for `stable` frames after a full clear is reported at the last of them |
| GlyphRules.SteadyExactly1 | tools/aa8_action_reader.py:130-146 | the first machine reports a new glyph at its `stable`-th frame whatever came before, and forgets it after `clear` empty ones |
| Glyphs.IsSubsequence | tools/aa8_glyph_dedupe_regression.py:128-133 | the single shared iterator decides the subsequence relation |
| StateAdapter.ComparePosting | tools/aa8_state_adapter_v2.py:52-70 | debits, credits and excluded seats of two rows, or nothing when a seat is unreadable without being absent or fewer than three seats paid |
| StateAdapter.AA8StateAdapterV2.Observe | tools/aa8_state_adapter_v2.py:151-322 | one frame of the adapter: rejection, reset, deal, street, cash, pot and glyph phases in the code's order |
| AdapterRuns.HistoryIsAppendOnly | tools/aa8_state_adapter_v2.py:151-322 | over every run, actions and epoch events of any earlier moment are a prefix of the later ones |
| AdapterRuns.GlyphsAccounted | tools/aa8_state_adapter_v2.py:261-293 | after an unblocked frame nothing pending is a fold, a check or older than the window, and pending plus newly resolved glyphs are exactly those due |
| AdapterRuns.EveryGlyphBecomesOneAction | tools/aa8_state_adapter_v2.py:261-293 | on an uninterrupted run the glyphs waiting at the start and those that arrived are, as a multiset, the resolved ones plus those still waiting |
| AdapterRuns.ResolvedWithinWindow | tools/aa8_state_adapter_v2.py:268-293 | a zero action, or a glyph older than the window, has been published exactly as often as it arrived |
| AdapterCash.AlwaysSolvent | tools/aa8_state_adapter_v2.py:267-291 | the audited state is the adapter's on every run, and since the last reset actions with cash evidence map injectively to recorded decreases of their own seat within the window of their glyph, each seen as an equal pot increase, with the decrease as amount or zero |
| AdapterCash.CashIsConserved | tools/aa8_state_adapter_v2.py:250-305 | per seat, the amounts published with evidence since the last reset never exceed the decreases seen since then |
| AdapterWitness.PostedEpochHasWitness | tools/aa8_state_adapter_v2.py:178-199 | on every run an epoch opened by a posting rests on four adjacent frames: two with one stack vector, two with another, empty board throughout, zero pot and deal cue in the last two, and its posting compares the middle two |
| AdapterWitness.StreetNeedsTwoFrames | tools/aa8_state_adapter_v2.py:202-221 | on every run a postflop street is entered only on the second of two adjacent frames that show exactly its board |
| PairingRules.ResolvedExactly | tools/aa8_state_adapter_v2.py:267-291 | at a glyph's turn: it is paired with a decrease iff that is the one unspent entry of its seat in the window, no other seat paid within a frame of it, and exactly one pot rise has its amount; its action, amount and the new books follow |
| EpochRules.RefusedExactly | tools/aa8_state_adapter_v2.py:151-157 | on every run a row is refused iff its frame is negative or not later than the last row's |
| EpochRules.InterruptedExactly | tools/aa8_state_adapter_v2.py:151-163 | a gap, an unsupported scene or an overlay forgets everything but what was published |
| EpochRules.EpochExactly | tools/aa8_state_adapter_v2.py:164-199 | on every run a clear frame opens a posted epoch iff it confirms the deal the three frames before it propose, an unanchored one iff no epoch is open and the deal shows for exactly the second time in a row, and none otherwise |
| EpochRules.StreetExactly | tools/aa8_state_adapter_v2.py:202-221 | on every run the street is that of a board shown by the frame and the one before it and not behind the street so far; otherwise it stays, or starts preflop with a new epoch; and when it is supported |
| FrameRules.FrameExactly | tools/aa8_state_adapter_v2.py:250-305 | on every run a clear frame adds exactly its decreases, pot rise and glyphs to what is kept, a gap or a new epoch keeping nothing, then resolves the waiting glyphs in order of arrival, then publishes a short call |
| StreetBaseline.PartitionEvidence | tools/aa8_street_baseline_v2.py:43-102 | the first failing condition or seat decides the reason; otherwise the seat-by-seat partition of the title |
| StreetBaseline.ConsistentMeans | tools/aa8_street_baseline_v2.py:47-102 | consistent iff the context is causal, all seats are readable and title = center + wagers; each wager is what its rectangle shows and the price is their maximum |
| StreetBaseline.AllAbsentRaises | tools/aa8_street_baseline_v2.py:96-100 | the partition raises exactly for a causal frame of empty absent seats whose title is the bare center |
| StreetBaseline.EmptyTableRaises | tools/aa8_street_baseline_v2.py:96-126 | for every readable amount a concrete empty table on which the tracker's step raises whatever it remembers, and forgets nothing |
| StreetBaseline.StreetBaselineCandidate.Observe | tools/aa8_street_baseline_v2.py:109-126 | the tracker's new memory and verdict, exceptions included |
| StreetBaseline.BaselineNeedsTwoFrames | tools/aa8_street_baseline_v2.py:109-126 | on every sequence of observations a candidate rests on two seen, adjacent frames with one consistent partition |
| StreetBaseline.BaselineExactly | tools/aa8_street_baseline_v2.py:118-126 | after an accepted observation the next yields a candidate iff it is one frame later and agrees in everything |
| BaselineRules.ConsistentExactly | tools/aa8_street_baseline_v2.py:43-102 | a frame is consistent with a view iff its context is causal, actor fresh, all eight seats clear, somebody present, and title = center + all chips shown; the view is what the frame shows |
| BaselineRules.ReasonExactly | tools/aa8_street_baseline_v2.py:43-102 | otherwise the reason is that of the first requirement missed, seats complaining in order |
| BaselineRules.TrackExactly | tools/aa8_street_baseline_v2.py:109-126 | one observation: what is raised, remembered and proposed |
| LiveWagers.CausalWagersV2.Observe | tools/aa8_live_wagers_v2.py:39-176 | one frame of the wager ledger, with every invalidation and reason in the code's order |
| WagerRuns.ApplyAdds | tools/aa8_live_wagers_v2.py:128-140 | going through the actions adds the first amount of every identity to its seat, and to the sum, exactly once |
| WagerRuns.ApplyAgain | tools/aa8_live_wagers_v2.py:128-140 | re-reading a grown action list in a later frame adds the new actions only |
| WagerRuns.PublishedLedgerIsFaithful | tools/aa8_live_wagers_v2.py:85-176 | on every joint run, a published ledger is its baseline plus the first action of every identity of the epoch and street; preflop the epoch's last event is a posting; the displayed title is the baseline title plus those debits, the center is unchanged, no glyph waits, no display contradicts it |
| WagerRuns.MissedStreetStaysHidden | tools/aa8_live_wagers_v2.py:57-115 | once the adapter has an action of an epoch and street without a held baseline, that street is never published later, through key changes, gaps and back |
| WagerRules.ReadyIsPublished | tools/aa8_live_wagers_v2.py:39-176 | a frame in sequence, uncovered, with epoch, street, anchored deal when preflop, a baseline, an unmoved center, countable actions and a display that agrees is published with those totals and their largest |
| WagerRules.PublishedIsReady | tools/aa8_live_wagers_v2.py:39-176 | and nothing else is published |
| WithheldRules.GateMemory | tools/aa8_live_wagers_v2.py:39-91 | which frames are refused, closed or unanchored, and what is forgotten then |
| WithheldRules.AccountedMemory | tools/aa8_live_wagers_v2.py:112-140 | an unreadable center pauses the ledger; a moved center or an action that cannot be counted ends it |
| WithheldRules.ComparedMemory | tools/aa8_live_wagers_v2.py:141-176 | an unchanged image that contradicts the totals for more than twelve frames with no glyph waiting ends the ledger; any other doubt withholds the frame and dates the conflict |
| HandLedger.AA8HandLedgerCandidate.Observe | tools/aa8_strategy_state_v2.py:125-189 | one frame of the hand ledger: reset, taints, applied actions and the report |
| HandLedger.AA8HandLedgerCandidate.Reset | tools/aa8_strategy_state_v2.py:87-123 | the opening vector from the unique posting event of the epoch, or the reason there is none |
| HandRuns.EpochsAlwaysInOrder | tools/aa8_state_adapter_v2.py:135-199 | on every run each epoch is named after the frame before its event, names strictly increase, and a posted epoch has at least three nonnegative debits |
| HandRuns.OpeningIsKnown | tools/aa8_strategy_state_v2.py:96-123 | for the adapter's open epoch a reset finds exactly one event and starts from its posts iff the epoch was opened by a posting |
| HandAccounts.CommitmentsExplained | tools/aa8_strategy_state_v2.py:87-164 | on every joint run the commitments are the opening posts plus one action's amount per applied identity |
| HandAccounts.CommitmentsOnlyGrow | tools/aa8_strategy_state_v2.py:130-159 | within an epoch and without a gap no commitment decreases, no identity is forgotten and a taint stays |
| HandAccounts.TaintLiftsOnlyWithTheEpoch | tools/aa8_strategy_state_v2.py:130-141 | a gap taints at once, so only the contiguous start of another epoch can lift a taint |
| HandAccounts.TaintIsAbsorbing | tools/aa8_strategy_state_v2.py:130-164 | a tainted ledger publishes nothing as observed through any further frames of its epoch |
| HandAccounts.ObservedIsComplete | tools/aa8_strategy_state_v2.py:144-164 | commitments published as observed account for every action the adapter holds for the epoch, each identity once |
| LedgerRules.OpenedExactly | tools/aa8_strategy_state_v2.py:87-123 | a ledger opens with totals iff exactly one event of the epoch exists and it posted at least three amounts at the table; each seat starts with what it posted |
| LedgerRules.SeenExactly | tools/aa8_strategy_state_v2.py:125-164 | one frame: acceptance, renewal, the amount of each new readable action added once, and tainted iff by a gap, a modal frame, an unreadable action, or before |
| LedgerRules.ReportExactly | tools/aa8_strategy_state_v2.py:166-189 | observed iff there are totals and no taint; the difference is the eight commitments less the displayed pot, reported iff both are there |
| HandTransition.Configure | tools/aa8_hand_transition.py:53-59 | the constructor's two rejections and its blank start |
| HandTransition.HandTransitionCandidates.Observe | tools/aa8_hand_transition.py:61-102 | one frame of the tracker: new memory and announced hand |
| HandTransition.NewHandIffWitness | tools/aa8_hand_transition.py:66-100 | on every run a new hand is announced iff the frames end in two adjacent blocks of the required length, each with one stack snapshot, the cue visible in the second, enough seats paying; and it names exactly those frames and amounts |
| TransitionRules.NewHandExactly | tools/aa8_hand_transition.py:41-102 | the same over the raw frames: supported, empty board, zero pot, eight readable stacks, enough payers, and the announced frames, debits and credits |
| HandTransition.DebitsLessCredits | tools/aa8_hand_transition.py:85-88 | debits minus credits are the old stacks minus the new stacks |
| ActionLine.CandidateActionLine | tools/aa8_strategy_state_v2.py:16-74 | the loop's sequence check and classification, with the rejection of disorder |
| ActionLine.SlicesMatchAutomaton | tools/aa8_strategy_state_v2.py:45-68 | the classification by index slices equals a one-pass automaton over the kinds, for all sequences |
| ActionLine.LineIgnoresPassive | tools/aa8_strategy_state_v2.py:45-68 | deleting folds and checks never changes the line |
| ActionLine.LineOnlyRises | tools/aa8_strategy_state_v2.py:45-68 | further actions never lower the line |
| LineRules.VerdictExactly | tools/aa8_strategy_state_v2.py:16-74 | every outcome over the whole action list: unknown epoch, postflop, disorder, and otherwise the automaton's line and the action frames |
| LineRules.PassiveAnywhere | tools/aa8_strategy_state_v2.py:45-68 | a fold or a check anywhere in a sequence makes no difference to its line |
| ShortCall.ShortAllInCandidate | tools/aa8_continuous_state.py:197-258 | a candidate is returned iff the four rows show a short call, with its debit and largest other wager |
| ShortCall.ShortCallRefinesReviewed | tools/aa8_unmarked_money.py:41-70 | where it is shown, the reviewed inference on the middle rows gives the same all-in call and debit for exactly the prices that reach wager plus stack, hence for all from the bound up |
| ShortCallRules.ShownExactly | tools/aa8_continuous_state.py:197-258 | four rows show a short call iff they are four frames of one board, the timed actor then gone, whose whole stack alone went into the pot, below the largest other wager |
| ShortCallRules.InferredExactly | tools/aa8_unmarked_money.py:41-70 | the reviewed inference finds a call iff the actor's stack alone changed, by what was owed or all that was left, and the pot shows it |
| ShortCall.ContinuousEvidence.Observe | tools/aa8_continuous_state.py:147-151 | each observation answers for the last four rows |
| ShortCall.WindowIsLastFour | tools/aa8_continuous_state.py:141-148 | after any number of rows the window holds the last four |
| CaptureReceipt.SafeSegments | tools/aa_passive_capture_intake_v1.py:1089-1124 | the segments of a manifest, or the first row that breaks a rule, or a file set that differs |
| CaptureReceipt.ReadProgress | tools/aa_passive_capture_intake_v1.py:1127-1156 | the last assignment of every key counts; an invalid counter raises |
| CaptureReceipt.FinalizeRecording | tools/aa_passive_capture_intake_v1.py:1222-1399 | the receipt with its failures in order, clean exactly when there is none |
| CaptureReceipt.CheckFiles | tools/aa_passive_capture_intake_v1.py:1490-1534 | roles, segments and manifest: the first problem in the validator's order |
| CaptureReceipt.ValidateReceipt | tools/aa_passive_capture_intake_v1.py:1456-1621 | the validator's first problem, or acceptance |
| ReceiptRules.SafeExactly | tools/aa_passive_capture_intake_v1.py:1089-1124 | the segments are accepted iff every row names its file, its times are finite, forward and joined within 0.002, and the files found are exactly those; each segment copies its row and file |
| ReceiptRules.FinalizedExactly | tools/aa_passive_capture_intake_v1.py:1222-1399 | a receipt exists iff rows and counters are accepted, is clean iff none of the twenty failures occurred, and carries exactly those that did |
| ReceiptRules.AcceptedExactly | tools/aa_passive_capture_intake_v1.py:1456-1621 | the validator accepts exactly the receipts whose blockers, files, segments, counters and verdict fit what they show |
| ReceiptAgreement.FinalizedTimeline | tools/aa_passive_capture_intake_v1.py:1089-1124 | the last timestamp is the sum of segment lengths and gaps, with total gap at most 0.002 per join |
| ReceiptAgreement.FailuresRanged | tools/aa_passive_capture_intake_v1.py:1238-1330 | the failure list has no repetition and each failure comes from the one phase that looks for it |
| ReceiptAgreement.BlockersShow | tools/aa_passive_capture_intake_v1.py:1596-1617 | eleven of the twelve conditions the validator sees match the producer's blockers always; the density one differs as described |
| ReceiptAgreement.ProducerAndValidatorAgree | tools/aa_passive_capture_intake_v1.py:1402-1621 | the validator accepts a finalized receipt, clean or failed, iff segments are nonempty and dated and clock and frame count do not disagree about density; always so with both present |
| ReceiptAgreement.RefusedReceipts | tools/aa_passive_capture_intake_v1.py:1222-1617 | four concrete recordings that finalize and are refused: clock without frames and frames without clock, both quarantined; an empty file and a pre-epoch file, both called clean |
| ActorEpisodes.CollectUnknown | tools/audit_aa8_actor_episodes.py:189-216 | the buffered pass yields the runs of unknown rows |
| ActorEpisodes.CollectEpisodes | tools/audit_aa8_actor_episodes.py:217-244 | the buffered pass yields the runs of each actor, or the first evidence error |
| EpisodePartition.RunsAreMaximal | tools/audit_aa8_actor_episodes.py:206-244 | the spans are maximal, ordered, and miss no labelled row |
| EpisodePartition.PassesTogether | tools/audit_aa8_actor_episodes.py:189-244 | both passes together are the maximal runs of one labelling, chained without gap from the hand's first to last frame |
| EpisodePartition.CountsAddUp | tools/audit_aa8_actor_episodes.py:335-344 | episode frames are the actor frames and span frames all others |
| ActorAudit.CheckPartition | tools/audit_aa8_actor_episodes.py:320-328 | the cursor loop decides whether each hand's segments are a gapless chain over its range |
| ActorAudit.HandRowsAreFrames | tools/audit_aa8_actor_episodes.py:153-187 | the rows looked up for a hand are those of its frames in order; in a contiguous window a lookup fails iff the hand reaches out of the window |
| ActorAudit.BuildSegments | tools/audit_aa8_actor_episodes.py:153-328 | the sorted segment list of a contiguous window, or the first error |
| ActorAudit.SelectedAreRuns | tools/audit_aa8_actor_episodes.py:317-322 | after sorting everything, selecting a hand gives exactly its maximal runs in order |
| ActorAudit.PartitionCheckNeverFails | tools/audit_aa8_actor_episodes.py:320-328 | with unique ids the check accepts a hand iff its start is at most one past its last frame, so it never raises for nonempty ranges |
| ActorRules.AuditExactly | tools/audit_aa8_actor_episodes.py:153-328 | the audit accepts iff the window is complete, every row believable, every hand inside, and every actor founded in scene and evidence; and which error comes first |
| ActorRules.SegmentsExactly | tools/audit_aa8_actor_episodes.py:189-328 | the segments of an accepted audit are, hand by hand, the maximal runs of one label over the observed rows, and hold every frame |
| ActorRules.SegmentsInOrder | tools/audit_aa8_actor_episodes.py:317-319 | they are listed in the order of the hands and, within a hand, by frame without overlap |
| ActorBinding.EpisodeIsOneActor | tools/audit_aa8_actor_episodes.py:97-119 | every segment of the episode pass is an episode of its hand all of whose rows show its actor |
| ActorBinding.EpisodesFollowSegments | tools/audit_aa8_actor_episodes.py:97-119 | the episodes handed to the binding are the segments of the episode pass, one by one and in order |
| ActorRules.EpisodeStreets | tools/audit_aa8_actor_episodes.py:97-119 | every episode shows its actor throughout, and has a street iff all its rows show that street's number of board cards |
| ActorRules.BoundExactly | tools/audit_aa8_actor_episodes.py:262-301 | a review is bound to an episode iff that is the free one of its hand and seat, within the lag, that ended last, the first of equals, and the streets do not differ |
| ActorBinding.BindReviews | tools/audit_aa8_actor_episodes.py:258-303 | the binding loop with its used set and its counters |
| ActorBinding.BindingIsGood | tools/audit_aa8_actor_episodes.py:262-301 | each binding has the right hand, seat and street and a lag within the maximum, takes the latest free episode, and a review stays unbound only for want of a candidate or for a street mismatch |
| ActorBinding.BoundReviewHasActor | tools/audit_aa8_actor_episodes.py:208-303 | a bound review lies at most the maximum lag after an episode of its hand; every frame of that episode has an observed row showing the reviewed actor and, where the street is known, the reviewed street's board |
| ActorBinding.BindingIsInjective | tools/audit_aa8_actor_episodes.py:293-303 | no episode is bound twice, bound + unbound = matched, standard + delayed = bound |
| Acceptance.CheckHands | tools/aa8_acceptance.py:168-193 | the issues of the hand loop and the accepted hands, overlaps against earlier accepted hands included |
| Acceptance.IndexRows | tools/aa8_acceptance.py:195-205 | reports a duplicate iff two rows share hand and frame and an outside row iff some row lies in no accepted hand; each key maps to the last row that has it |
| Acceptance.CountFrames | tools/aa8_acceptance.py:226-291 | every counter is the number of frames with its property, and the issues are those of some frame, whatever the iteration order |
| Acceptance.Evaluate | tools/aa8_acceptance.py:164-338 | the verdict: pass iff nothing is reported, with the coverage behind it |
| AcceptanceSoundness.CountersAreConsistent | tools/aa8_acceptance.py:277-291 | required + exempt = total, matched at most known gold and automatic, required matches and abstentions within their totals |
| AcceptanceSoundness.CompleteIff | tools/aa8_acceptance.py:292-295 | equal totals hold iff some frame is required and every required frame, one by one, is matched |
| AcceptanceSoundness.HandsAreDisjoint | tools/aa8_acceptance.py:168-193 | without hand issues, hands of a session are clean, distinct and share no frame |
| AcceptanceSoundness.EveryFrameIsExpected | tools/aa8_acceptance.py:208-212 | then the frames compared are all frames of all hands |
| AcceptanceSoundness.PassIsSound | tools/aa8_acceptance.py:164-338 | a pass means disjoint hands, one row per frame and none outside, full coverage, registered opportunities exactly the labelled ones and holding every known moment of action, no card collision; and for every field not validly exempted, and for every prediction claimed as known, label and prediction are known, valid and equal, and the prediction automatic |
| AcceptanceRules.PassExactly | tools/aa8_acceptance.py:164-338 | the gate passes iff the hands are usable, distinct and apart, each frame has one label and one prediction, the registries list exactly the opportunities, every frame and field meets its conditions, and every field is compared somewhere |
| AcceptanceRules.CountersExactly | tools/aa8_acceptance.py:277-291 | known, automatic and matched count the frames with a valid label, a valid automatic prediction, and both with the same value |
| AcceptanceRules.RequiredExactly | tools/aa8_acceptance.py:252-291 | so do the counters of required, exempted, abstained and required matched frames |
| IssueRules.ReportedExactly | tools/aa8_acceptance.py:164-338 | each issue is reported exactly when it holds of the manifest, of a hand, of a kept hand's registry or of a frame |

## Left out

- Files, JSON parsing, locks, fsync, hashing and device probing: a lock is one atomic step, a digest is injective, ids drawn at random are parameters that have to be fresh.
- Unicode white space and float JSON values in source references; rows are typed, so a value of the wrong JSON type appears only where the code tests for it.
- `_read_declared_stores` with conflicting event ids keeps the first one read and is not modelled; `assess_use` follows from constants.
- AnnotationStores.OrderIndependent: order independence is claimed for the binding evaluator, not for which of two conflicting event ids is kept.
- Glyphs.V2RemovesOnly: is stated for recordings in which an unsupported frame blanks every seat and no epoch is begun explicitly, as both pipelines feed the machines; outside it `Glyphs.MissingSeatBreaksIt` shows a failure.
- `compare` of the first action reader is a greedy matching of the same shape as the review binding and would only add easy members.
- StateAdapter.AA8StateAdapterV2.Observe: balance decreases are an arbitrary input of each frame in place of the visual timeline; participants, board cards, unallocated credits and source digests, which no modelled property reads, are not part of the state.
- AdapterCash.CashIsConserved: assumes that a balance decrease is not negative, which the visual timeline provides and this project does not model.
- Decimal text and its 28-digit context: amounts are compared as numbers, so two spellings of one number count as equal in baselines and signatures.
- LiveWagers.CausalWagersV2.Observe: unallocated credits, the unused start frame and the diagnostic lists of conflicting slots are not part of the reply.
- ShortCall.ContinuousEvidence.Observe: only the four-row window is modelled, not the price context kept beside it.
- CaptureReceipt.ValidateReceipt: identifiers, digests, device description and constant fields, which the producer copies or writes as constants, and exact key sets are not modelled; times are already parsed.
- CaptureReceipt.FinalizeRecording: file changes between the two readings and the authorization receipt are not modelled; a stop reason that is a JSON list or object, which makes the code raise, does not occur.
- ActorAudit.BuildSegments: digests, time stamps and the protocol's expected counts are not modelled.
- Acceptance.Evaluate: artifacts, freeze, scenario and hardware requirements are one flag; the format check of single values is an arbitrary predicate, so the theorems hold for every such check.
- Image work, recognizers, ROI tables, strategy engines, reservations, scoring and bank scripts.
