# Verified core of Mullion

Mullion is a GPU terminal and SSH client. Around its screen and network code sit small state
machines, caches, tables and codecs that decide what is drawn, measured, probed, sent and
deleted. This project models those and proves what they are for. Objects that change in place
are classes, or methods with loops, proved against functions on values; the theorems are about
those functions, over every input, every run or every interleaving.

* **Synchronized output** (`SyncFramePacer`, `PaneAggregate`, `SyncHistory`, `FrameLimiter`): holding frames
  back between the two DEC private mode 2026 markers, the 150 ms escape, many panes at once, pacing.
* **Attribution tables** (`KeyTable`, `KeyTableRace`, `KeyTableAlone`, `PaneTable`, `Seating`, `BandCount`):
  eight slots for the causes of redraws and for the traffic of panes, sequentially and interleaved.
* **Shaped rows** (`ShapedCache`, `RowShaper`, `Scrolling`, `RowFingerprints`): content-addressed reuse,
  eviction by frame stamp, recycling of payloads, what scrolling allocates.
* **Fingerprints and bands** (`Fingerprint`, `Bands`, `BandPlan`, `BandLook`, `FrameFp`): encodings without
  loss, FNV-1a, which bands to rebuild, when to skip a frame.
* **Codecs** (`ClipboardCodec`, `Utf8Text`, `LittleEndian`, `Dib`, `DibWriter`, `BitFields`): the file
  clipboard and its padded envelope, clipboard bitmaps.
* **Protocols** (`StatsCell`, `StatsHistory`, `BatchTracker`): probes whose reports arrive late and across
  reconnects; uploads that count only as a whole.
* **Decisions** (`Histogram`, `MemoryBudget`, `NodePick`, `LogNames`, `LogRetention`, `Redactor`,
  `RedactedAddress`, `Text`): quantiles, the memory warning, choosing a node, pruning logs, redacting them.

`Arithmetic`, `Bytes` and `FiniteSets` hold powers of two, machine integers and set sizes.
`dafny verify dfyconfig.toml` checks everything.

## Where a property needs a condition

Each of these is a lemma. Where comments in the program say more, the models follow the code.

* A drain is right about a slot exactly if the slot has a key and hits when it begins and is not about
  to get its first hit. The comment on `KeyTable::drain` says that otherwise one hit at most is
  misattributed. It can be any number, and a hit can be lost, or turn up under a key that never had it.
* A quantile is described as an upper bound ("p95 is at most X"). It is one exactly as long as the
  sample is at most 2^23 microseconds; above, the last bucket reports 2^23.
* A band's fingerprint is taken of everything that shows in its rows, except which row the composition text of
  an input method is on. When the cursor moves to another row of the band, in its column, the band is not
  rebuilt, and the text stays where it was. The comments ask for all that changes a band's look.
* `segments` joins row 65535 to row 0, and bands stop covering a pane above 65520 rows; no real
  pane is that tall.
* An alias is meant to read the same everywhere. Every alias survives the last pass exactly if no value with
  an alias is the word or the number of an alias in use. A machine called `host` breaks its own alias, one
  called `path` those of all paths. Settling in one pass is less: there only aliases of bare values count.
* A reading at the very top of its range is reported again and again by the memory watch.
* After the clock has run backwards, the frame limiter's wait is too short and the cursor's next flip is
  announced too early.
* A batch in which a job number occurs twice, or without jobs, is never judged.
* Scrolling allocates nothing after the first scroll frame if all lines have equally many runs; otherwise a
  frame allocates exactly when more runs come in than the pool has: as long as the pool's cap does not
  bite, when it needs more payloads at once than any frame before it.
* Colour masks over 24 bits wrap: a full channel then comes out dark.

## Model

| member | source | states |
|---|---|---|
| `SyncPacer.ChunkInvariance` | crates/mullion-app/src/render.rs:51-82 | delivering `a` then `b` at one instant reaches the same full state as delivering `a + b`, for all byte strings and all states: TCP may cut the stream anywhere |
| `SyncPacer.MatchedIsSuffix` | crates/mullion-app/src/render.rs:69-81 | the kept tail is always an actual suffix of the stream and a prefix of the markers' shared seven bytes |
| `SyncPacer.SuffixIsMatched` | crates/mullion-app/src/render.rs:69-81 | conversely any such suffix is the one kept, so the tail is unique and longest |
| `SyncPacer.InSyncIffLastMarkerIsBsu` | crates/mullion-app/src/render.rs:51-82 | after a stream the pacer is in a block if and only if the last complete marker in the stream is the opening one |
| `SyncPacer.RunInSyncIffLastMarkerIsBsu` | crates/mullion-app/src/render.rs:51-152 | the same over any run of deliveries at any times, presents and counter drains |
| `SyncPacer.TailReplays` | crates/mullion-app/src/render.rs:52-54 | scanning the kept tail again in front of new bytes re-enters no marker; it only restores the match |
| `SyncPacer.FeedEnds` | crates/mullion-app/src/render.rs:51-82 | the index loop over tail plus bytes, looking for whole markers, ends where the byte-at-a-time automaton does |
| `SyncPacer.TimeoutsNeverExceedBlocks` | crates/mullion-app/src/render.rs:128-152 | over any run with any drains, timeouts reported or counted never exceed blocks reported or counted, an uncounted block making up for the timeout it may still cause |
| `SyncPacer.ReportedTimeoutsNeverExceedBlocks` | crates/mullion-app/src/render.rs:128-152 | so the timeouts reported so far never exceed the blocks reported so far |
| `SyncPacer.SyncFramePacer.Feed` | crates/mullion-app/src/render.rs:51-82 | the whole new state is that of the automaton run over the bytes; the tail invariant is kept |
| `SyncPacer.SyncFramePacer.Scan` | crates/mullion-app/src/render.rs:55-68 | the marker loop brings the flags and the block count to the automaton's, for any buffer |
| `SyncPacer.KeptPrefix` | crates/mullion-app/src/render.rs:69-81 | the suffix kept is the longest proper prefix of a marker |
| `SyncPacer.SyncFramePacer.MarkPresentedAt` | crates/mullion-app/src/render.rs:128-141 | a block's timeout is counted once, when presented at or after its deadline; the frame stops being dirty |
| `SyncPacer.SyncFramePacer.TakeWindow` | crates/mullion-app/src/render.rs:147-152 | returns both counters and zeroes them, touching nothing else |
| `SyncHistories.RunIsItsHistory` | crates/mullion-app/src/render.rs:51-152 | over any run the pacer is what its history of bytes and frames says: in a block since the delivery that completed the first opening marker after the last closing one; dirty if a byte came after the last frame; blocks reported or counted are the opening markers met outside a block, timeouts the blocks with a frame after 150 ms, each once |
| `SyncHistories.HoldsWhileBlockIsYoung` | crates/mullion-app/src/render.rs:105-107 | a pane holds its frames if and only if a block is open that began less than 150 ms ago |
| `SyncHistories.ReadyIff` | crates/mullion-app/src/render.rs:169-182 | after any runs of any panes a frame goes out if and only if some pane has a byte not yet shown and none has such a block |
| `SyncHistories.NewBlockHolds` | crates/mullion-app/src/render.rs:61-67 | from any state outside a block, bytes that end inside one hold the frame for 150 ms from their delivery, with its timeout uncounted |
| `PaneAggregate.HoldingUntilDeadline` | crates/mullion-app/src/render.rs:105-117 | a holding pane stops holding exactly at its deadline, which is strictly in the future |
| `PaneAggregate.QuietBeforeDeadline` | crates/mullion-app/src/render.rs:169-196 | without new bytes nothing becomes presentable and no pane changes hold status before the earliest deadline reported |
| `PaneAggregate.JumpFreesAPane` | crates/mullion-app/src/render.rs:191-196 | that deadline is strictly later than now, and at it the set of holding panes is strictly smaller |
| `PaneAggregate.NoFreeze` | crates/mullion-app/src/render.rs:169-196 | waking at each reported deadline ends, in at most as many wake-ups as panes hold and within one timeout, where any dirty set of panes is presentable |
| `PaneAggregate.PanesReadyToPresent` | crates/mullion-app/src/render.rs:169-182 | true exactly when there is no pane, or some pane is dirty and none holds |
| `PaneAggregate.EarliestSyncTimeoutMs` | crates/mullion-app/src/render.rs:191-196 | the minimum deadline of the holding panes, or none if none holds |
| `FrameLimit.WaitIsExact` | crates/mullion-app/src/frame.rs:41-56 | waiting exactly the wait asked for yields a present if and only if the clock has not run back behind the last present; waiting less never does |
| `FrameLimit.FrameLimiter.Plan` | crates/mullion-app/src/frame.rs:41-56 | idle, present or throttle, by dirtiness and time since the last present |
| `FrameLimit.FrameLimiter.Drive` | crates/mullion-app/src/frame.rs:23-56 | over any run of requests on a monotone clock, from any state, presents are at least the interval apart, the one before the run included; from a fresh limiter something is presented if and only if something was dirty |
| `FrameLimit.NextFlipIsExact` | crates/mullion-app/src/frame.rs:80-90 | no blink flip before the wake-up reported, and a flip exactly there if and only if the clock has not run back behind the last input |
| `FrameLimit.DecidesByTheClock` | crates/mullion-app/src/frame.rs:41-56 | idle exactly when there is nothing to show, a present exactly when there was none before or the interval is over |
| `FrameLimit.BlinkPhases` | crates/mullion-app/src/frame.rs:80-83 | on for 530 ms from the last input, off for as long, and so on |
| `KeyTables.WindowIsExact` | crates/mullion-app/src/diag.rs:214-263 | from any drained table and for any nonzero keys noted, the drain reports precisely the first eight distinct keys, once each, with exact counts, and every other hit in the overflow counter |
| `KeyTables.NextWindow` | crates/mullion-app/src/diag.rs:251-263 | a drain leaves a state from which the next window is exact again, with keys only where there were hits |
| `KeyTables.KeyZeroLosesHits` | crates/mullion-app/src/diag.rs:214-231 | key 0, the mark of a free slot, used as a key loses hits (concrete trace) |
| `KeyTables.ReportIsActiveSlots` | crates/mullion-app/src/diag.rs:251-263 | the report lists each slot with hits under its key and nothing else |
| `KeyTables.KeyTable.Note` | crates/mullion-app/src/diag.rs:214-231 | the two scans act as the sequential specification |
| `KeyTables.KeyTable.Drain` | crates/mullion-app/src/diag.rs:251-263 | returns that report and the overflow, and leaves the drained table |
| `KeyTableRace.ConservedIff` | crates/mullion-app/src/diag.rs:214-263 | the exact condition, for every slot of every reachable table: hits reported under a key plus the key's own hits left are its own hits there plus those noted since, for every key and every schedule of the single accesses of one writer and one drainer, if and only if the slot has a key and hits when the drain begins and the writer is not about to store its first hit there |
| `KeyTableRace.LifeIsSane` | crates/mullion-app/src/diag.rs:214-263 | over any life of the table, with any number of drains, no key is in two slots, and what the writer has seen of the table still holds; every hit in a slot was noted there, and a slot with a key holds hits of that key alone, unless the writer is about to store its first |
| `KeyTableRace.DrainAttributes` | crates/mullion-app/src/diag.rs:214-263 | what such a slot has was all noted there for its key; the slot is reported exactly once, under that key, with at least those hits; hits reported plus the key's own hits left are those it had plus those noted since, and a key that takes the slot over keeps exactly its own |
| `KeyTableRace.SwapFirstMisattributes` | crates/mullion-app/src/diag.rs:232-263 | with the swap before the load, a schedule reports the hits of one key under another |
| `KeyTableRace.SilentSlotMisattributesAnyNumber` | crates/mullion-app/src/diag.rs:246-250 | the comment bounds the damage for a slot without hits at one hit; for every slot and every `n` some schedule misattributes `n` |
| `KeyTableRace.SilentSlotLosesAHit` | crates/mullion-app/src/diag.rs:251-263 | a hit on any slot without hits, wherever the writer is, can vanish between the swap and the clearing of the key |
| `KeyTableRace.StrayHitIsMisattributed` | crates/mullion-app/src/diag.rs:214-263 | the vanished hit stays behind as a stray, and the next drain can report it under a key that was never noted there |
| `KeyTableRace.OverwrittenHitIsLost` | crates/mullion-app/src/diag.rs:214-231 | a drain that begins just before the writer's first hit in a slot that is not empty can go wrong: what the slot holds is lost if it is the key's own, and reported as the key's own if it is not |
| `KeyTableRace.NotesAreBooked` | crates/mullion-app/src/diag.rs:214-231 | whatever the schedule, every finished note is booked once: in a slot or in the overflow counter |
| `KeyTableAlone.NoteAlone` | crates/mullion-app/src/diag.rs:214-231 | the writer's single accesses, undisturbed, are the sequential note |
| `KeyTableAlone.DrainAlone` | crates/mullion-app/src/diag.rs:251-263 | the drainer's single accesses, undisturbed, give the sequential report and leave the slots it leaves |
| `PaneTables.WindowIsExact` | crates/mullion-app/src/diag.rs:330-410 | between two drains, for any traffic: one entry for each of the first eight panes heard, pane 0 included, with the sum of its bytes, the number of its frames, every band dirty in one of them and, if it drew a frame, the total of the last; bytes of the other panes go to the overflow |
| `PaneTables.LedgerStep` | crates/mullion-app/src/diag.rs:355-379 | what one operation adds to a slot is what it adds to those sums and sets |
| `PaneTables.TotalsAreOwn` | crates/mullion-app/src/diag.rs:330-365 | whoever had the slot before, a band total is the pane's own, from this window or the last, or zero |
| `PaneTables.NextWindow` | crates/mullion-app/src/diag.rs:386-410 | a drain starts the next exact window; quiet slots are freed, loud ones keep pane and total |
| `PaneTables.PaneTable.FindSlot` | crates/mullion-app/src/diag.rs:330-348 | the pane's own slot, else the first quiet one, claimed and cleared, else none |
| `PaneTables.PaneTable.Note` | crates/mullion-app/src/diag.rs:355-365 | one frame noted as in the sequential specification |
| `PaneTables.PaneTable.Add` | crates/mullion-app/src/diag.rs:373-379 | bytes added as in the sequential specification |
| `PaneTables.PaneTable.Drain` | crates/mullion-app/src/diag.rs:386-410 | reports the loud slots and leaves a drained table |
| `Seating.SeatedStep` | crates/mullion-app/src/diag.rs:214-231 | who is among the first eight distinct keys after one more key |
| `BandCounts.FrameCountsEachPaneOnce` | crates/mullion-app/src/diag.rs:759-788 | counting any frame's plan notes every pane that has bands exactly once, with the bits of all its dirty plans and the number of all its plans, wherever in the plan they are |
| `BandCounts.NotesGroup` | crates/mullion-app/src/diag.rs:770-787 | on any contiguous plan the scan for runs of equal pane ids equals grouping by pane |
| `BandCounts.PlanIsContiguous` | crates/mullion-app/src/bands.rs:227-273 | the plan of a frame with distinct panes is contiguous by pane |
| `BandCounts.CountBands` | crates/mullion-app/src/diag.rs:759-788 | the number of dirty plans, of plans and of segments is added, and the pane table is as after the grouped notes |
| `BandCounts.BitFits` | crates/mullion-app/src/diag.rs:778-780 | bands up to 63 have their own bit, all others the last |
| `RowFps.FrameKeepsItsNotes` | crates/mullion-app/src/row_fp.rs:46-79 | a frame leaves exactly the keys it noted with their last hashes, even when the stamp wraps |
| `RowFps.UnchangedIffSameAsLastFrame` | crates/mullion-app/src/row_fp.rs:46-79 | after any run of frames a key's first note says unchanged if and only if the previous frame's last note of that key had the same hash |
| `RowFps.RowFingerprints.NoteRow` | crates/mullion-app/src/row_fp.rs:55-69 | answer and new state of one note |
| `ShapedCaches.ShapedCache.EndFrame` | crates/mullion-app/src/shaped_cache.rs:191-205 | exactly the rows stamped this frame stay; every payload is in the cache, in the pool or dropped, none duplicated; only the excess over the cap is dropped |
| `ShapedCaches.ShapedCache.Clear` | crates/mullion-app/src/shaped_cache.rs:208-212 | every payload moves to the pool |
| `ShapedCaches.ShapedCache.PayloadCount` | crates/mullion-app/src/shaped_cache.rs:228-230 | the number of payloads held |
| `ShapedCaches.HeldWithout` | crates/mullion-app/src/shaped_cache.rs:191-212 | payload accounting does not depend on the hash table's order |
| `ShapedCaches.PoolCapIsLeast` | crates/mullion-app/src/shaped_cache.rs:113-127 | the pool's cap is the least number that is at least 256 and twice the payloads held |
| `RowShapers.CacheIsInvisibleIff` | crates/mullion-app/src/shaped_cache.rs:36-47 | over every run of frames and font changes, what is drawn through the cache equals every row shaped from scratch in the font of the moment, if and only if rows with equal fingerprints shape alike |
| `RowShapers.RunRight` | crates/mullion-app/src/shaped_cache.rs:105-212 | the same from any state of the cache whose entries are right for the font |
| `RowShapers.EachRowShowsItself` | crates/mullion-app/src/text.rs:720-883 | if equal fingerprints shape alike, every row drawn is its own cells shaped at its own width: the cells with the preedit hole for rows drawn aside, its content for others |
| `RowShapers.CollisionShows` | crates/mullion-app/src/shaped_cache.rs:36-47 | two rows with one fingerprint that shape differently, shown together, put a wrong row on screen |
| `RowShapers.Session` | crates/mullion-app/src/text.rs:553-883 | a live shaper, whatever its state and whatever the fingerprints, draws exactly that run |
| `RowShapers.RowShaper.PrepareFrame` | crates/mullion-app/src/text.rs:689-883 | one frame: what is drawn, what the cache keeps, how many payloads were allocated and how many came back, for every state |
| `RowShapers.RowShaper.DrawRow` | crates/mullion-app/src/text.rs:720-883 | reuse, reshape or shape aside; a row shaped aside neither reads nor writes the cache |
| `RowShapers.RowShaper.SetFont` | crates/mullion-app/src/text.rs:553-582 | a changed font empties the cache into the pool; an unchanged one does nothing |
| `Scrolling.Scroll` | crates/mullion-app/src/shaped_cache.rs:115-205 | a document whose lines have different fingerprints, scrolled by any number of lines per frame, any pool to start with: every frame allocates exactly the runs of the lines that come in beyond what the pool has, so nothing if and only if they do not exceed it; the pool is followed through cap and recycling |
| `Scrolling.ScrollOnce` | crates/mullion-app/src/shaped_cache.rs:191-205 | one scroll frame: allocations and pool from the pool before and the lines' run counts |
| `Scrolling.AllocatesIffNewPeak` | crates/mullion-app/src/shaped_cache.rs:119-127 | while the cap does not bite, a frame allocates if and only if the lines on screen before it and those coming in have more runs together than at any frame before, and then exactly the difference |
| `Scrolling.ReplacedIsEnough` | crates/mullion-app/src/shaped_cache.rs:119-127 | cap or not, a frame allocates nothing if no more runs come in than went out in the frame before and than the cap keeps |
| `Scrolling.UniformNeverAllocates` | crates/mullion-app/src/shaped_cache.rs:119-127 | lines of equally many runs: no frame after the first scroll frame allocates, however long it goes on |
| `Scrolling.VaryingLinesAllocate` | crates/mullion-app/src/shaped_cache.rs:119-127 | lines of one, one and two runs, one visible line: the second scroll frame allocates |
| `Scrolling.DocumentsExist` | crates/mullion-app/src/shaped_cache.rs:36-47 | documents with different fingerprints exist up to 2^64 lines |
| `Fingerprints.HashOfLetterA` | crates/mullion-app/src/bands.rs:95-112 | the digest of a published test value is the published one |
| `Fingerprints.EatInjective` | crates/mullion-app/src/bands.rs:105-112 | no two states and no two bytes lead to the same next state |
| `Fingerprints.UndoMultiply` | crates/mullion-app/src/bands.rs:95-112 | multiplication by the prime is undone modulo 2^64, because the prime is odd |
| `Fingerprints.OneByteChangesDigest` | crates/mullion-app/src/bands.rs:95-133 | two byte strings of one length that differ in exactly one byte have different digests |
| `Fingerprints.DigestInjectiveInState` | crates/mullion-app/src/bands.rs:105-133 | the same bytes never merge two different states |
| `Fingerprints.SplitSizedWords` | crates/mullion-app/src/bands.rs:141-150 | a length-prefixed list of words followed by anything is read back uniquely |
| `Fingerprints.Fnv.U64` | crates/mullion-app/src/bands.rs:113-117 | eats the eight little-endian bytes, which the object's history records |
| `Fingerprints.Fnv.SizedBytes` | crates/mullion-app/src/bands.rs:122-127 | a string is eaten with its length in front |
| `Bands.BandBytesInjective` | crates/mullion-app/src/bands.rs:141-180 | equal encodings mean equal inputs: nothing that shows in a band is lost, not even between adjacent fields |
| `Bands.OneRowByteMovesBand` | crates/mullion-app/src/bands.rs:141-180 | changing one byte of one row's fingerprint always changes the band's |
| `Bands.Fingerprint` | crates/mullion-app/src/bands.rs:141-180 | the value is FNV-1a of that encoding |
| `BandPlans.PlanBands` | crates/mullion-app/src/bands.rs:227-273 | one entry for every band of every pane, in order, dirty exactly when forced, unknown or changed |
| `BandPlans.PlanPane` | crates/mullion-app/src/bands.rs:236-270 | the entries of one pane |
| `BandPlans.RowHasOnePlace` | crates/mullion-app/src/bands.rs:53-60 | every visible row belongs to exactly one plan entry, at its pane's start plus its band number |
| `BandPlans.PlacesDistinct` | crates/mullion-app/src/bands.rs:227-273 | no two entries of a frame share a key |
| `BandPlans.PlanIsDirtyIff` | crates/mullion-app/src/bands.rs:186-194 | an entry is dirty if and only if that is forced or no equal digest is on record |
| `BandPlans.BandsReachEveryRow` | crates/mullion-app/src/bands.rs:241-249 | the 16-bit band ends cover every row if and only if there are at most 65520 rows |
| `BandPlans.SkippedOnlyWhenSame` | crates/mullion-app/src/bands.rs:186-273 | over any run of frames, failed rebuilds included, a band is left alone only if its fingerprint is that of its last rebuild |
| `BandPlans.DirtyIffChanged` | crates/mullion-app/src/text.rs:889-1050 | over any run, a band is rebuilt if and only if the frame before did not complete, did not have the band, or had it with another fingerprint |
| `BandPlans.RebuildHonest` | crates/mullion-app/src/text.rs:890-1045 | recorded fingerprints are always those of what the bands were last built from |
| `BandPlans.CountSegments` | crates/mullion-app/src/bands.rs:283-293 | the loop counts the breaks in adjacency |
| `BandPlans.NeverUndercounts` | crates/mullion-app/src/bands.rs:283-293 | the count is at least the number of connected blocks of rows, in any order, if no 65535 is directly followed by 0 |
| `BandPlans.ExactWhenSorted` | crates/mullion-app/src/bands.rs:283-293 | on ascending rows it is exactly that number |
| `BandPlans.WrapUndercounts` | crates/mullion-app/src/bands.rs:283-293 | with 65535 then 0 it is too low: the wrapping addition joins them |
| `BandLooks.BandSeesItsRows` | crates/mullion-app/src/bands.rs:67-97 | two panes feed the same to a band's fingerprint if and only if every row of the band has the same content, blinked-off cell, geometry, width, style and colours, and the band has the same composition text in the same column |
| `BandLooks.MissedIff` | crates/mullion-app/src/bands.rs:248-262 | the exact condition: panes with the same input show the same in the band if and only if the cursor is on the same row or no composition text is in the band |
| `BandLooks.MovedTextIsMissed` | crates/mullion-app/src/bands.rs:248-262 | for every pane with composition text and any other row of the same band: moving the cursor there changes what shows, but not the input, so the band stays clean |
| `BandLooks.OnePaneChanges` | crates/mullion-app/src/bands.rs:227-273 | when one pane changes, the places fed something else are exactly those of its bands for which it is not the same |
| `BandLooks.OneRowOneBand` | crates/mullion-app/src/bands.rs:227-273 | changing one row changes the input of its own band and of no other |
| `BandLooks.ComposingOneBand` | crates/mullion-app/src/bands.rs:246-260 | changing the composition text, or its column, changes the band of the cursor's row and no other |
| `BandLooks.MovingText` | crates/mullion-app/src/bands.rs:246-260 | moving the cursor while composing changes the band it leaves and the band it enters, if they are two |
| `BandLooks.BlinkingCell` | crates/mullion-app/src/bands.rs:234-262 | a blinking cell that changes changes the band it leaves and the band it enters |
| `BandLooks.WholePane` | crates/mullion-app/src/bands.rs:227-273 | a change of geometry or width changes every band of the pane and no other |
| `BandLooks.WholeFrame` | crates/mullion-app/src/bands.rs:227-273 | a change of style or colours changes every band |
| `FrameFps.SceneBytesInjective` | crates/mullion-app/src/frame_fp.rs:116-286 | two frames with the same encoding are the same frame: sizes, style, every vertex and index, everything a pane shows |
| `FrameFps.SkipIsSound` | crates/mullion-app/src/frame_fp.rs:80-135 | a frame is skipped only if nothing is left to upload, neither frame has a callback, and the scenes are equal or their digests collide |
| `FrameFps.SkipIff` | crates/mullion-app/src/frame_fp.rs:80-135 | a frame is skipped if and only if there was one before, nothing is left to upload, neither has a callback, and their digests are equal |
| `FrameFps.FrameFingerprint` | crates/mullion-app/src/frame_fp.rs:116-135 | digest and hashability of the scene |
| `FrameFps.HashJobs` | crates/mullion-app/src/frame_fp.rs:165-217 | stops at the first callback; otherwise eats every mesh |
| `FrameFps.HashPanes` | crates/mullion-app/src/frame_fp.rs:116-286 | eats every pane's cells, cursor, selection and geometry |
| `ClipboardCodec.RoundTrip` | crates/mullion-app/src/clipboard_remote.rs:47-108 | every clip in range decodes back exactly |
| `ClipboardCodec.ParseIsStrict` | crates/mullion-app/src/clipboard_remote.rs:69-108 | whatever decodes is, byte for byte, the encoding of what it decodes to |
| `ClipboardCodec.RoundTripIffInRange` | crates/mullion-app/src/clipboard_remote.rs:47-108 | the round trip holds if and only if the lengths and the count fit their fields |
| `ClipboardCodec.UnwrapIgnoresPadding` | crates/mullion-app/src/clipboard_remote.rs:117-128 | any trailing padding is ignored, if and only if the payload's length fits its field |
| `ClipboardCodec.EnvelopeRoundTrip` | crates/mullion-app/src/clipboard_remote.rs:47-128 | encode, wrap, pad, unwrap, decode recovers a clip, whatever the padding, if and only if its parts fit their fields and its encoding is under 2^32 bytes |
| `ClipboardCodec.WireLayout` | crates/mullion-app/src/clipboard_remote.rs:42-65 | where magic, mode, fingerprint, count and items are in the bytes, and how wide their lengths are |
| `ClipboardCodec.ItemLayout` | crates/mullion-app/src/clipboard_remote.rs:59-64 | an item is its kind, its path's length in four bytes, and the path |
| `LittleEndian.Le32Digits` | crates/mullion-app/src/clipboard_remote.rs:58-62 | four-byte fields have their low bytes first |
| `Utf8Text.Utf8Iff` | crates/mullion-app/src/clipboard_remote.rs:86 | a fingerprint is accepted if and only if it is the encoding of some characters |
| `ClipboardCodec.Encode` | crates/mullion-app/src/clipboard_remote.rs:47-65 | the appended bytes are the specified encoding |
| `ClipboardCodec.Decode` | crates/mullion-app/src/clipboard_remote.rs:69-108 | the cursor loop computes the specified parse, on every byte string |
| `ClipboardCodec.DecodeItems` | crates/mullion-app/src/clipboard_remote.rs:84-101 | the item loop consumes exactly the specified items |
| `BitFields.ContiguousField` | crates/mullion-app/src/shot.rs:62-73 | reading through a contiguous mask is shifting down and cutting off |
| `BitFields.FieldInRange` | crates/mullion-app/src/shot.rs:53-73 | a masked value never exceeds its field |
| `BitFields.ChannelIsStretch` | crates/mullion-app/src/shot.rs:53-73 | every mask gives that scaling of its field, in wrapping 32-bit arithmetic, except the one over the whole word, which gives 0 |
| `BitFields.FaithfulIff` | crates/mullion-app/src/shot.rs:62-73 | for fields of 1 to 31 bits: all values come out nearest-rounded if and only if the field has at most 24 bits, and likewise for keeping order and for full becoming 255 |
| `BitFields.ByteChannel` | crates/mullion-app/src/shot.rs:53-73 | an 8-bit mask gives back its byte unchanged |
| `Dibs.DecodedSize` | crates/mullion-app/src/shot.rs:86-174 | on every byte string: an error, or exactly three bytes for each pixel of the stated size |
| `Dibs.PixelIsExact` | crates/mullion-app/src/shot.rs:140-174 | each output pixel is the stored pixel at the row given by the flip and the four-byte stride and the column given by the depth, through its masks |
| `DibWriters.DecodeInvertsWrite` | crates/mullion-app/src/shot.rs:86-174 | decoding inverts a reference writer for every bitmap: both depths, both row orders, any header size, and channels in any three disjoint bytes, their masks behind a 40-byte header or inside a longer one |
| `DibWriters.ChannelAt` | crates/mullion-app/src/shot.rs:54-73 | through an eight-bit mask a channel is its byte, whatever the other bits are |
| `Dibs.AcceptedIff` | crates/mullion-app/src/shot.rs:86-152 | a bitmap is accepted if and only if its bytes say so: header of 40 or more, sizes in range, depth 24 or 32, no compression or masks that are there, and all rows present |
| `DibWriters.StandardMasks` | crates/mullion-app/src/shot.rs:118-138 | through the standard masks the channels are the stored bytes |
| `Dibs.DibToBitmap` | crates/mullion-app/src/shot.rs:86-174 | the loops compute the specified decoding |
| `StatsCells.CpuPctIsNearest` | crates/mullion-app/src/node_stats.rs:92-100 | a percentage exists exactly when the counters advanced, is at most 100, and is within half a percent of the true ratio |
| `StatsCells.WakeIffWork` | crates/mullion-app/src/node_stats.rs:189-275 | at any later time, if nothing else happened, planning dispatches something if and only if the wake-up reported now has come |
| `StatsCells.NoBusyWait` | crates/mullion-app/src/node_stats.rs:189-275 | right after planning the next wake-up is absent or strictly later, and until then planning dispatches nothing |
| `StatsCells.BusyIsOneOutstanding` | crates/mullion-app/src/node_stats.rs:249-341 | over every interleaving of ticks, late reports, refreshes and reconnects each busy flag holds if and only if exactly one probe of the present connection is out |
| `StatsCells.StaleReportsChangeNothing` | crates/mullion-app/src/node_stats.rs:280-326 | striking all stale reports from any run leaves the cell exactly as it was |
| `StatsCells.CpuValueIsFromOnePair` | crates/mullion-app/src/node_stats.rs:295-341 | a percentage is shown if and only if it is that of two successive accepted samples of one connection, with no failure and no reconnect between them, and no accepted sample since then has failed, been absent or given another |
| `StatsCells.SamplesAreSpaced` | crates/mullion-app/src/node_stats.rs:189-265 | one connection is sampled at most once per period, whatever the order of events |
| `StatsHistories.PlansExactly` | crates/mullion-app/src/node_stats.rs:189-265 | over any run: a sample is sent if and only if none is out over this connection and the last one is ten seconds old; the country is asked for if and only if no request is out and the last one is five minutes old; reconnecting makes both due, the user the latter |
| `StatsHistories.ShowsLastReports` | crates/mullion-app/src/node_stats.rs:280-341 | memory, disk and country shown are those of the last report that came over its own connection |
| `StatsHistories.ShowsLastCpu` | crates/mullion-app/src/node_stats.rs:295-317 | the CPU reading is what the last report that says anything says, failures with their reason |
| `StatsCells.StatsCell.PlanNow` | crates/mullion-app/src/node_stats.rs:249-265 | plan returned and flags and times set |
| `StatsCells.StatsCell.Wake` | crates/mullion-app/src/node_stats.rs:266-275 | the earlier of the two next-due times |
| `StatsCells.StatsCell.CpuDone` | crates/mullion-app/src/node_stats.rs:295-317 | value, failure, absence and baseline, branch by branch |
| `StatsCells.StatsCell.SampleDone` | crates/mullion-app/src/node_stats.rs:280-288 | memory, disk and the busy flag, unless the report is stale |
| `StatsCells.StatsCell.CountryDone` | crates/mullion-app/src/node_stats.rs:319-326 | country and its busy flag, unless the report is stale |
| `StatsCells.StatsCell.RefreshCountryNow` | crates/mullion-app/src/node_stats.rs:327-330 | the country's time is forgotten |
| `StatsCells.StatsCell.ResetSchedule` | crates/mullion-app/src/node_stats.rs:331-341 | times, flags and baseline are forgotten, readings kept, a new generation begun |
| `BatchTrackers.MapsAgree` | crates/mullion-app/src/paste_files.rs:229-317 | after any run with fresh ids the two maps agree, and a batch is held exactly while its tab is open and a job has yet to report |
| `BatchTrackers.VerdictExactly` | crates/mullion-app/src/paste_files.rs:251-276 | the verdict falls at the report that completes the batch; if and only if every first report was a success it names, for the pane the batch was opened for, every job's path at the job's place, otherwise the number of failures |
| `BatchTrackers.OneVerdictPerBatch` | crates/mullion-app/src/paste_files.rs:251-317 | at most one verdict per batch; none for an empty job list, for one with a repeated job number, or after its tab closed |
| `BatchTrackers.CompleteMeansJudged` | crates/mullion-app/src/paste_files.rs:251-276 | a batch all of whose jobs reported while its tab was open has been judged |
| `BatchTrackers.SweepIgnoresOrder` | crates/mullion-app/src/paste_files.rs:284-299 | whatever order the hash table yields, a sweep leaves the same state and the same verdicts: only abandonments, one for each batch it ends, with the full number of failures |
| `BatchTrackers.SweepEndsIff` | crates/mullion-app/src/paste_files.rs:284-299 | a sweep ends a batch if and only if its jobs have different numbers, some have not reported, and all of those are given up |
| `BatchTrackers.RunsAreSettled` | crates/mullion-app/src/paste_files.rs:234-317 | every reachable tracker satisfies what the sweep relies on |
| `BatchTrackers.BatchTracker.OpenBatch` | crates/mullion-app/src/paste_files.rs:235-249 | both maps after opening |
| `BatchTrackers.BatchTracker.JobFinished` | crates/mullion-app/src/paste_files.rs:251-276 | state and verdict of one report |
| `BatchTrackers.BatchTracker.Sweep` | crates/mullion-app/src/paste_files.rs:284-299 | the given-up jobs fail in some order; on every reachable tracker state and verdicts do not depend on it |
| `BatchTrackers.BatchTracker.DropTab` | crates/mullion-app/src/paste_files.rs:303-317 | exactly the batches of that generation and their jobs are gone |
| `Histograms.QuantileBound` | crates/mullion-app/src/profile.rs:33-73 | for every nonempty list of samples and every fraction from 0 to 1 the quantile is the upper bound of the bucket of a sample up to which there are at least that fraction of them, and before which there are fewer or none: 0 if and only if the sample is 0, at most twice the sample, and not below it if and only if the sample is at most 2^23 |
| `Histograms.NearestIsUnique` | crates/mullion-app/src/profile.rs:59-73 | there is only one such sample |
| `Histograms.BucketIsPower` | crates/mullion-app/src/profile.rs:33-50 | samples from 2^n up to 2^(n+1) share a bucket and are reported as 2^(n+1), from 2^22 on as 2^23 |
| `Histograms.NoSamples` | crates/mullion-app/src/profile.rs:60-63 | without samples the quantile is 0 |
| `Histograms.BucketMonotone` | crates/mullion-app/src/profile.rs:33-40 | larger samples never land in an earlier bucket |
| `Histograms.UpperBounds` | crates/mullion-app/src/profile.rs:33-50 | how a bucket's upper bound relates to its samples |
| `Histograms.QuantileOf` | crates/mullion-app/src/profile.rs:59-73 | the accumulating loop finds the first bucket that reaches the rank |
| `Histograms.Histogram.Record` | crates/mullion-app/src/profile.rs:106-108 | the counts are those of the samples with one more |
| `Histograms.Histogram.Drain` | crates/mullion-app/src/profile.rs:116-122 | the window's exact counts, and an empty histogram |
| `Histograms.DrainLosesNothing` | crates/mullion-app/src/profile.rs:106-122 | with samples arriving between the bucket swaps each is in this window or left for the next, never lost or doubled |
| `MemoryBudget.JitterIsOneLine` | crates/mullion-app/src/profile.rs:743-767 | readings that stay above 284 and below 365 MB write at most one line, and one exactly if some reading is over 300 |
| `MemoryBudget.NextLine` | crates/mullion-app/src/profile.rs:743-767 | every reading writes exactly the line due after those before it: over 300 at first or after a recovery; after a crossing, at 284 or below, or 64 up |
| `MemoryBudget.LinesAreOrderly` | crates/mullion-app/src/profile.rs:743-767 | a recovery only after a crossing, a crossing after a crossing only a full step higher or at the top of the range |
| `MemoryBudget.CrossingsClimb` | crates/mullion-app/src/profile.rs:743-767 | every further crossing in a row costs 64 MB more |
| `MemoryBudget.TopReadingRepeats` | crates/mullion-app/src/profile.rs:760-762 | at the top of the range the saturated step is met by standing still (concrete readings) |
| `NodePicks.CandidatesOrder` | crates/mullion-app/src/project.rs:72-84 | direct nodes before routed ones; the preferred node first in its class; list order otherwise |
| `NodePicks.CandidatesPermute` | crates/mullion-app/src/project.rs:72-84 | the candidates are a permutation of the nodes if and only if the preferred node is not listed twice; repeats of it are dropped |
| `NodePicks.PickIsFirstReachable` | crates/mullion-app/src/project.rs:95-116 | the first candidate that can be dialled and answers, or the last one unprobed; all before it listed in order, by name and reason |
| `NodePicks.PickNode` | crates/mullion-app/src/project.rs:95-116 | the loop computes that choice |
| `NodePicks.SharingIsInvisibleIff` | crates/mullion-app/src/project.rs:534-573 | restoring with the shared cache gives every group the plain result, for all groups, if and only if a first hop's key decides the probe's answer |
| `NodePicks.EachHopProbedOnce` | crates/mullion-app/src/project.rs:534-573 | each key is probed at most once, and never on behalf of a group's last candidate or of a broken plan |
| `NodePicks.PickForRestore` | crates/mullion-app/src/project.rs:534-573 | the nested loops with the cache compute those results |
| `LogNames.ParseExactly` | crates/mullion-app/src/logx.rs:94-120 | a name parses to an id if and only if the id is well formed and the name is that instance's log or its rotated log |
| `LogNames.InstanceIdShape` | crates/mullion-app/src/logx.rs:103-110 | an id is two nonempty digit strings with one hyphen between them |
| `LogNames.OnlyInstancesParse` | crates/mullion-app/src/logx.rs:94-120 | any other name of the same shape is left alone |
| `LogRetention.PrunePlan` | crates/mullion-app/src/logx.rs:466-495 | the plan is, with multiplicity, the paths of all files of the doomed groups |
| `LogRetention.PathsOfCounts` | crates/mullion-app/src/logx.rs:487-495 | a path is named as often as there are files of these groups under it |
| `LogRetention.WhatIsDeleted` | crates/mullion-app/src/logx.rs:466-495 | a path is deleted exactly when its group is not this instance's, not alive, untouched for a minute in all its files, and at least `keep` such groups have a newer file, or an equally new one and the smaller id |
| `LogRetention.NewestSurvive` | crates/mullion-app/src/logx.rs:485-495 | of the stale groups exactly `keep`, or all if fewer, survive, and each has a newer file than every doomed one, or an equally new one and the smaller id |
| `LogRetention.WhoIsStale` | crates/mullion-app/src/logx.rs:473-484 | staleness in terms of every file of the group, saturation included |
| `Redaction.AliasesIdentify` | crates/mullion-app/src/redact.rs:35-44 | over any sequence of requests two values get the same alias if and only if they are the same value |
| `Redaction.AliasKeepsValid` | crates/mullion-app/src/redact.rs:35-44 | an alias once given is never changed or given away |
| `Redaction.AddressesAreGone` | crates/mullion-app/src/redact.rs:122-148 | the output holds no run of digits and dots that is an IPv4 address, and is a fixpoint of the pass together with the table |
| `RedactedAddresses.OnlyAddresses` | crates/mullion-app/src/redact.rs:122-148 | nothing but addresses is replaced, each by its alias, and all other text stays in place |
| `RedactedAddresses.ClearAddressIsHidden` | crates/mullion-app/src/redact.rs:122-148 | an address that no digit or dot touches is replaced, in any text |
| `RedactedAddresses.QuadIsAddressIff` | crates/mullion-app/src/redact.rs:258-264 | four numbers with dots between them are an address if and only if none exceeds 255 |
| `RedactedAddresses.AddressShape` | crates/mullion-app/src/redact.rs:258-264 | an address is four parts of up to three characters, digits of a number up to 255 or a plus sign before them |
| `Redaction.KnownIsReplaced` | crates/mullion-app/src/redact.rs:59-88 | a known value that no letter, digit, hyphen or dot touches is replaced by its alias, in any text |
| `Redaction.AliasesSurviveIff` | crates/mullion-app/src/redact.rs:35-88 | the exact condition for aliases to read the same: in any text, wherever an alias already put there stands apart from letters, digits, hyphens and dots, the last pass leaves it alone, if and only if no value with an alias is the word or the number of an alias in use |
| `Redaction.SurvivesIff` | crates/mullion-app/src/redact.rs:35-88 | the same for each alias by itself |
| `Redaction.HostNamedHost` | crates/mullion-app/src/redact.rs:59-88 | a machine called `host` turns its own alias `host#1` into `host#1#1` |
| `Redaction.HostNamedPath` | crates/mullion-app/src/redact.rs:59-88 | a machine called `path` turns the alias `path#1` of a path into `host#1#1`, although the last pass settles |
| `Redaction.OnePassSettlesIff` | crates/mullion-app/src/redact.rs:59-88 | applied to its own output the last pass changes nothing, for every text, if and only if no value with an alias is the word or the number of an alias of a bare value |
| `Redaction.Redactor.AliasFor` | crates/mullion-app/src/redact.rs:35-44 | answer and new table |
| `Redaction.Redactor.ReplaceIpv4` | crates/mullion-app/src/redact.rs:122-148 | the index loop computes the specified pass and table |
| `Redaction.Redactor.ReplaceKnownBareTokens` | crates/mullion-app/src/redact.rs:59-88 | the index loop computes the specified pass and leaves the table alone |

## Left out

- Drawing, fonts, windows, network, files, threads and the clock: their results are parameters.
- Everything built on other libraries or settled by one branch: connecting, cloud sync, host keys, shell commands, user-facing text, log-line formatting.
- SyncPacer.SyncFramePacer.Feed: does not model saturation of the 32-bit block and timeout counters, which a drain every five seconds keeps small.
- KeyTables.KeyTable.Note: does not model overflow of the 64-bit hit counters.
- KeyTableRace.ConservedIff: models relaxed atomics as single sequentially consistent steps; reorderings a weaker memory model allows are not covered. The swap of the overflow counter that ends a drain is a single access and is not interleaved.
- PaneTables.WindowIsExact: a dirty-band bitmap is the set of its bits. Notes and drains do not interleave here: this table takes bytes, frames and bitmap in three accesses, so a drain can split a frame between two windows, and what it then reports is not modelled.
- BandCounts.CountBands: which bits are set is modelled, not the 64-bit word.
- RowShapers.Session: a row's content and its shaping are opaque values; the per-frame temporary buffers are not modelled.
- RowShapers.RowShaper.SetFont: the font is a single value; non-finite or non-positive sizes, which are ignored, are not modelled.
- FrameFps.SkipIsSound: a collision of the 64-bit digest is stated as the alternative, not excluded; float fields are their bit patterns.
- Fingerprints.OneByteChangesDigest: for changes of more than one byte nothing is claimed, as FNV-1a collides.
- ClipboardCodec.Decode: text is a byte string of well-formed UTF-8 (RFC 3629); conversion to the platform's strings is not modelled.
- Dibs.DibToBitmap: sizes and offsets are those of a 64-bit machine; encoding to PNG is a library's.
- BitFields.FaithfulIff: the 32-bit product wraps as in a release build; a debug build stops instead.
- StatsCells.CpuPctIsNearest: rounding is exact on rationals instead of 64-bit floats.
- StatsCells.BusyIsOneOutstanding: the generation is unbounded, so 2^64 reconnects during one probe are not modelled; parsing of command output is not modelled.
- BatchTrackers.MapsAgree: batch and job numbers are assumed never to repeat, as the caller's counters make sure.
- Histograms.QuantileBound: the fraction is a rational and the rank exact; rounding of 64-bit floats in the product is not modelled. Counts are unbounded.
- NodePicks.SharingIsInvisibleIff: a probe's answer is a function of its plan during one restore; time-outs and order of completion are not modelled. Sorting is the stable sort by one bit.
- LogRetention.PrunePlan: the map's and the sort's inner workings are replaced by insertion into ranked order; reading the directory and deleting are not modelled.
- Redaction.Redactor.ReplaceIpv4: the passes for `user@host` pairs and for Windows and Unix paths, and their composition into one line, are not part of this model.
- Seating, Text, Arithmetic, LittleEndian, Bytes, FiniteSets: shared helpers; rows are given only for what says something about the program.
